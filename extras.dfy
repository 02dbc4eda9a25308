/** The skip gate of the library writer: `classify_extra_content` sorts bonus
    material (trailers, interviews, ...) into categories, and `is_skip_file`
    rejects those and sample clips. The regular expressions are abstract
    predicates; the order in which they are consulted is the model's content. */
module Extras {
  import opened Opt

  /** The keys of `extras_categories`, in the dictionary's insertion order. */
  datatype Category = Trailer | DeletedScene | Interview | BehindScenes | Featurette | Extra | Commentary | Unrated

  const CategoryOrder: seq<Category> :=
    [Trailer, DeletedScene, Interview, BehindScenes, Featurette, Extra, Commentary, Unrated]

  /** The pattern groups of the classifier, each an abstract `re.search` test:
      the four extended-cut patterns taken together, the unrated-movie pattern,
      the pattern list of each category taken together, and the five sample
      patterns taken together. */
  datatype ExtraPatterns = ExtraPatterns(
    extendedMovie: string -> bool,
    unratedMovie: string -> bool,
    category: (Category, string) -> bool,
    sample: string -> bool)

  /** The first category of `order` whose patterns match `f`. */
  function FirstCategory(p: ExtraPatterns, f: string, order: seq<Category>): (r: Option<Category>)
    ensures r.Some? ==> r.value in order && p.category(r.value, f)
    ensures r.None? <==> forall c | c in order :: !p.category(c, f)
  {
    if order == [] then None
    else if p.category(order[0], f) then Some(order[0])
    else FirstCategory(p, f, order[1..])
  }

  /** `classify_extra_content(f)`: no category for extended or unrated cuts of
      a film, otherwise the first matching category. */
  function ClassifyExtraContent(p: ExtraPatterns, f: string): Option<Category> {
    if p.extendedMovie(f) || p.unratedMovie(f) then None
    else FirstCategory(p, f, CategoryOrder)
  }

  /** `is_skip_file(f)`: an extra of some category, or a sample clip. */
  predicate IsSkipFile(p: ExtraPatterns, f: string) {
    ClassifyExtraContent(p, f).Some? || p.sample(f)
  }

  /** The category key as the source spells it. */
  function CategoryName(c: Category): string {
    match c
    case Trailer => "trailer"
    case DeletedScene => "deleted_scene"
    case Interview => "interview"
    case BehindScenes => "behind_scenes"
    case Featurette => "featurette"
    case Extra => "extra"
    case Commentary => "commentary"
    case Unrated => "unrated"
  }

  /** `CategoryName(c).capitalize()`, the name of the category's folder. */
  function CategoryFolder(c: Category): string {
    match c
    case Trailer => "Trailer"
    case DeletedScene => "Deleted_scene"
    case Interview => "Interview"
    case BehindScenes => "Behind_scenes"
    case Featurette => "Featurette"
    case Extra => "Extra"
    case Commentary => "Commentary"
    case Unrated => "Unrated"
  }

  function Rank(c: Category): nat {
    match c
    case Trailer => 0
    case DeletedScene => 1
    case Interview => 2
    case BehindScenes => 3
    case Featurette => 4
    case Extra => 5
    case Commentary => 6
    case Unrated => 7
  }

  lemma {:induction false} FirstCategoryIsEarliest(p: ExtraPatterns, f: string, order: seq<Category>, i: nat)
    requires i < |order| && FirstCategory(p, f, order) == Some(order[i])
    requires forall a, b | 0 <= a < b < |order| :: order[a] != order[b]
    ensures forall j | 0 <= j < i :: !p.category(order[j], f)
  {
    if i > 0 {
      assert order[0] != order[i];
      assert FirstCategory(p, f, order) == FirstCategory(p, f, order[1..]);
      FirstCategoryIsEarliest(p, f, order[1..], i - 1);
      forall j | 0 < j < i
        ensures !p.category(order[j], f)
      {
        assert order[j] == order[1..][j - 1];
      }
    }
  }

  lemma {:induction false} FirstCategoryOfEarliest(p: ExtraPatterns, f: string, order: seq<Category>, i: nat)
    requires i < |order| && p.category(order[i], f)
    requires forall j | 0 <= j < i :: !p.category(order[j], f)
    ensures FirstCategory(p, f, order) == Some(order[i])
  {
    if i > 0 {
      FirstCategoryOfEarliest(p, f, order[1..], i - 1);
    }
  }

  /** A name is classified as category `c` exactly when neither film-cut
      exception applies, the patterns of `c` match, and those of every category
      listed before `c` do not. */
  lemma ClassifiedIff(p: ExtraPatterns, f: string, c: Category)
    ensures ClassifyExtraContent(p, f) == Some(c) <==>
      !p.extendedMovie(f) && !p.unratedMovie(f) && p.category(c, f) &&
      forall d: Category | Rank(d) < Rank(c) :: !p.category(d, f)
  {
    if ClassifyExtraContent(p, f) == Some(c) {
      ClassifiedOnlyIf(p, f, c);
    }
    if !p.extendedMovie(f) && !p.unratedMovie(f) && p.category(c, f) &&
      forall d: Category | Rank(d) < Rank(c) :: !p.category(d, f)
    {
      ClassifiedIf(p, f, c);
    }
  }

  lemma RankIsPosition()
    ensures forall c: Category :: CategoryOrder[Rank(c)] == c
    ensures forall a, b | 0 <= a < b < |CategoryOrder| :: CategoryOrder[a] != CategoryOrder[b]
  {
  }

  lemma ClassifiedOnlyIf(p: ExtraPatterns, f: string, c: Category)
    requires ClassifyExtraContent(p, f) == Some(c)
    ensures !p.extendedMovie(f) && !p.unratedMovie(f) && p.category(c, f)
    ensures forall d: Category | Rank(d) < Rank(c) :: !p.category(d, f)
  {
    RankIsPosition();
    FirstCategoryIsEarliest(p, f, CategoryOrder, Rank(c));
    forall d: Category | Rank(d) < Rank(c)
      ensures !p.category(d, f)
    {
      assert CategoryOrder[Rank(d)] == d;
    }
  }

  lemma ClassifiedIf(p: ExtraPatterns, f: string, c: Category)
    requires !p.extendedMovie(f) && !p.unratedMovie(f) && p.category(c, f)
    requires forall d: Category | Rank(d) < Rank(c) :: !p.category(d, f)
    ensures ClassifyExtraContent(p, f) == Some(c)
  {
    RankIsPosition();
    forall j | 0 <= j < Rank(c)
      ensures !p.category(CategoryOrder[j], f)
    {
      assert Rank(CategoryOrder[j]) == j;
    }
    FirstCategoryOfEarliest(p, f, CategoryOrder, Rank(c));
  }

  /** Extended and unrated cuts of a film are never extras, whatever else
      their names contain; they are skipped only if they look like samples. */
  lemma FilmCutsAreNotExtras(p: ExtraPatterns, f: string)
    requires p.extendedMovie(f) || p.unratedMovie(f)
    ensures ClassifyExtraContent(p, f).None?
    ensures IsSkipFile(p, f) <==> p.sample(f)
  {
  }

  /** A name is skipped exactly when it is a sample clip or matches some
      category without being a film cut. */
  lemma SkipIff(p: ExtraPatterns, f: string)
    ensures IsSkipFile(p, f) <==>
      p.sample(f) || (!p.extendedMovie(f) && !p.unratedMovie(f) && exists c: Category :: p.category(c, f))
  {
    if exists c: Category :: p.category(c, f) {
      var c: Category :| p.category(c, f);
      assert CategoryOrder[Rank(c)] == c;
    }
  }
}
