/** `find_duplicates` of the duplicate remover: downloads are grouped by
    link, and in every group of two or more all but the newest are selected
    for deletion. */
module Duplicates {
  import opened Opt
  import opened Freshness
  import opened Records

  /** The sort key: the generation instant, the epoch (0) when the download
      has no `generated` key. */
  function Key(d: Download): int {
    match d.generated
    case Some(At(t)) => t
    case _ => 0
  }

  /** A `generated` value that `strptime` rejects. */
  predicate Malformed(d: Download) {
    d.generated == Some(Unparseable)
  }

  /** `download.get("link", "")` is truthy. */
  predicate Linked(d: Download) {
    d.link.Some? && d.link.value != []
  }

  // ----- sorted(group, key=..., reverse=True) -----

  /** Descending order by key, as `sorted(..., reverse=True)` leaves it. */
  predicate SortedDesc(s: seq<Download>) {
    forall i, j | 0 <= i < j < |s| :: Key(s[i]) >= Key(s[j])
  }

  /** Insert `x` after every element whose key is at least its key. */
  function InsertDesc(x: Download, s: seq<Download>): (r: seq<Download>)
    ensures multiset(r) == multiset(s) + multiset{x}
    ensures |r| == |s| + 1
    ensures r[0] == (if s != [] && Key(s[0]) >= Key(x) then s[0] else x)
    ensures forall y | y in r :: y == x || y in s
  {
    assert s != [] ==> s == [s[0]] + s[1..];
    if s == [] then [x]
    else if Key(s[0]) >= Key(x) then [s[0]] + InsertDesc(x, s[1..])
    else [x] + s
  }

  /** The stable descending sort: elements are inserted in list order, each
      after all earlier ones that are at least as new. */
  function SortDesc(g: seq<Download>): (r: seq<Download>)
    ensures multiset(r) == multiset(g) && |r| == |g|
  {
    assert g != [] ==> g == g[..|g| - 1] + [g[|g| - 1]];
    if g == [] then [] else InsertDesc(g[|g| - 1], SortDesc(g[..|g| - 1]))
  }

  lemma {:induction false} InsertDescSorted(x: Download, s: seq<Download>)
    requires SortedDesc(s)
    ensures SortedDesc(InsertDesc(x, s))
  {
    if s != [] && Key(s[0]) >= Key(x) {
      var t := s[1..];
      assert SortedDesc(t) by {
        assert forall i | 0 <= i < |t| :: t[i] == s[i + 1];
      }
      InsertDescSorted(x, t);
      var u := InsertDesc(x, t);
      var r := [s[0]] + u;
      assert forall y | y in t :: Key(y) <= Key(s[0]) by {
        assert forall i | 0 <= i < |t| :: t[i] == s[i + 1];
      }
      assert forall j | 0 <= j < |u| :: Key(u[j]) <= Key(s[0]) by {
        assert forall j | 0 <= j < |u| :: u[j] in u;
      }
      assert forall i, j | 0 < i < j < |r| :: r[i] == u[i - 1] && r[j] == u[j - 1];
    }
  }

  /** The sort yields a descending permutation of the group. */
  lemma {:induction false} SortDescSorted(g: seq<Download>)
    ensures SortedDesc(SortDesc(g))
  {
    if g != [] {
      SortDescSorted(g[..|g| - 1]);
      InsertDescSorted(g[|g| - 1], SortDesc(g[..|g| - 1]));
    }
  }

  /** `g[j]` is the newest element, and no element listed before it is as new. */
  predicate FirstNewest(g: seq<Download>, j: nat) {
    j < |g| &&
    (forall i | 0 <= i < |g| :: Key(g[i]) <= Key(g[j])) &&
    (forall i | 0 <= i < j :: Key(g[i]) < Key(g[j]))
  }

  /** The head of the sorted group is the newest download, and on a tie the
      earliest listed one: the sort is stable even in reverse. */
  lemma {:induction false} SortDescHead(g: seq<Download>)
    requires g != []
    ensures exists j | 0 <= j < |g| :: FirstNewest(g, j) && SortDesc(g)[0] == g[j]
  {
    var init := g[..|g| - 1];
    var x := g[|g| - 1];
    if init == [] {
      assert FirstNewest(g, 0);
    } else {
      SortDescHead(init);
      var j :| 0 <= j < |init| && FirstNewest(init, j) && SortDesc(init)[0] == init[j];
      assert SortDesc(g) == InsertDesc(x, SortDesc(init));
      FirstNewestExtend(g, j);
    }
  }

  lemma FirstNewestExtend(g: seq<Download>, j: nat)
    requires g != [] && FirstNewest(g[..|g| - 1], j)
    ensures Key(g[j]) >= Key(g[|g| - 1]) ==> FirstNewest(g, j)
    ensures Key(g[j]) < Key(g[|g| - 1]) ==> FirstNewest(g, |g| - 1)
  {
    var init := g[..|g| - 1];
    assert forall i | 0 <= i < |init| :: init[i] == g[i];
  }

  // ----- grouping -----

  /** The members of `s` whose link is `l`, in list order. */
  function WithLink(s: seq<Download>, l: string): (r: seq<Download>)
    ensures forall d | d in r :: d.link == Some(l)
    ensures |r| <= |s|
  {
    if s == [] then []
    else WithLink(s[..|s| - 1], l) + (if s[|s| - 1].link == Some(l) then [s[|s| - 1]] else [])
  }

  /** The keys of `link_groups`, in the order they were first seen. */
  function LinkOrder(ds: seq<Download>): (order: seq<string>)
    ensures forall l | l in order :: l != []
    ensures forall i, j | 0 <= i < j < |order| :: order[i] != order[j]
  {
    if ds == [] then []
    else
      var o := LinkOrder(ds[..|ds| - 1]);
      var d := ds[|ds| - 1];
      if Linked(d) && d.link.value !in o then o + [d.link.value] else o
  }

  /** What `find_duplicates` returns: the downloads to delete and the
      `duplicate_count` it logs, or the `ValueError` of an unparseable date. */
  datatype DupResult = ParseError | Found(toDelete: seq<Download>, count: nat)

  /** The deletions a group contributes: all but the head of the sorted group. */
  function Losers(g: seq<Download>): seq<Download> {
    if |g| > 1 then SortDesc(g)[1..] else []
  }

  /** Sorting a group of two or more evaluates every member's key. */
  predicate GroupFails(g: seq<Download>) {
    |g| > 1 && exists d | d in g :: Malformed(d)
  }

  /** The second loop of `find_duplicates`, over the groups of `order`. */
  function Collect(ds: seq<Download>, order: seq<string>): DupResult {
    if order == [] then Found([], 0)
    else
      match Collect(ds, order[..|order| - 1])
      case ParseError => ParseError
      case Found(del, c) =>
        var g := WithLink(ds, order[|order| - 1]);
        if GroupFails(g) then ParseError
        else Found(del + Losers(g), c + (if |g| > 1 then |g| - 1 else 0))
  }

  function FindDuplicatesSpec(ds: seq<Download>): DupResult {
    Collect(ds, LinkOrder(ds))
  }

  /** The first loop of `find_duplicates`: `link_groups`, and its keys in
      insertion order. */
  method GroupByLink(ds: seq<Download>) returns (groups: map<string, seq<Download>>, order: seq<string>)
    ensures order == LinkOrder(ds)
    ensures forall l | l in order :: l in groups && groups[l] == WithLink(ds, l)
  {
    groups := map[];
    order := [];
    var i := 0;
    while i < |ds|
      invariant 0 <= i <= |ds|
      invariant order == LinkOrder(ds[..i])
      invariant forall l | l in order :: l in groups && groups[l] == WithLink(ds[..i], l)
    {
      var d := ds[i];
      assert ds[..i + 1][..i] == ds[..i];
      if Linked(d) {
        var l := d.link.value;
        if l in order {
          groups := groups[l := groups[l] + [d]];
        } else {
          LinkOrderComplete(ds[..i], l);
          groups := groups[l := [d]];
          order := order + [l];
        }
      }
      i := i + 1;
    }
    assert ds[..|ds|] == ds;
  }

  /** `find_duplicates(downloads)` */
  method FindDuplicates(ds: seq<Download>) returns (r: DupResult)
    ensures r == FindDuplicatesSpec(ds)
  {
    var groups, order := GroupByLink(ds);
    var toDelete: seq<Download> := [];
    var count: nat := 0;
    var j := 0;
    while j < |order|
      invariant 0 <= j <= |order|
      invariant Collect(ds, order[..j]) == Found(toDelete, count)
    {
      var g := groups[order[j]];
      CollectStep(ds, order, j);
      if |g| > 1 {
        if GroupFails(g) {
          CollectFailureSticks(ds, order, j + 1);
          return ParseError;
        }
        count := count + |g| - 1;
        var sorted := SortDesc(g);
        toDelete := toDelete + sorted[1..];
      }
      j := j + 1;
    }
    assert order[..|order|] == order;
    r := Found(toDelete, count);
  }

  /** A link is a key exactly when some download carries it and is linked;
      a link not yet a key has an empty group. */
  lemma {:induction false} LinkOrderComplete(ds: seq<Download>, l: string)
    ensures l in LinkOrder(ds) <==> l != [] && WithLink(ds, l) != []
  {
    if ds != [] {
      LinkOrderComplete(ds[..|ds| - 1], l);
    }
  }

  lemma CollectStep(ds: seq<Download>, order: seq<string>, j: nat)
    requires j < |order|
    ensures var g := WithLink(ds, order[j]);
      Collect(ds, order[..j + 1]) ==
        match Collect(ds, order[..j])
        case ParseError => ParseError
        case Found(del, c) =>
          if GroupFails(g) then ParseError
          else Found(del + Losers(g), c + (if |g| > 1 then |g| - 1 else 0))
  {
    assert order[..j + 1][..j] == order[..j];
  }

  lemma {:induction false} CollectFailureSticks(ds: seq<Download>, order: seq<string>, j: nat)
    requires j <= |order| && Collect(ds, order[..j]) == ParseError
    ensures Collect(ds, order) == ParseError
    decreases |order| - j
  {
    if j < |order| {
      assert order[..j + 1][..j] == order[..j];
      CollectFailureSticks(ds, order, j + 1);
    } else {
      assert order[..j] == order;
    }
  }

  // ----- what is selected -----

  lemma {:induction false} WithLinkConcat(a: seq<Download>, b: seq<Download>, l: string)
    ensures WithLink(a + b, l) == WithLink(a, l) + WithLink(b, l)
    decreases |b|
  {
    if b != [] {
      var b' := b[..|b| - 1];
      assert (a + b)[..|a + b| - 1] == a + b';
      WithLinkConcat(a, b', l);
    } else {
      assert a + b == a;
    }
  }

  /** Filtering a list whose members all carry link `m`. */
  lemma {:induction false} WithLinkUniform(s: seq<Download>, m: string, l: string)
    requires forall d | d in s :: d.link == Some(m)
    ensures WithLink(s, l) == if l == m then s else []
  {
    if s != [] {
      var init := s[..|s| - 1];
      var last := s[|s| - 1];
      assert s == init + [last];
      assert forall d | d in init :: d.link == Some(m) by {
        forall d | d in init
          ensures d.link == Some(m)
        {
          assert d in s;
        }
      }
      assert last.link == Some(m);
      WithLinkUniform(init, m, l);
    }
  }

  /** Filtering keeps every copy of a download that carries the link. */
  lemma {:induction false} WithLinkCount(s: seq<Download>, l: string, d: Download)
    requires d.link == Some(l)
    ensures multiset(WithLink(s, l))[d] == multiset(s)[d]
  {
    if s != [] {
      var init := s[..|s| - 1];
      WithLinkCount(init, l, d);
      assert s == init + [s[|s| - 1]];
    }
  }

  /** The sorted group is its head followed by the losers. */
  lemma LosersPlusSurvivor(g: seq<Download>)
    requires g != []
    ensures multiset(Losers(g)) + multiset{SortDesc(g)[0]} == multiset(g)
    ensures forall d | d in Losers(g) :: d in g
  {
    var r := SortDesc(g);
    assert r == [r[0]] + r[1..];
    if |g| == 1 {
      assert r == [g[0]] by { assert r == InsertDesc(g[0], SortDesc(g[..0])); }
    }
    forall d | d in Losers(g)
      ensures d in g
    {
      assert d in multiset(r);
    }
  }

  lemma LosersOfGroup(ds: seq<Download>, m: string)
    ensures forall d | d in Losers(WithLink(ds, m)) :: d.link == Some(m)
  {
    var g := WithLink(ds, m);
    if g != [] {
      LosersPlusSurvivor(g);
    }
  }

  /** The deletions and the count of `order` extend those of its prefix. */
  lemma CollectLast(ds: seq<Download>, order: seq<string>)
    requires order != [] && Collect(ds, order).Found?
    ensures var init := order[..|order| - 1];
      var g := WithLink(ds, order[|order| - 1]);
      Collect(ds, init).Found? &&
      Collect(ds, order).toDelete == Collect(ds, init).toDelete + Losers(g) &&
      Collect(ds, order).count == Collect(ds, init).count + (if |g| > 1 then |g| - 1 else 0)
  {
  }

  /** Every deletion collected over `order` carries a link of `order`, and the
      count is the number of deletions. */
  lemma {:induction false} CollectShape(ds: seq<Download>, order: seq<string>)
    requires Collect(ds, order).Found?
    ensures forall d | d in Collect(ds, order).toDelete :: d.link.Some? && d.link.value in order
    ensures Collect(ds, order).count == |Collect(ds, order).toDelete|
  {
    if order != [] {
      var init := order[..|order| - 1];
      var m := order[|order| - 1];
      CollectLast(ds, order);
      CollectShape(ds, init);
      LosersOfGroup(ds, m);
      var g := WithLink(ds, m);
      if |g| > 1 {
        assert |Losers(g)| == |g| - 1;
      }
      assert forall l | l in init :: l in order;
    }
  }

  /** Appending deletions that all carry link `m`. */
  lemma AppendUniform(del: seq<Download>, lo: seq<Download>, m: string, l: string)
    requires forall d | d in lo :: d.link == Some(m)
    ensures WithLink(del + lo, l) == if l == m then WithLink(del, l) + lo else WithLink(del, l)
  {
    WithLinkConcat(del, lo, l);
    WithLinkUniform(lo, m, l);
  }

  predicate Distinct(order: seq<string>) {
    forall i, j | 0 <= i < j < |order| :: order[i] != order[j]
  }

  lemma DistinctLast(order: seq<string>)
    requires order != [] && Distinct(order)
    ensures Distinct(order[..|order| - 1]) && order[|order| - 1] !in order[..|order| - 1]
  {
  }

  lemma InLast<T>(s: seq<T>, x: T)
    requires s != []
    ensures x in s <==> x in s[..|s| - 1] || x == s[|s| - 1]
  {
    assert s == s[..|s| - 1] + [s[|s| - 1]];
  }

  /** Per link: the deletions collected over `order` that carry link `l`
      are the losers of `l`'s group when `l` is in `order`, none otherwise. */
  lemma {:induction false} CollectPerLink(ds: seq<Download>, order: seq<string>, l: string)
    requires Distinct(order) && Collect(ds, order).Found?
    ensures WithLink(Collect(ds, order).toDelete, l) == (if l in order then Losers(WithLink(ds, l)) else [])
  {
    if order != [] {
      var init := order[..|order| - 1];
      var m := order[|order| - 1];
      DistinctLast(order);
      CollectLast(ds, order);
      CollectPerLink(ds, init, l);
      LosersOfGroup(ds, m);
      AppendUniform(Collect(ds, init).toDelete, Losers(WithLink(ds, m)), m, l);
      InLast(order, l);
    }
  }

  /** Only downloads with a non-empty link are ever selected, and the logged
      count is the number selected. */
  lemma DeletedAreLinked(ds: seq<Download>)
    requires FindDuplicatesSpec(ds).Found?
    ensures forall d | d in FindDuplicatesSpec(ds).toDelete :: Linked(d)
    ensures FindDuplicatesSpec(ds).count == |FindDuplicatesSpec(ds).toDelete|
  {
    CollectShape(ds, LinkOrder(ds));
  }

  /** For every link, the selected downloads with that link are the group
      minus its newest member: a group of `n` contributes `n - 1`, a single
      download none. */
  lemma GroupContribution(ds: seq<Download>, l: string)
    requires FindDuplicatesSpec(ds).Found? && l != []
    ensures var del := WithLink(FindDuplicatesSpec(ds).toDelete, l);
      var g := WithLink(ds, l);
      del == Losers(g) && |del| == (if |g| > 1 then |g| - 1 else 0)
  {
    CollectPerLink(ds, LinkOrder(ds), l);
    LinkOrderComplete(ds, l);
  }

  /** Exactly one download of every link survives: the newest, and of equally
      new ones the first listed; a download without a date counts as the
      oldest possible (the epoch). */
  lemma OneSurvivorPerLink(ds: seq<Download>, l: string)
    requires FindDuplicatesSpec(ds).Found? && l != [] && WithLink(ds, l) != []
    ensures var g := WithLink(ds, l);
      exists j | 0 <= j < |g| ::
        FirstNewest(g, j) &&
        multiset(WithLink(FindDuplicatesSpec(ds).toDelete, l)) + multiset{g[j]} == multiset(g)
  {
    var g := WithLink(ds, l);
    GroupContribution(ds, l);
    LosersPlusSurvivor(g);
    SortDescHead(g);
  }

  /** A download without a date sorts as 1970-01-01: it is deleted whenever
      its link also has a download generated after the epoch. */
  lemma UndatedLosesToDated(ds: seq<Download>, l: string, a: Download, b: Download)
    requires FindDuplicatesSpec(ds).Found? && l != []
    requires a in WithLink(ds, l) && b in WithLink(ds, l)
    requires a.generated.None? && b.generated.Some? && b.generated.value.At? && b.generated.value.instant > 0
    ensures a in FindDuplicatesSpec(ds).toDelete
  {
    var g := WithLink(ds, l);
    var toDelete := FindDuplicatesSpec(ds).toDelete;
    OneSurvivorPerLink(ds, l);
    var j :| 0 <= j < |g| && FirstNewest(g, j) && multiset(WithLink(toDelete, l)) + multiset{g[j]} == multiset(g);
    assert Key(g[j]) >= Key(b) by {
      var k :| 0 <= k < |g| && g[k] == b;
    }
    assert g[j] != a;
    NotTheSurvivor(WithLink(toDelete, l), g, g[j], a);
    WithLinkCount(toDelete, l, a);
  }

  lemma NotTheSurvivor(del: seq<Download>, g: seq<Download>, w: Download, a: Download)
    requires multiset(del) + multiset{w} == multiset(g) && a in g && a != w
    ensures a in del
  {
    assert multiset(g)[a] > 0;
    assert multiset(del)[a] == multiset(g)[a];
  }

  /** Every selected download is one of the input's, with multiplicity. */
  lemma DeletionsAreSubMultiset(ds: seq<Download>)
    requires FindDuplicatesSpec(ds).Found?
    ensures multiset(FindDuplicatesSpec(ds).toDelete) <= multiset(ds)
  {
    var del := FindDuplicatesSpec(ds).toDelete;
    DeletedAreLinked(ds);
    forall d
      ensures multiset(del)[d] <= multiset(ds)[d]
    {
      if d in del {
        var l := d.link.value;
        var g := WithLink(ds, l);
        GroupContribution(ds, l);
        WithLinkCount(del, l, d);
        WithLinkCount(ds, l, d);
        if g != [] {
          LosersPlusSurvivor(g);
        }
      }
    }
  }

  /** The whole call fails exactly when some group of two or more holds a
      date that does not parse; a malformed date of a single download is
      never read. */
  lemma {:induction false} CollectFailsIff(ds: seq<Download>, order: seq<string>)
    ensures Collect(ds, order) == ParseError <==> exists l | l in order :: GroupFails(WithLink(ds, l))
  {
    if order != [] {
      var init := order[..|order| - 1];
      var m := order[|order| - 1];
      CollectFailsIff(ds, init);
      assert forall l | l in order :: l in init || l == m;
      if Collect(ds, init) == ParseError {
        var l :| l in init && GroupFails(WithLink(ds, l));
        assert l in order;
      } else if GroupFails(WithLink(ds, m)) {
        assert m in order;
      }
    }
  }

  lemma FailsIff(ds: seq<Download>)
    ensures FindDuplicatesSpec(ds) == ParseError <==> exists l | l in LinkOrder(ds) :: GroupFails(WithLink(ds, l))
  {
    CollectFailsIff(ds, LinkOrder(ds));
  }
}
