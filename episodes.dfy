/** `parse_tv_show_filename`: an ordered, first-match-wins cascade of patterns
    that recognises a TV episode in a file name and yields its series name,
    season and episode. The patterns are abstract matchers that report their
    capture groups; the series-name cleanup applied to the captures is modelled
    exactly. */
module Episodes {
  import opened Opt
  import opened Text

  datatype Episode = Episode(series: string, season: nat, episode: nat)

  /** A match with a name prefix and two numeric groups. */
  datatype Match3 = Match3(prefix: string, first: DigitString, second: DigitString)

  /** A match with a name prefix and one numeric group. */
  datatype Match2 = Match2(prefix: string, number: DigitString)

  /** A match of the bare `[Ss](\d{1,2})[\s]*[Ee](\d{1,2})` pattern. */
  datatype Tag = Tag(season: DigitString, episode: DigitString)

  /** The `other_tv_patterns` that capture a season and an episode, in order:
      `1x01`, `Season 1 Episode 01`, ` - S01E01 - ` and `S01.E01`. */
  datatype SeasonFormat = Alternative | SpelledOut | DashedTag | SpacedTag

  /** The two Japanese-style `other_tv_patterns`, which capture an episode only:
      `] Show - 01v2 (` and `Show - 01 [..]`. */
  datatype AnimeFormat = AnimeBracketed | AnimeNumbered

  const SeasonFormats: seq<SeasonFormat> := [Alternative, SpelledOut, DashedTag, SpacedTag]
  const AnimeFormats: seq<AnimeFormat> := [AnimeBracketed, AnimeNumbered]

  /** The regular expressions of the parser, as `re.search` results. */
  datatype Matchers = Matchers(
    namedTag: string -> Option<Match3>,          // (.*?)[.\s][Ss](\d{1,2})[Ee](\d{1,2})
    bareTag: string -> Option<Tag>,              // [Ss](\d{1,2})[\s]*[Ee](\d{1,2})
    beforeS: string -> Option<string>,           // (.*?)[.\s][Ss], group 1
    beforeTag: string -> Option<string>,         // ^(.*?)[Ss]\d{1,2}[Ee]\d{1,2}, group 1
    movieMarker: string -> bool,                 // any of `movie_markers`
    tvMarker: string -> bool,                    // any of `tv_markers`
    seasonFormat: (SeasonFormat, string) -> Option<Match3>,
    animeFormat: (AnimeFormat, string) -> Option<Match2>,
    absoluteNumber: string -> Option<Match2>,    // (.*?)(?:\s-\s|\s)(\d{2,4})(?:\s|$|\[|\(|\.|_)
    sourceMarker: string -> bool,                // bluray|brrip|dvdrip|webrip|web-dl
    threeDigit: string -> Option<Match3>,        // ^(.*?)(?:[.\s]|^|-\s)(\d)(\d{2})(?:\s-\s|\s|\.)
    dashedNumber: string -> Option<Match2>)      // ^(.*?)\s-\s(\d{1,2})\s-\s

  // ----- series-name cleanup -----

  /** `s.replace('.', ' ')` */
  function ReplaceDots(s: string): string {
    seq(|s|, k requires 0 <= k < |s| => if s[k] == '.' then ' ' else s[k])
  }

  /** The class `[.\s-]` of trailing separators. */
  predicate IsSeparator(c: char) {
    c == '.' || c == '-' || IsSpace(c)
  }

  /** `re.sub(r'[.\s-]+$', '', s)`: the longest prefix not ending in a separator. */
  function TrimTrailingSeps(s: string): (r: string)
    ensures |r| <= |s| && r == s[..|r|]
    ensures r == [] || !IsSeparator(r[|r| - 1])
    ensures forall k | |r| <= k < |s| :: IsSeparator(s[k])
  {
    if s != [] && IsSeparator(s[|s| - 1]) then TrimTrailingSeps(s[..|s| - 1]) else s
  }

  /** No `open` in `s` is followed, anywhere later, by a `close`. */
  predicate NoPair(s: string, open: char, close: char) {
    forall i | 0 <= i < |s| && s[i] == open :: close !in s[i + 1..]
  }

  function IndexOf(s: string, c: char): (k: nat)
    requires c in s
    ensures k < |s| && s[k] == c && c !in s[..k]
  {
    if s[0] == c then 0 else 1 + IndexOf(s[1..], c)
  }

  /** `re.sub(r'\(' + '[^)]*' + r'\)', '', s)` and its bracket twin: scanning left
      to right, an `open` with a `close` somewhere after it is deleted together
      with everything up to and including the first such `close`. */
  function RemoveEnclosed(s: string, open: char, close: char): (r: string)
    ensures forall c | c in r :: c in s
    ensures NoPair(r, open, close)
    decreases |s|
  {
    if s == [] then []
    else if s[0] == open && close in s[1..] then
      RemoveEnclosed(s[IndexOf(s[1..], close) + 2..], open, close)
    else
      var rest := RemoveEnclosed(s[1..], open, close);
      assert forall i | 1 <= i < |rest| + 1 :: ([s[0]] + rest)[i + 1..] == rest[i..];
      [s[0]] + rest
  }

  lemma {:induction false} NoPairSlice(s: string, i: nat, j: nat, open: char, close: char)
    requires i <= j <= |s| && NoPair(s, open, close)
    ensures NoPair(s[i..j], open, close)
  {
    var t := s[i..j];
    forall a | 0 <= a < |t| && t[a] == open
      ensures close !in t[a + 1..]
    {
      assert s[i + a] == open;
    }
  }

  lemma {:induction false} RemoveEnclosedKeepsNoPair(s: string, open: char, close: char, o: char, c: char)
    requires NoPair(s, o, c)
    ensures NoPair(RemoveEnclosed(s, open, close), o, c)
    decreases |s|
  {
    if s != [] {
      if s[0] == open && close in s[1..] {
        var k := IndexOf(s[1..], close) + 2;
        NoPairSlice(s, k, |s|, o, c);
        RemoveEnclosedKeepsNoPair(s[k..], open, close, o, c);
      } else {
        NoPairSlice(s, 1, |s|, o, c);
        RemoveEnclosedKeepsNoPair(s[1..], open, close, o, c);
        var rest := RemoveEnclosed(s[1..], open, close);
        var r := [s[0]] + rest;
        assert forall i | 1 <= i < |r| :: r[i + 1..] == rest[i..];
        if s[0] == o {
          assert s[1..] == s[0 + 1..];
          assert c !in rest;
        }
      }
    }
  }

  lemma StripKeepsNoPair(s: string, open: char, close: char)
    requires NoPair(s, open, close)
    ensures NoPair(Strip(s), open, close)
  {
    StripIsSlice(s);
    NoPairSlice(s, |RStrip(s)| - |Strip(s)|, |RStrip(s)|, open, close);
  }

  /** The parenthesis and bracket removal every branch applies last. */
  function Cleanup(s: string): string {
    Strip(RemoveEnclosed(Strip(RemoveEnclosed(s, '(', ')')), '[', ']'))
  }

  /** A cleaned name has no whitespace at either end and no `(...)` or `[...]`
      left in it. */
  lemma CleanupIsClean(s: string)
    ensures var r := Cleanup(s);
      Trimmed(r) && NoPair(r, '(', ')') && NoPair(r, '[', ']')
  {
    var a := RemoveEnclosed(s, '(', ')');
    StripKeepsNoPair(a, '(', ')');
    var b := RemoveEnclosed(Strip(a), '[', ']');
    RemoveEnclosedKeepsNoPair(Strip(a), '[', ']', '(', ')');
    StripKeepsNoPair(b, '(', ')');
    StripKeepsNoPair(b, '[', ']');
    StripTrimmed(b);
  }

  /** The cleanup of the branches that trim separators: trailing separators,
      then parentheses, then brackets. */
  function FinishSeries(s: string): string {
    Cleanup(TrimTrailingSeps(s))
  }

  /** A finished name has no whitespace at either end and holds no `(...)`
      or `[...]`. */
  lemma FinishSeriesIsClean(s: string)
    ensures var r := FinishSeries(s);
      Trimmed(r) && NoPair(r, '(', ')') && NoPair(r, '[', ']')
  {
    CleanupIsClean(TrimTrailingSeps(s));
  }

  // ----- the cascade -----

  /** The SxxExx family, which wins over every other consideration. */
  function TagStage(m: Matchers, f: string): (r: Option<Episode>)
    ensures r.Some? <==> m.namedTag(f).Some? || m.bareTag(f).Some?
  {
    match m.namedTag(f)
    case Some(g) =>
      Some(Episode(FinishSeries(Strip(ReplaceDots(g.prefix))), DecimalValue(g.first), DecimalValue(g.second)))
    case None =>
      match m.bareTag(f)
      case Some(t) =>
        var series :=
          match m.beforeS(f)
          case Some(p) => Strip(ReplaceDots(p))
          case None =>
            match m.beforeTag(f)
            case Some(p) => Strip(p)
            case None => "Unknown Series";
        Some(Episode(FinishSeries(series), DecimalValue(t.season), DecimalValue(t.episode)))
      case None => None
  }

  /** A film: a movie marker and no TV marker. */
  predicate MovieVeto(m: Matchers, f: string) {
    m.movieMarker(f) && !m.tvMarker(f)
  }

  function SeasonFormatStage(m: Matchers, f: string, formats: seq<SeasonFormat>): (r: Option<Episode>)
  {
    if formats == [] then None
    else match m.seasonFormat(formats[0], f)
      case Some(g) =>
        Some(Episode(FinishSeries(TrimTrailingSeps(Strip(ReplaceDots(g.prefix)))), DecimalValue(g.first), DecimalValue(g.second)))
      case None => SeasonFormatStage(m, f, formats[1..])
  }

  /** The Japanese-style formats number episodes only, and are season 1. */
  function AnimeFormatStage(m: Matchers, f: string, formats: seq<AnimeFormat>): (r: Option<Episode>)
    ensures r.Some? ==> r.value.season == 1
  {
    if formats == [] then None
    else match m.animeFormat(formats[0], f)
      case Some(g) =>
        Some(Episode(FinishSeries(TrimTrailingSeps(Strip(ReplaceDots(g.prefix)))), 1, DecimalValue(g.number)))
      case None => AnimeFormatStage(m, f, formats[1..])
  }

  /** `re.search(r'(?:19|20)\d{2}', n)` on a string of two to four digits. */
  predicate LooksLikeYear(n: DigitString) {
    exists i | 0 <= i <= |n| - 4 :: CenturyAt(n, i)
  }

  predicate CenturyAt(n: string, i: nat)
    requires i + 2 <= |n|
  {
    n[i..i + 2] == "19" || n[i..i + 2] == "20"
  }

  /** `One Piece - 1073`: an absolute episode number of season 1, unless the
      number reads as a year or the name carries a source tag. */
  function AbsoluteNumberStage(m: Matchers, f: string): (r: Option<Episode>)
    ensures r.Some? ==> r.value.season == 1
    ensures r.Some? ==> m.absoluteNumber(f).Some? && !LooksLikeYear(m.absoluteNumber(f).value.number) && !m.sourceMarker(f)
  {
    match m.absoluteNumber(f)
    case Some(g) =>
      if !LooksLikeYear(g.number) && !m.sourceMarker(f) then
        Some(Episode(Cleanup(Strip(g.prefix)), 1, DecimalValue(g.number)))
      else None
    case None => None
  }

  /** `Show.101.`: season digit and two episode digits, accepted only for a
      season of 1 to 9, an episode of 1 to 99 and a name of two characters. */
  function ThreeDigitStage(m: Matchers, f: string): (r: Option<Episode>)
    ensures r.Some? ==> 0 < r.value.season < 10 && 0 < r.value.episode < 100
    ensures var g := m.threeDigit(f);
      r.Some? <==>
        g.Some? && |Strip(g.value.prefix)| > 0 &&
        0 < DecimalValue(g.value.first) < 10 && 0 < DecimalValue(g.value.second) < 100 &&
        |TrimTrailingSeps(Strip(ReplaceDots(g.value.prefix)))| >= 2
    ensures r.Some? ==>
      r.value.season == DecimalValue(m.threeDigit(f).value.first) &&
      r.value.episode == DecimalValue(m.threeDigit(f).value.second)
  {
    match m.threeDigit(f)
    case Some(g) =>
      if |Strip(g.prefix)| > 0 then
        var series := TrimTrailingSeps(Strip(ReplaceDots(g.prefix)));
        var season := DecimalValue(g.first);
        var episode := DecimalValue(g.second);
        if 0 < season < 10 && 0 < episode < 100 && |series| >= 2 then
          Some(Episode(FinishSeries(series), season, episode))
        else None
      else None
    case None => None
  }

  /** `Series Name - 01 - Title`, season 1. */
  function DashedNumberStage(m: Matchers, f: string): (r: Option<Episode>)
    ensures r.Some? ==> r.value.season == 1
  {
    if Contains(f, " - ") then
      match m.dashedNumber(f)
      case Some(g) => Some(Episode(FinishSeries(TrimTrailingSeps(Strip(g.prefix))), 1, DecimalValue(g.number)))
      case None => None
    else None
  }

  /** `parse_tv_show_filename(f)` */
  function ParseTvShowFilename(m: Matchers, f: string): Option<Episode> {
    var tag := TagStage(m, f);
    if tag.Some? then tag
    else if MovieVeto(m, f) then None
    else
      var season := SeasonFormatStage(m, f, SeasonFormats);
      if season.Some? then season
      else
        var anime := AnimeFormatStage(m, f, AnimeFormats);
        if anime.Some? then anime
        else
          var absolute := AbsoluteNumberStage(m, f);
          if absolute.Some? then absolute
          else
            var three := ThreeDigitStage(m, f);
            if three.Some? then three
            else DashedNumberStage(m, f)
  }

  /** An SxxExx tag makes the name an episode, whatever movie markers it also
      carries, with the season and episode the tag spells. */
  lemma TagWins(m: Matchers, f: string)
    requires m.namedTag(f).Some? || m.bareTag(f).Some?
    ensures ParseTvShowFilename(m, f) == TagStage(m, f)
    ensures var e := ParseTvShowFilename(m, f).value;
      match m.namedTag(f)
      case Some(g) => e.season == DecimalValue(g.first) && e.episode == DecimalValue(g.second)
      case None => e.season == DecimalValue(m.bareTag(f).value.season) && e.episode == DecimalValue(m.bareTag(f).value.episode)
  {
  }

  /** Without an SxxExx tag, a movie marker unaccompanied by any TV marker
      makes the name a film whatever the later patterns say: two sets of
      matchers that agree on the tag and marker patterns parse a vetoed name
      alike (as a film), and so they do a tagged one. */
  lemma MovieMarkerVetoes(m: Matchers, m': Matchers, f: string)
    requires m.namedTag(f) == m'.namedTag(f) && m.bareTag(f) == m'.bareTag(f)
    requires m.beforeS(f) == m'.beforeS(f) && m.beforeTag(f) == m'.beforeTag(f)
    requires m.movieMarker(f) == m'.movieMarker(f) && m.tvMarker(f) == m'.tvMarker(f)
    ensures TagStage(m, f).None? && MovieVeto(m, f) ==> ParseTvShowFilename(m, f).None?
    ensures TagStage(m, f).Some? || MovieVeto(m, f) ==> ParseTvShowFilename(m, f) == ParseTvShowFilename(m', f)
  {
  }

  predicate CleanSeries(e: Option<Episode>) {
    e.Some? ==> Trimmed(e.value.series) && NoPair(e.value.series, '(', ')') && NoPair(e.value.series, '[', ']')
  }

  lemma TagStageClean(m: Matchers, f: string)
    ensures CleanSeries(TagStage(m, f))
  {
    match m.namedTag(f)
    case Some(g) => FinishSeriesIsClean(Strip(ReplaceDots(g.prefix)));
    case None =>
      if m.bareTag(f).Some? {
        var series :=
          match m.beforeS(f)
          case Some(p) => Strip(ReplaceDots(p))
          case None =>
            match m.beforeTag(f)
            case Some(p) => Strip(p)
            case None => "Unknown Series";
        FinishSeriesIsClean(series);
      }
  }

  lemma {:induction false} SeasonStageClean(m: Matchers, f: string, formats: seq<SeasonFormat>)
    ensures CleanSeries(SeasonFormatStage(m, f, formats))
    decreases |formats|
  {
    if formats != [] {
      match m.seasonFormat(formats[0], f)
      case Some(g) =>
        FinishSeriesIsClean(TrimTrailingSeps(Strip(ReplaceDots(g.prefix))));
      case None =>
        SeasonStageClean(m, f, formats[1..]);
    }
  }

  lemma {:induction false} AnimeStageClean(m: Matchers, f: string, formats: seq<AnimeFormat>)
    ensures CleanSeries(AnimeFormatStage(m, f, formats))
    decreases |formats|
  {
    if formats != [] {
      match m.animeFormat(formats[0], f)
      case Some(g) =>
        FinishSeriesIsClean(TrimTrailingSeps(Strip(ReplaceDots(g.prefix))));
      case None =>
        AnimeStageClean(m, f, formats[1..]);
    }
  }

  lemma AbsoluteStageClean(m: Matchers, f: string)
    ensures CleanSeries(AbsoluteNumberStage(m, f))
  {
    if m.absoluteNumber(f).Some? {
      CleanupIsClean(Strip(m.absoluteNumber(f).value.prefix));
    }
  }

  lemma ThreeDigitStageClean(m: Matchers, f: string)
    ensures CleanSeries(ThreeDigitStage(m, f))
  {
    if ThreeDigitStage(m, f).Some? {
      var g := m.threeDigit(f).value;
      var series := TrimTrailingSeps(Strip(ReplaceDots(g.prefix)));
      FinishSeriesIsClean(series);
      assert ThreeDigitStage(m, f).value.series == FinishSeries(series);
    }
  }

  lemma DashedStageClean(m: Matchers, f: string)
    ensures CleanSeries(DashedNumberStage(m, f))
  {
    if m.dashedNumber(f).Some? {
      FinishSeriesIsClean(TrimTrailingSeps(Strip(m.dashedNumber(f).value.prefix)));
    }
  }

  /** Every series name the parser returns has no whitespace at either end and
      no `(...)` or `[...]` in it. */
  lemma ParsedSeriesIsClean(m: Matchers, f: string)
    ensures CleanSeries(ParseTvShowFilename(m, f))
  {
    TagStageClean(m, f);
    SeasonStageClean(m, f, SeasonFormats);
    AnimeStageClean(m, f, AnimeFormats);
    AbsoluteStageClean(m, f);
    ThreeDigitStageClean(m, f);
    DashedStageClean(m, f);
  }
}
