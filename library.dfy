/** The `.strm` library: where `save_link` puts a link, and the duplicate
    check `should_skip_content` it runs first. The output tree is a map from
    file path to file content; directories exist implicitly as path prefixes. */
module Library {
  import opened Opt
  import opened Text
  import opened Paths
  import opened Sanitize
  import opened Extras
  import opened Episodes

  type FileTree = map<string, string>

  /** The pattern matchers of the classifiers, and which paths can be written
      (`open(path, "w")` raising `IOError` is a path that cannot). */
  datatype Env = Env(extras: ExtraPatterns, names: Matchers, writable: string -> bool)

  // ----- the SxxExx tag of an existing file name -----

  predicate IsS(c: char) { c == 'S' || c == 's' }
  predicate IsE(c: char) { c == 'E' || c == 'e' }

  /** The greedy `(\d{1,2})` episode group starting at `j`. */
  function EpisodeDigitsAt(s: string, j: nat, season: nat): (r: Option<(nat, nat)>)
    ensures r.Some? ==> r.value.0 == season && r.value.1 < 100
  {
    if j < |s| && IsDigit(s[j]) then
      if j + 1 < |s| && IsDigit(s[j + 1]) then Some((season, 10 * DigitValue(s[j]) + DigitValue(s[j + 1])))
      else Some((season, DigitValue(s[j])))
    else None
  }

  /** `[Ss](\d{1,2})[Ee](\d{1,2})` matched at position `i`, with the greedy
      season group: two digits when a tag letter follows them, else one. */
  function TagAt(s: string, i: nat): (r: Option<(nat, nat)>)
    ensures r.Some? ==> r.value.0 < 100 && r.value.1 < 100
  {
    if i < |s| && IsS(s[i]) then
      if i + 3 < |s| && IsDigit(s[i + 1]) && IsDigit(s[i + 2]) && IsE(s[i + 3]) then
        EpisodeDigitsAt(s, i + 4, 10 * DigitValue(s[i + 1]) + DigitValue(s[i + 2]))
      else if i + 2 < |s| && IsDigit(s[i + 1]) && IsE(s[i + 2]) then
        EpisodeDigitsAt(s, i + 3, DigitValue(s[i + 1]))
      else None
    else None
  }

  /** `re.search(r'[Ss](\d{1,2})[Ee](\d{1,2})', s)` from position `i` on: the
      leftmost match, as `(int(group(1)), int(group(2)))`. */
  function FindEpisodeTag(s: string, i: nat): (r: Option<(nat, nat)>)
    ensures r.Some? ==> r.value.0 < 100 && r.value.1 < 100
    ensures r.None? ==> forall k | i <= k < |s| :: TagAt(s, k).None?
    decreases |s| - i
  {
    if i >= |s| then None
    else if TagAt(s, i).Some? then TagAt(s, i)
    else FindEpisodeTag(s, i + 1)
  }

  /** A tag found is the tag at the leftmost position from `i` where the
      pattern matches. */
  lemma {:induction false} FindEpisodeTagLeftmost(s: string, i: nat)
    ensures var r := FindEpisodeTag(s, i);
      r.Some? ==> exists k | i <= k < |s| :: TagAt(s, k) == r && forall j | i <= j < k :: TagAt(s, j).None?
    decreases |s| - i
  {
    if i < |s| {
      if TagAt(s, i).Some? {
        assert TagAt(s, i) == FindEpisodeTag(s, i);
      } else {
        FindEpisodeTagLeftmost(s, i + 1);
      }
    }
  }

  /** `f"S{season:02d}E{episode:02d}"` */
  function EpisodePattern(season: nat, episode: nat): string {
    "S" + Pad2(season) + "E" + Pad2(episode)
  }

  // ----- should_skip_content -----

  /** Which walked files count as the same content: `.strm` files whose name
      holds the episode pattern, or every `.strm` file. */
  datatype NameFilter = EpisodeFiles(pattern: string) | AnyStrm

  predicate Accepts(filter: NameFilter, name: string) {
    EndsWith(name, ".strm") && (filter.EpisodeFiles? ==> Contains(name, filter.pattern))
  }

  /** The cross-folder search to run for a target path, if any. */
  datatype Scan = NoScan | ScanUnder(dir: string, filter: NameFilter)

  /** The directory three levels above a TV episode file: the `TV Shows` folder. */
  function TvRoot(p: string): string { Dirname(Dirname(Dirname(p))) }

  /** The directory two levels above a movie file: the `Movies` folder. */
  function MovieRoot(p: string): string { Dirname(Dirname(p)) }

  /** The search for target `p`, given the directory to walk for TV shows and
      for movies. A TV target without an SxxExx tag is not searched. */
  function ScanFor(p: string, tvDir: string, movieDir: string): Scan {
    if Contains(p, "TV Shows") then
      match FindEpisodeTag(Basename(p), 0)
      case Some(tag) => ScanUnder(tvDir, EpisodeFiles(EpisodePattern(tag.0, tag.1)))
      case None => NoScan
    else if Contains(p, "Movies") then ScanUnder(movieDir, AnyStrm)
    else NoScan
  }

  /** The stored file `k`, found by walking `dir`, holds the same link. */
  predicate EquivalentAt(fs: FileTree, dir: string, filter: NameFilter, url: string, k: string) {
    k in fs && Under(dir, k) && Accepts(filter, Basename(k)) && Strip(fs[k]) == Strip(url)
  }

  predicate Found(fs: FileTree, scan: Scan, url: string) {
    scan.ScanUnder? && exists k | k in fs :: EquivalentAt(fs, scan.dir, scan.filter, url, k)
  }

  /** The target already holds the link, modulo surrounding whitespace. */
  predicate ExactMatch(fs: FileTree, p: string, url: string) {
    p in fs && Strip(fs[p]) == Strip(url)
  }

  /** `should_skip_content(p, url)` as written: the walks start at
      `<TvRoot>/TV Shows` and `<MovieRoot>/Movies`, one level below the
      folders that hold the library's shows and films. */
  predicate ShouldSkipContentAsWritten(fs: FileTree, p: string, url: string) {
    ExactMatch(fs, p, url) ||
    Found(fs, ScanFor(p, Join(TvRoot(p), "TV Shows"), Join(MovieRoot(p), "Movies")), url)
  }

  /** The duplicate check as intended: the walks cover the whole `TV Shows`
      and `Movies` folders. */
  predicate SkipContent(fs: FileTree, p: string, url: string) {
    ExactMatch(fs, p, url) || Found(fs, ScanFor(p, TvRoot(p), MovieRoot(p)), url)
  }

  /** `should_skip_content(p, url)` with the walk directories corrected. */
  method ShouldSkipContent(fs: FileTree, p: string, url: string) returns (skip: bool)
    ensures skip == SkipContent(fs, p, url)
  {
    if p in fs && Strip(fs[p]) == Strip(url) {
      return true;
    }
    var scan := ScanFor(p, TvRoot(p), MovieRoot(p));
    if scan.NoScan? {
      return false;
    }
    var unvisited := fs.Keys;
    while unvisited != {}
      invariant unvisited <= fs.Keys
      invariant forall k | k in fs && k !in unvisited :: !EquivalentAt(fs, scan.dir, scan.filter, url, k)
      decreases unvisited
    {
      var k :| k in unvisited;
      if Under(scan.dir, k) && Accepts(scan.filter, Basename(k)) && Strip(fs[k]) == Strip(url) {
        assert EquivalentAt(fs, scan.dir, scan.filter, url, k);
        return true;
      }
      unvisited := unvisited - {k};
    }
    skip := false;
  }

  // ----- save_link -----

  /** What `save_link` returns: the `"skipped_extra"` marker, the path of the
      `.strm` file (written or found equivalent), or `None` after a failed write. */
  datatype SaveResult = SkippedExtra | SavedAt(path: string) | WriteFailed

  /** `sanitize_filename(f)`, suffixed with `_<index>` when an index is given. */
  function BaseName(f: string, index: Option<nat>): string {
    match index
    case Some(i) => SanitizeFilename(f) + "_" + Decimal(i)
    case None => SanitizeFilename(f)
  }

  /** `f"Season {season}"` */
  function SeasonFolder(season: nat): string {
    "Season " + Decimal(season)
  }

  /** `f".S{season:02d}E{episode:02d}.strm"`, the end of an episode's file name. */
  function EpisodeSuffix(season: nat, episode: nat): string {
    ".S" + Pad2(season) + "E" + Pad2(episode) + ".strm"
  }

  /** The path `save_link` builds for episode `e`: the season folder, or the
      `Extras/<Category>` folder of a categorised extra. */
  function TvTarget(outputDir: string, e: Episode, base: string, extrasType: Option<Category>): string {
    var series := SanitizeFilename(e.series);
    var seriesFolder := Join(Join(outputDir, "TV Shows"), series);
    match extrasType
    case Some(c) => Join(Join(Join(seriesFolder, "Extras"), CategoryFolder(c)), series + "_extra_" + base + ".strm")
    case None => Join(Join(seriesFolder, SeasonFolder(e.season)), series + EpisodeSuffix(e.season, e.episode))
  }

  /** The path `save_link` builds for a film with base name `base`. */
  function MovieTarget(outputDir: string, base: string, extrasType: Option<Category>): string {
    var movieFolder := Join(Join(outputDir, "Movies"), base);
    match extrasType
    case Some(c) => Join(Join(Join(movieFolder, "Extras"), CategoryFolder(c)), base + "_extra_" + CategoryName(c) + ".strm")
    case None => Join(movieFolder, base + ".strm")
  }

  /** The `.strm` path for `f`, given the extras category `save_link` computed. */
  function StrmTarget(env: Env, f: string, outputDir: string, index: Option<nat>, extrasType: Option<Category>): string {
    match ParseTvShowFilename(env.names, f)
    case Some(e) => TvTarget(outputDir, e, BaseName(f, index), extrasType)
    case None => MovieTarget(outputDir, BaseName(f, index), extrasType)
  }

  /** The last step of `save_link` at target `p`: keep an equivalent file,
      otherwise write the link. */
  function WriteTarget(writable: string -> bool, fs: FileTree, p: string, url: string): (SaveResult, FileTree) {
    if SkipContent(fs, p, url) then (SavedAt(p), fs)
    else if writable(p) then (SavedAt(p), fs[p := url])
    else (WriteFailed, fs)
  }

  /** `save_link(f, url, output_dir, index)` over the tree `fs`: skipped
      names return the marker; otherwise the link goes to the target path. */
  function SaveLinkSpec(env: Env, fs: FileTree, f: string, url: string, outputDir: string, index: Option<nat>): (SaveResult, FileTree) {
    var extrasType := ClassifyExtraContent(env.extras, f);
    if IsSkipFile(env.extras, f) then (SkippedExtra, fs)
    else WriteTarget(env.writable, fs, StrmTarget(env, f, outputDir, index, extrasType), url)
  }

  method SaveLink(env: Env, fs: FileTree, f: string, url: string, outputDir: string, index: Option<nat>)
    returns (r: SaveResult, fs': FileTree)
    ensures (r, fs') == SaveLinkSpec(env, fs, f, url, outputDir, index)
  {
    var extrasType := ClassifyExtraContent(env.extras, f);
    if IsSkipFile(env.extras, f) {
      return SkippedExtra, fs;
    }
    var p := StrmTarget(env, f, outputDir, index, extrasType);
    var skip := ShouldSkipContent(fs, p, url);
    if skip {
      return SavedAt(p), fs;
    }
    if env.writable(p) {
      return SavedAt(p), fs[p := url];
    }
    r, fs' := WriteFailed, fs;
  }

  /** A sample or categorised extra returns the marker and writes nothing. */
  lemma SkipFilesAreNotSaved(env: Env, fs: FileTree, f: string, url: string, outputDir: string, index: Option<nat>)
    requires IsSkipFile(env.extras, f)
    ensures SaveLinkSpec(env, fs, f, url, outputDir, index) == (SkippedExtra, fs)
  {
  }

  /** The `Extras` layouts are never used: a name with an extras category is a
      skip file, so every name that is not skipped goes to its regular path. */
  lemma ExtrasLayoutUnreachable(env: Env, fs: FileTree, f: string, url: string, outputDir: string, index: Option<nat>)
    requires !IsSkipFile(env.extras, f)
    ensures ClassifyExtraContent(env.extras, f).None?
    ensures SaveLinkSpec(env, fs, f, url, outputDir, index) == WriteTarget(env.writable, fs, StrmTarget(env, f, outputDir, index, None), url)
  {
  }

  /** The last step leaves every other file as it was and changes the target
      only by writing the link to it. An equivalent file takes precedence over
      writing; the write fails only for a target that cannot be written, and
      then nothing changes; after a save, the library holds the link for the
      target. */
  lemma WriteTargetFrame(writable: string -> bool, fs: FileTree, p: string, url: string)
    ensures var (r, fs') := WriteTarget(writable, fs, p, url);
      (forall q | q != p :: (q in fs' <==> q in fs) && (q in fs' ==> fs'[q] == fs[q])) &&
      (p in fs' ==> fs'[p] == url || (p in fs && fs'[p] == fs[p])) &&
      (SkipContent(fs, p, url) ==> r == SavedAt(p) && fs' == fs) &&
      (r == WriteFailed <==> !SkipContent(fs, p, url) && !writable(p)) &&
      (r == WriteFailed ==> fs' == fs) &&
      (r.SavedAt? ==> r.path == p && SkipContent(fs', p, url))
  {
    if !SkipContent(fs, p, url) && writable(p) {
      assert ExactMatch(fs[p := url], p, url);
    }
  }

  /** Saving the same link to the same target twice is the same as saving it once. */
  lemma WriteTargetIdempotent(writable: string -> bool, fs: FileTree, p: string, url: string)
    requires WriteTarget(writable, fs, p, url).0.SavedAt?
    ensures var (r, fs') := WriteTarget(writable, fs, p, url);
      WriteTarget(writable, fs', p, url) == (r, fs')
  {
    if !SkipContent(fs, p, url) {
      assert ExactMatch(fs[p := url], p, url);
    }
  }

  /** Calling `save_link` again with the same arguments changes nothing and
      returns the same path. */
  lemma SaveLinkIdempotent(env: Env, fs: FileTree, f: string, url: string, outputDir: string, index: Option<nat>)
    requires SaveLinkSpec(env, fs, f, url, outputDir, index).0.SavedAt?
    ensures var (r, fs') := SaveLinkSpec(env, fs, f, url, outputDir, index);
      SaveLinkSpec(env, fs', f, url, outputDir, index) == (r, fs')
  {
    var p := StrmTarget(env, f, outputDir, index, ClassifyExtraContent(env.extras, f));
    WriteTargetIdempotent(env.writable, fs, p, url);
  }

  lemma SanitizedIsComponent(s: string)
    requires SanitizeFilename(s) != []
    ensures IsComponent(SanitizeFilename(s))
  {
    SanitizeOnlyAllowed(s);
  }

  lemma {:induction false} SuffixedIsComponent(a: string, b: string)
    requires IsComponent(a) && forall k | 0 <= k < |b| :: b[k] != '/'
    ensures IsComponent(a + b)
  {
    assert forall k | |a| <= k < |a + b| :: (a + b)[k] == b[k - |a|];
  }

  lemma SeasonFolderIsComponent(season: nat)
    ensures IsComponent(SeasonFolder(season))
  {
    SuffixedIsComponent("Season", " " + Decimal(season));
    assert "Season" + (" " + Decimal(season)) == SeasonFolder(season);
  }

  predicate SlashFree(x: string) {
    forall k | 0 <= k < |x| :: x[k] != '/'
  }

  lemma SlashFreeConcat(a: string, b: string)
    requires SlashFree(a) && SlashFree(b)
    ensures SlashFree(a + b)
  {
    assert forall k | |a| <= k < |a + b| :: (a + b)[k] == b[k - |a|];
  }

  lemma DigitsAreSlashFree(x: string)
    requires AllDigits(x)
    ensures SlashFree(x)
  {
    assert forall k | 0 <= k < |x| :: IsDigit(x[k]);
  }

  lemma EpisodeNameIsComponent(s: string, season: nat, episode: nat)
    requires IsComponent(s)
    ensures IsComponent(s + EpisodeSuffix(season, episode))
  {
    DigitsAreSlashFree(Pad2(season));
    DigitsAreSlashFree(Pad2(episode));
    assert SlashFree(".S") && SlashFree("E") && SlashFree(".strm");
    SlashFreeConcat(".S", Pad2(season));
    SlashFreeConcat(".S" + Pad2(season), "E");
    SlashFreeConcat(".S" + Pad2(season) + "E", Pad2(episode));
    SlashFreeConcat(".S" + Pad2(season) + "E" + Pad2(episode), ".strm");
    SuffixedIsComponent(s, EpisodeSuffix(season, episode));
  }

  /** The regular episode path is `<out>/TV Shows/<s>/Season <n>/<s>.S<nn>E<ee>.strm`,
      `<s>` being the sanitized series name and the numbers padded to two digits. */
  lemma TvTargetLayout(outputDir: string, e: Episode, base: string)
    requires IsDirPath(outputDir) && SanitizeFilename(e.series) != []
    ensures var s := SanitizeFilename(e.series);
      TvTarget(outputDir, e, base, None) ==
        outputDir + "/" + "TV Shows" + "/" + s + "/" + SeasonFolder(e.season) + "/" + (s + EpisodeSuffix(e.season, e.episode))
  {
    TvTargetSplit(outputDir, e, base);
  }

  /** The regular episode path, as a concatenation of path components. */
  lemma TvTargetSplit(outputDir: string, e: Episode, base: string)
    requires IsDirPath(outputDir) && SanitizeFilename(e.series) != []
    ensures var s := SanitizeFilename(e.series);
      TvTarget(outputDir, e, base, None) ==
        outputDir + "/" + "TV Shows" + "/" + s + "/" + SeasonFolder(e.season) + "/" + (s + EpisodeSuffix(e.season, e.episode)) &&
      IsComponent(s) && IsComponent(SeasonFolder(e.season)) && IsComponent(s + EpisodeSuffix(e.season, e.episode))
  {
    var s := SanitizeFilename(e.series);
    SanitizedIsComponent(e.series);
    JoinComponent(outputDir, "TV Shows");
    var a1 := outputDir + "/" + "TV Shows";
    JoinComponent(a1, s);
    var a2 := a1 + "/" + s;
    SeasonFolderIsComponent(e.season);
    JoinComponent(a2, SeasonFolder(e.season));
    EpisodeNameIsComponent(s, e.season, e.episode);
    JoinComponent(a2 + "/" + SeasonFolder(e.season), s + EpisodeSuffix(e.season, e.episode));
  }

  /** The regular film path is `<out>/Movies/<b>/<b>.strm`. */
  lemma MovieTargetLayout(outputDir: string, base: string)
    requires IsDirPath(outputDir) && IsComponent(base)
    ensures MovieTarget(outputDir, base, None) == outputDir + "/" + "Movies" + "/" + base + "/" + (base + ".strm")
  {
    JoinComponent(outputDir, "Movies");
    var a1 := outputDir + "/" + "Movies";
    JoinComponent(a1, base);
    SuffixedIsComponent(base, ".strm");
    JoinComponent(a1 + "/" + base, base + ".strm");
  }

  /** The base name of a file, `_<index>` suffix included, is a path component
      whenever its sanitized name is not empty. */
  lemma BaseNameIsComponent(f: string, index: Option<nat>)
    requires SanitizeFilename(f) != []
    ensures IsComponent(BaseName(f, index))
  {
    SanitizedIsComponent(f);
    if index.Some? {
      var d := Decimal(index.value);
      assert forall k | 0 <= k < |"_" + d| :: ("_" + d)[k] != '/' by {
        assert forall k | 1 <= k < |"_" + d| :: ("_" + d)[k] == d[k - 1];
      }
      SuffixedIsComponent(SanitizeFilename(f), "_" + d);
      assert SanitizeFilename(f) + ("_" + d) == BaseName(f, index);
    }
  }

  // ----- the walk directories: what is written, and what is meant -----

  lemma ContainsAt(s: string, sub: string, i: nat)
    requires i + |sub| <= |s| && s[i..i + |sub|] == sub
    ensures Contains(s, sub)
    decreases i
  {
    if i > 0 {
      assert s[1..][i - 1..i - 1 + |sub|] == sub;
      ContainsAt(s[1..], sub, i - 1);
    }
  }

  lemma {:induction false} MissingCharNotContained(s: string, sub: string, c: char)
    requires c in sub && c !in s
    ensures !Contains(s, sub)
    decreases |s|
  {
    if s != [] {
      MissingCharNotContained(s[1..], sub, c);
    }
  }

  lemma ContainsMiddle(a: string, sub: string, t: string)
    ensures Contains(a + sub + t, sub)
  {
    var s := a + sub + t;
    assert s[|a|..|a| + |sub|] == sub;
    ContainsAt(s, sub, |a|);
  }

  /** A target outside `TV Shows` whose path names `Movies` is checked
      against every `.strm` file of the movie directory. */
  lemma MovieScanFor(p: string, tvDir: string, movieDir: string)
    requires !Contains(p, "TV Shows") && Contains(p, "Movies")
    ensures ScanFor(p, tvDir, movieDir) == ScanUnder(movieDir, AnyStrm)
  {
  }

  /** A stored `.strm` file under the movie root of a film target that holds
      the link makes the intended check skip the target. */
  lemma SkipMovieFound(fs: FileTree, p: string, url: string, k: string)
    requires !Contains(p, "TV Shows") && Contains(p, "Movies")
    requires EquivalentAt(fs, MovieRoot(p), AnyStrm, url, k)
    ensures SkipContent(fs, p, url)
  {
    MovieScanFor(p, TvRoot(p), MovieRoot(p));
  }

  lemma DirnameOfJoin(a: string, b: string)
    requires IsDirPath(a) && IsComponent(b)
    ensures Dirname(a + "/" + b) == a
  {
    JoinSplit(a, b);
  }

  /** The movie root of a regular film path is `<out>/Movies`. */
  lemma MovieTargetRoot(outputDir: string, base: string)
    requires IsDirPath(outputDir) && IsComponent(base)
    ensures MovieRoot(MovieTarget(outputDir, base, None)) == outputDir + "/" + "Movies"
  {
    var a1 := Join(outputDir, "Movies");
    JoinSplit(outputDir, "Movies");
    var a2 := Join(a1, base);
    JoinSplit(a1, base);
    SuffixedIsComponent(base, ".strm");
    JoinSplit(a2, base + ".strm");
  }

  lemma UnderPrefix(dir: string, t: string)
    requires IsDirPath(dir) && t != []
    ensures Under(dir, dir + "/" + t)
  {
    assert (dir + "/" + t)[..|dir| + 1] == dir + "/";
  }

  lemma NotUnderAt(dir: string, p: string, i: nat)
    requires IsDirPath(dir) && i < |dir| && i < |p| && p[i] != dir[i]
    ensures !Under(dir, p)
  {
  }

  lemma MovieTargetBasename(outputDir: string, base: string)
    requires IsDirPath(outputDir) && IsComponent(base)
    ensures Basename(MovieTarget(outputDir, base, None)) == base + ".strm"
  {
    var a1 := Join(outputDir, "Movies");
    JoinSplit(outputDir, "Movies");
    var a2 := Join(a1, base);
    JoinSplit(a1, base);
    SuffixedIsComponent(base, ".strm");
    JoinSplit(a2, base + ".strm");
  }

  /** A regular film path lies under `<out>/Movies`, and not under
      `<out>/Movies/Movies` unless its folder begins with `M`. */
  lemma MovieTargetUnder(outputDir: string, base: string)
    requires IsDirPath(outputDir) && IsComponent(base)
    ensures Under(outputDir + "/" + "Movies", MovieTarget(outputDir, base, None))
    ensures base[0] != 'M' ==> !Under(outputDir + "/" + "Movies" + "/" + "Movies", MovieTarget(outputDir, base, None))
  {
    MovieTargetLayout(outputDir, base);
    var m := outputDir + "/" + "Movies";
    var rest := base + "/" + (base + ".strm");
    assert MovieTarget(outputDir, base, None) == m + "/" + rest;
    UnderPrefix(m, rest);
    if base[0] != 'M' {
      assert (m + "/" + rest)[|m| + 1] == base[0];
      assert (m + "/" + "Movies")[|m| + 1] == 'M';
      NotUnderAt(m + "/" + "Movies", m + "/" + rest, |m| + 1);
    }
  }

  lemma MovieTargetNamesMovies(outputDir: string, base: string)
    requires IsDirPath(outputDir) && IsComponent(base)
    ensures Contains(MovieTarget(outputDir, base, None), "Movies")
  {
    MovieTargetLayout(outputDir, base);
    var t := "/" + base + "/" + (base + ".strm");
    assert outputDir + "/" + "Movies" + "/" + base + "/" + (base + ".strm") == (outputDir + "/") + "Movies" + t;
    ContainsMiddle(outputDir + "/", "Movies", t);
  }

  /** The intended check sees every film: a `.strm` file anywhere under
      `<out>/Movies` that holds the link makes `save_link` keep the tree as it is. */
  lemma MovieScanCoversLibrary(fs: FileTree, outputDir: string, base: string, k: string, url: string)
    requires IsDirPath(outputDir) && IsComponent(base)
    requires !Contains(MovieTarget(outputDir, base, None), "TV Shows")
    requires k in fs && Under(outputDir + "/" + "Movies", k) && EndsWith(Basename(k), ".strm") && Strip(fs[k]) == Strip(url)
    ensures SkipContent(fs, MovieTarget(outputDir, base, None), url)
  {
    MovieTargetRoot(outputDir, base);
    MovieTargetNamesMovies(outputDir, base);
    SkipMovieFound(fs, MovieTarget(outputDir, base, None), url, k);
  }

  // ----- the TV walk -----

  lemma EpisodeDigitsPrefix(a: string, b: string, j: nat, season: nat)
    requires j <= |a| && b != [] && b[0] == '.'
    ensures EpisodeDigitsAt(a + b, j, season) == EpisodeDigitsAt(a, j, season)
  {
    assert forall k | 0 <= k < |a| :: (a + b)[k] == a[k];
  }

  /** A tag cannot run into a `.`: at a position before it, `a + b` has the
      tag `a` has. */
  lemma TagAtPrefix(a: string, b: string, i: nat)
    requires i < |a| && b != [] && b[0] == '.'
    ensures TagAt(a + b, i) == TagAt(a, i)
  {
    var s := a + b;
    assert forall k | 0 <= k < |a| :: s[k] == a[k];
    assert s[|a|] == '.';
    if i + 3 < |s| && IsS(s[i]) && IsDigit(s[i + 1]) && IsDigit(s[i + 2]) && IsE(s[i + 3]) {
      assert i + 3 < |a|;
      EpisodeDigitsPrefix(a, b, i + 4, 10 * DigitValue(s[i + 1]) + DigitValue(s[i + 2]));
    } else if i + 2 < |s| && IsS(s[i]) && IsDigit(s[i + 1]) && IsE(s[i + 2]) {
      assert i + 2 < |a|;
      EpisodeDigitsPrefix(a, b, i + 3, DigitValue(s[i + 1]));
    }
  }

  lemma TagAtShift(a: string, b: string, j: nat)
    ensures TagAt(a + b, |a| + j) == TagAt(b, j)
  {
    assert forall k | 0 <= k < |b| :: (a + b)[|a| + k] == b[k];
  }

  lemma FindStep(s: string, i: nat)
    requires i < |s|
    ensures FindEpisodeTag(s, i) == if TagAt(s, i).Some? then TagAt(s, i) else FindEpisodeTag(s, i + 1)
  {
  }

  /** One step of the search in `a + b` past `a` is one step in `b`. */
  lemma FindShiftStep(a: string, b: string, j: nat)
    requires j < |b|
    ensures FindEpisodeTag(a + b, |a| + j) ==
      if TagAt(b, j).Some? then TagAt(b, j) else FindEpisodeTag(a + b, |a| + (j + 1))
  {
    TagAtShift(a, b, j);
    FindStep(a + b, |a| + j);
  }

  lemma FindShiftEnd(a: string, b: string)
    ensures FindEpisodeTag(a + b, |a| + |b|) == FindEpisodeTag(b, |b|) == None
  {
    assert |a + b| == |a| + |b|;
  }

  lemma {:induction false} FindShift(a: string, b: string, j: nat)
    requires j <= |b|
    ensures FindEpisodeTag(a + b, |a| + j) == FindEpisodeTag(b, j)
    decreases |b| - j
  {
    if j < |b| {
      FindShiftStep(a, b, j);
      FindStep(b, j);
      FindShift(a, b, j + 1);
    } else {
      FindShiftEnd(a, b);
    }
  }

  /** With no tag in `a`, the first tag of `a + b` is the first tag of `b`
      when `b` begins with `.`. */
  lemma {:induction false} FindPast(a: string, b: string, i: nat)
    requires i <= |a| && b != [] && b[0] == '.'
    requires forall k | i <= k < |a| :: TagAt(a, k).None?
    ensures FindEpisodeTag(a + b, i) == FindEpisodeTag(b, 0)
    decreases |a| - i
  {
    if i < |a| {
      TagAtPrefix(a, b, i);
      FindPast(a, b, i + 1);
    } else {
      FindShift(a, b, 0);
    }
  }

  lemma TwoDigitValue(x: string)
    requires |x| == 2 && AllDigits(x)
    ensures DecimalValue(x) == 10 * DigitValue(x[0]) + DigitValue(x[1])
  {
    var x1 := x[..1];
    assert x1[..0] == [] && x1[0] == x[0];
    assert DecimalValue(x1) == DigitValue(x[0]);
    assert x[..|x| - 1] == x1;
  }

  /** The tag of `.S<nn>E<ee>.strm` is `(n, e)`. */
  lemma SuffixTag(season: nat, episode: nat)
    requires season < 100 && episode < 100
    ensures FindEpisodeTag(EpisodeSuffix(season, episode), 0) == Some((season, episode))
  {
    var p1 := Pad2(season);
    var p2 := Pad2(episode);
    Pad2RoundTrip(season);
    Pad2RoundTrip(episode);
    TwoDigitValue(p1);
    TwoDigitValue(p2);
    var t := EpisodeSuffix(season, episode);
    assert |t| == 12;
    assert t[0] == '.' && t[1] == 'S' && t[2] == p1[0] && t[3] == p1[1] && t[4] == 'E' && t[5] == p2[0] && t[6] == p2[1];
    assert TagAt(t, 0).None?;
    assert TagAt(t, 1) == Some((season, episode));
  }

  /** For a series name free of SxxExx tags, the tag read from an episode's
      regular file name is its own season and episode. */
  lemma TvTargetTag(outputDir: string, e: Episode, base: string)
    requires IsDirPath(outputDir) && SanitizeFilename(e.series) != []
    requires FindEpisodeTag(SanitizeFilename(e.series), 0).None? && e.season < 100 && e.episode < 100
    ensures FindEpisodeTag(Basename(TvTarget(outputDir, e, base, None)), 0) == Some((e.season, e.episode))
  {
    var s := SanitizeFilename(e.series);
    TvTargetSplit(outputDir, e, base);
    EpisodePathSplit(outputDir, s, SeasonFolder(e.season), s + EpisodeSuffix(e.season, e.episode));
    FindPast(s, EpisodeSuffix(e.season, e.episode), 0);
    SuffixTag(e.season, e.episode);
  }

  /** An episode's regular file name ends in `.strm` and holds the pattern
      `S<nn>E<ee>` the walk looks for. */
  lemma EpisodeNameAccepted(s: string, season: nat, episode: nat)
    requires season < 100 && episode < 100
    ensures Accepts(EpisodeFiles(EpisodePattern(season, episode)), s + EpisodeSuffix(season, episode))
  {
    var p1 := Pad2(season);
    var p2 := Pad2(episode);
    Pad2RoundTrip(season);
    Pad2RoundTrip(episode);
    var name := s + EpisodeSuffix(season, episode);
    var pat := EpisodePattern(season, episode);
    assert |name| == |s| + 12 && |pat| == 6;
    assert name[|name| - 5..] == ".strm";
    assert name[|s| + 1..|s| + 7] == pat;
    ContainsAt(name, pat, |s| + 1);
  }

  lemma PrefixOfAppend(x: string, y: string, z: string)
    requires x <= y
    ensures x <= y + z
  {
    assert forall k | 0 <= k < |x| :: (y + z)[k] == y[k];
  }

  /** A path `<out>/TV Shows/<s>/<f>/<n>` begins with `<out>/TV Shows/<s>`. */
  lemma EpisodePathPrefix(outputDir: string, s: string, f: string, n: string)
    ensures var a := outputDir + "/" + "TV Shows" + "/" + s;
      a <= a + "/" + f + "/" + n
  {
    var a := outputDir + "/" + "TV Shows" + "/" + s;
    PrefixOfAppend(a, a, "/");
    PrefixOfAppend(a, a + "/", f);
    PrefixOfAppend(a, a + "/" + f, "/");
    PrefixOfAppend(a, a + "/" + f + "/", n);
  }

  /** The folders above an episode path. */
  lemma EpisodePathSplit(outputDir: string, s: string, f: string, n: string)
    requires IsDirPath(outputDir) && IsComponent(s) && IsComponent(f) && IsComponent(n)
    ensures var a1 := outputDir + "/" + "TV Shows";
      var p := a1 + "/" + s + "/" + f + "/" + n;
      TvRoot(p) == a1 && Basename(p) == n
  {
    var a1 := outputDir + "/" + "TV Shows";
    JoinSplit(outputDir, "TV Shows");
    JoinSplit(a1, s);
    var a2 := a1 + "/" + s;
    JoinSplit(a2, f);
    JoinSplit(a2 + "/" + f, n);
  }

  /** Where an episode path lies. */
  lemma EpisodePathUnder(outputDir: string, s: string, f: string, n: string)
    requires IsDirPath(outputDir) && IsComponent(s)
    ensures var a1 := outputDir + "/" + "TV Shows";
      var p := a1 + "/" + s + "/" + f + "/" + n;
      Contains(p, "TV Shows") && Under(a1, p) &&
      (s[0] != 'T' ==> !Under(a1 + "/" + "TV Shows", p))
  {
    var a1 := outputDir + "/" + "TV Shows";
    var a2 := a1 + "/" + s;
    var p := a2 + "/" + f + "/" + n;
    EpisodePathPrefix(outputDir, s, f, n);
    assert p[..|a2|] == a2;
    assert p[..|a1| + 1] == a1 + "/" by {
      assert a2[..|a1| + 1] == a1 + "/";
    }
    assert p[|outputDir| + 1..|outputDir| + 9] == "TV Shows" by {
      assert a2[|outputDir| + 1..|outputDir| + 9] == "TV Shows";
    }
    ContainsAt(p, "TV Shows", |outputDir| + 1);
    if s[0] != 'T' {
      assert p[|a1| + 1] == s[0] by {
        assert a2[|a1| + 1] == s[0];
      }
      assert (a1 + "/" + "TV Shows")[|a1| + 1] == 'T';
      NotUnderAt(a1 + "/" + "TV Shows", p, |a1| + 1);
    }
  }

  /** An episode's regular path lies under `<out>/TV Shows`, its `TV Shows`
      folder, and names it; it is not under `<out>/TV Shows/TV Shows` unless
      its series folder begins with `T`. */
  lemma TvTargetUnder(outputDir: string, e: Episode, base: string)
    requires IsDirPath(outputDir) && SanitizeFilename(e.series) != []
    ensures var p := TvTarget(outputDir, e, base, None);
      var a1 := outputDir + "/" + "TV Shows";
      TvRoot(p) == a1 && Contains(p, "TV Shows") && Under(a1, p) &&
      (SanitizeFilename(e.series)[0] != 'T' ==> !Under(a1 + "/" + "TV Shows", p))
  {
    var s := SanitizeFilename(e.series);
    TvTargetSplit(outputDir, e, base);
    EpisodePathSplit(outputDir, s, SeasonFolder(e.season), s + EpisodeSuffix(e.season, e.episode));
    EpisodePathUnder(outputDir, s, SeasonFolder(e.season), s + EpisodeSuffix(e.season, e.episode));
  }

  lemma TvTargetsDiffer(outputDir: string, a: Episode, b: Episode, base: string)
    requires IsDirPath(outputDir) && SanitizeFilename(a.series) != [] && SanitizeFilename(b.series) != []
    requires SanitizeFilename(a.series) != SanitizeFilename(b.series)
    ensures TvTarget(outputDir, a, base, None) != TvTarget(outputDir, b, base, None)
  {
    TvTargetSplit(outputDir, a, base);
    TvTargetSplit(outputDir, b, base);
    var sa := SanitizeFilename(a.series);
    var sb := SanitizeFilename(b.series);
    var a1 := outputDir + "/" + "TV Shows";
    var pa := TvTarget(outputDir, a, base, None);
    var pb := TvTarget(outputDir, b, base, None);
    JoinSplit(a1, sa);
    JoinSplit(a1, sb);
    JoinSplit(a1 + "/" + sa, SeasonFolder(a.season));
    JoinSplit(a1 + "/" + sb, SeasonFolder(b.season));
    JoinSplit(a1 + "/" + sa + "/" + SeasonFolder(a.season), sa + EpisodeSuffix(a.season, a.episode));
    JoinSplit(a1 + "/" + sb + "/" + SeasonFolder(b.season), sb + EpisodeSuffix(b.season, b.episode));
    assert Basename(Dirname(Dirname(pa))) == sa;
    assert Basename(Dirname(Dirname(pb))) == sb;
  }

  /** The intended check sees every show: a `.strm` file anywhere under
      `<out>/TV Shows` whose name holds the episode's `S<nn>E<ee>` and that
      holds the link makes `save_link` keep the tree as it is. */
  lemma TvScanCoversLibrary(fs: FileTree, outputDir: string, e: Episode, base: string, k: string, url: string)
    requires IsDirPath(outputDir) && SanitizeFilename(e.series) != []
    requires FindEpisodeTag(SanitizeFilename(e.series), 0).None? && e.season < 100 && e.episode < 100
    requires k in fs && Under(outputDir + "/" + "TV Shows", k) && Strip(fs[k]) == Strip(url)
    requires Accepts(EpisodeFiles(EpisodePattern(e.season, e.episode)), Basename(k))
    ensures SkipContent(fs, TvTarget(outputDir, e, base, None), url)
  {
    var p := TvTarget(outputDir, e, base, None);
    TvTargetUnder(outputDir, e, base);
    TvTargetTag(outputDir, e, base);
    assert ScanFor(p, TvRoot(p), MovieRoot(p)) == ScanUnder(TvRoot(p), EpisodeFiles(EpisodePattern(e.season, e.episode)));
    assert EquivalentAt(fs, TvRoot(p), EpisodeFiles(EpisodePattern(e.season, e.episode)), url, k);
  }

  /** The check as written misses a TV target unless the link sits at the
      target itself or somewhere under `<TvRoot>/TV Shows`. */
  lemma AsWrittenTvMiss(fs: FileTree, p: string, url: string, root: string)
    requires Contains(p, "TV Shows") && p !in fs
    requires IsDirPath(root) && TvRoot(p) == root
    requires forall k | k in fs :: !Under(root + "/" + "TV Shows", k)
    ensures !ShouldSkipContentAsWritten(fs, p, url)
  {
    var dir := Join(TvRoot(p), "TV Shows");
    TvShowsIsComponent();
    JoinComponent(root, "TV Shows");
    var scan := ScanFor(p, dir, Join(MovieRoot(p), "Movies"));
    assert !ExactMatch(fs, p, url);
    TvScanDir(p, dir, Join(MovieRoot(p), "Movies"));
    NotFoundOutside(fs, scan, url);
  }

  lemma TvShowsIsComponent()
    ensures IsComponent("TV Shows")
  {
  }

  lemma TvScanDir(p: string, tvDir: string, movieDir: string)
    requires Contains(p, "TV Shows")
    ensures ScanFor(p, tvDir, movieDir).NoScan? || ScanFor(p, tvDir, movieDir).dir == tvDir
  {
  }

  lemma NotFoundOutside(fs: FileTree, scan: Scan, url: string)
    requires scan.ScanUnder? ==> forall k | k in fs :: !Under(scan.dir, k)
    ensures !Found(fs, scan, url)
  {
  }

  /** Two shows holding the same episode with the same link: with the walk as
      written, saving the second one writes a duplicate, because
      `<out>/TV Shows/TV Shows` is searched instead of `<out>/TV Shows`; the
      intended check finds the first show's episode. (The second series name
      must hold no SxxExx tag of its own, which would be read first; a folder
      that begins with `T` could itself be named `TV Shows`.) */
  lemma TvScanMissesSiblings(outputDir: string, a: Episode, b: Episode, base: string, url: string)
    requires IsDirPath(outputDir) && SanitizeFilename(a.series) != [] && SanitizeFilename(b.series) != []
    requires SanitizeFilename(a.series) != SanitizeFilename(b.series) && SanitizeFilename(a.series)[0] != 'T'
    requires a.season == b.season < 100 && a.episode == b.episode < 100
    requires FindEpisodeTag(SanitizeFilename(b.series), 0).None?
    ensures var fs := map[TvTarget(outputDir, a, base, None) := url];
      var p := TvTarget(outputDir, b, base, None);
      !ShouldSkipContentAsWritten(fs, p, url) && SkipContent(fs, p, url)
  {
    var k := TvTarget(outputDir, a, base, None);
    var p := TvTarget(outputDir, b, base, None);
    var fs := map[k := url];
    var root := outputDir + "/" + "TV Shows";
    assert Under(root, k) && !Under(root + "/" + "TV Shows", k) by {
      TvTargetUnder(outputDir, a, base);
    }
    assert Accepts(EpisodeFiles(EpisodePattern(b.season, b.episode)), Basename(k)) by {
      var sa := SanitizeFilename(a.series);
      TvTargetSplit(outputDir, a, base);
      EpisodePathSplit(outputDir, sa, SeasonFolder(a.season), sa + EpisodeSuffix(a.season, a.episode));
      EpisodeNameAccepted(SanitizeFilename(a.series), a.season, a.episode);
    }
    TvScanCoversLibrary(fs, outputDir, b, base, k, url);
    assert p !in fs by {
      TvTargetsDiffer(outputDir, a, b, base);
    }
    TvTargetUnder(outputDir, b, base);
    AsWrittenTvMiss(fs, p, url, root);
  }

  /** Two films sharing a link: with the walk as written, saving the second
      one writes a duplicate, because `<out>/Movies/Movies` is searched instead
      of `<out>/Movies`; the intended check finds the first film. (A folder
      that begins with `M` could itself be named `Movies`.) */
  lemma MovieScanMissesSiblings(outputDir: string, a: string, b: string, url: string)
    requires IsDirPath(outputDir) && IsComponent(a) && IsComponent(b) && a != b && a[0] != 'M'
    requires !Contains(MovieTarget(outputDir, b, None), "TV Shows")
    ensures var fs := map[MovieTarget(outputDir, a, None) := url];
      var p := MovieTarget(outputDir, b, None);
      !ShouldSkipContentAsWritten(fs, p, url) && SkipContent(fs, p, url)
  {
    var k := MovieTarget(outputDir, a, None);
    var fs := map[k := url];
    MovieTargetUnder(outputDir, a);
    MovieTargetBasename(outputDir, a);
    MovieScanCoversLibrary(fs, outputDir, b, k, url);
    SiblingMissedAsWritten(outputDir, a, b, url);
  }

  lemma SiblingMissedAsWritten(outputDir: string, a: string, b: string, url: string)
    requires IsDirPath(outputDir) && IsComponent(a) && IsComponent(b) && a != b && a[0] != 'M'
    requires !Contains(MovieTarget(outputDir, b, None), "TV Shows")
    ensures !ShouldSkipContentAsWritten(map[MovieTarget(outputDir, a, None) := url], MovieTarget(outputDir, b, None), url)
  {
    var k := MovieTarget(outputDir, a, None);
    var p := MovieTarget(outputDir, b, None);
    var root := outputDir + "/" + "Movies";
    var fs := map[k := url];
    assert p !in fs by {
      MovieTargetInjective(outputDir, a, b);
    }
    assert forall k' | k' in fs :: !Under(root + "/" + "Movies", k') by {
      MovieTargetUnder(outputDir, a);
    }
    assert MovieRoot(p) == root by {
      MovieTargetRoot(outputDir, b);
    }
    assert Contains(p, "Movies") by {
      MovieTargetNamesMovies(outputDir, b);
    }
    AsWrittenMovieMiss(fs, p, url, root);
  }

  lemma MovieTargetInjective(outputDir: string, a: string, b: string)
    requires IsDirPath(outputDir) && IsComponent(a) && IsComponent(b) && a != b
    ensures MovieTarget(outputDir, a, None) != MovieTarget(outputDir, b, None)
  {
    MovieTargetBasename(outputDir, a);
    MovieTargetBasename(outputDir, b);
    assert (a + ".strm")[..|a|] == a && (b + ".strm")[..|b|] == b;
  }

  /** The check as written misses a film target unless the link sits at the
      target itself or somewhere under `<MovieRoot>/Movies`. */
  lemma AsWrittenMovieMiss(fs: FileTree, p: string, url: string, root: string)
    requires !Contains(p, "TV Shows") && Contains(p, "Movies") && p !in fs
    requires IsDirPath(root) && MovieRoot(p) == root
    requires forall k | k in fs :: !Under(root + "/" + "Movies", k)
    ensures !ShouldSkipContentAsWritten(fs, p, url)
  {
    JoinComponent(root, "Movies");
    MovieScanFor(p, Join(TvRoot(p), "TV Shows"), Join(root, "Movies"));
  }
}
