/** `process_single_torrent`: the reconciliation of one torrent with the
    `.strm` library. Each link of the torrent is served from a reusable
    download, a cached unrestricted link, or a fresh `unrestrict_link` call,
    and saved with `save_link`. The client is the `Remote` oracle, the library
    a file map, and the calls and cache writes made are returned in order. */
module Reconcile {
  import opened Opt
  import opened Freshness
  import opened Records
  import opened Sanitize
  import opened Extras
  import opened Library
  import opened LinkIndex

  // ----- the cache record -----

  /** One unrestricted link of a cached list, with its optional keys; a
      missing `streamable` reads as 0. */
  datatype CachedLink = CachedLink(download: Option<string>, filename: Option<string>, streamable: Option<int>, cachedDate: Option<Stamp>)

  /** What `get_from_cache` returned: nothing (no cache, no file, or a file
      that does not load), a JSON object with `size` keys, or a JSON list whose
      falsy entries are `None`. */
  datatype CacheRecord = NoRecord | DictRecord(size: nat) | ListRecord(items: seq<Option<CachedLink>>)

  /** How the per-link cache test reads the record. */
  datatype Reading = AsWritten | Corrected

  /** The per-link cache test: no entry, an exception, or a cached link. */
  datatype Lookup = Miss | Raises | Hit(entry: CachedLink)

  /** `cached_data and idx < len(cached_data) and cached_data[idx]`. As
      written, a record that is an object raises `KeyError` for every index
      below its size, since its keys are strings; read as intended, such a
      record holds no per-link entries. */
  function CacheLookup(reading: Reading, cache: CacheRecord, idx: nat): (r: Lookup)
    ensures r.Raises? <==> reading == AsWritten && cache.DictRecord? && idx < cache.size
    ensures r.Hit? <==> cache.ListRecord? && idx < |cache.items| && cache.items[idx].Some?
    ensures r.Hit? ==> r.entry == cache.items[idx].value
  {
    match cache
    case NoRecord => Miss
    case DictRecord(size) => if reading == AsWritten && idx < size then Raises else Miss
    case ListRecord(items) => if idx < |items| && items[idx].Some? then Hit(items[idx].value) else Miss
  }

  /** The records `save_to_cache` is given: after a fresh link is saved, the
      object `{links: [result], saved_files: [path], skipped_extras: 0,
      cached_date}`; at the end, the object `{links, saved_files,
      skipped_extras, cached_date}`. The date is the clock and left out. */
  datatype CacheWrite = LinkWrite(result: Unrestricted, path: string) | SummaryWrite(links: seq<string>, saved: seq<SaveResult>)

  /** Every record written is an object with four keys, and loads back as one. */
  function Loaded(w: CacheWrite): CacheRecord {
    DictRecord(4)
  }

  // ----- one reconciliation -----

  /** The result: `[]`, the reinsertion marker, or the saved-files summary. */
  datatype Outcome = Empty | NeedsReinsertion | Saved(paths: seq<SaveResult>, skipped: nat)

  /** The fixed inputs: the environment of `save_link`, the client, the
      output folder, the torrent, the downloads list in dictionary order,
      whether a cache folder is configured, and the clock reading. */
  datatype Ctx = Ctx(env: Env, remote: Remote, outputDir: string, t: Torrent, downloads: seq<Download>, cacheEnabled: bool, now: int) {
    /** `link_to_download` */
    function Index(): Index {
      IndexSpec(downloads)
    }
  }

  /** What the loop accumulates: the library, `saved_files`,
      `skipped_extras_count`, the client calls and cache writes made, and how
      many unrestrict calls were made. */
  datatype State = State(fs: FileTree, saved: seq<SaveResult>, skipped: nat, calls: seq<Call>, writes: seq<CacheWrite>, unrestricts: nat)

  /** The end of one link: go on with the next, or return the reinsertion marker. */
  datatype Step = Next(s: State) | Reinsert(s: State)

  function Delete(s: State, id: string): State {
    s.(calls := s.calls + [DeleteDownload(id)])
  }

  function CallUnrestrict(s: State, link: string): State {
    s.(calls := s.calls + [UnrestrictLink(link)], unrestricts := s.unrestricts + 1)
  }

  /** `result and 'download' in result and result.get('streamable') == 1` */
  predicate Usable(r: Unrestricted) {
    r.Link? && r.download.Some? && r.streamable == Some(1)
  }

  /** `result.get('filename', torrent.get('filename', torrent['id']))` */
  function FreshName(r: Unrestricted, t: Torrent): string
    requires r.Link?
  {
    r.filename.GetOr(t.filename.GetOr(t.id))
  }

  /** Saving a reused download or a cached link: every truthy result of
      `save_link`, the skip marker included, is listed; a failed write is
      counted when the name is an extra. */
  function Keep(env: Env, s: State, fs': FileTree, res: SaveResult, name: string): State {
    if res != WriteFailed then s.(fs := fs', saved := s.saved + [res])
    else if ClassifyExtraContent(env.extras, name).Some? then s.(fs := fs', skipped := s.skipped + 1)
    else s.(fs := fs')
  }

  /** Saving a freshly unrestricted link: the skip marker is counted, a path
      is listed and cached, a failed write changes nothing else. */
  function SaveFresh(ctx: Ctx, s: State, idx: nat, r: Unrestricted): (SaveResult, State)
    requires Usable(r)
  {
    var (res, fs') := SaveLinkSpec(ctx.env, s.fs, FreshName(r, ctx.t), r.download.value, ctx.outputDir, Some(idx));
    var s1 := s.(fs := fs');
    match res
    case SkippedExtra => (res, s1.(skipped := s.skipped + 1))
    case SavedAt(p) => (res, s1.(saved := s.saved + [res], writes := s.writes + (if ctx.cacheEnabled then [LinkWrite(r, p)] else [])))
    case WriteFailed => (res, s1)
  }

  /** The second `unrestrict_link` call, made when the first answer was not
      usable. Every way out that does not save a path deletes the download
      named by the torrent's id; an expired answer deletes it twice. */
  function SecondCall(ctx: Ctx, s: State, idx: nat, link: string): Step {
    var r := ctx.remote.unrestrict(link, s.unrestricts);
    var s1 := CallUnrestrict(s, link);
    if r == HosterUnavailable then Reinsert(s1)
    else if Usable(r) then
      if CheckIfLinkExpired(r.generated, None, ctx.now) then Next(Delete(Delete(s1, ctx.t.id), ctx.t.id))
      else
        var (res, s2) := SaveFresh(ctx, s1, idx, r);
        if res.SavedAt? then Next(s2) else Next(Delete(s2, ctx.t.id))
    else Next(Delete(s1, ctx.t.id))
  }

  /** The first `unrestrict_link` call and what follows it. */
  function UnrestrictPath(ctx: Ctx, s: State, idx: nat, link: string): Step {
    var r := ctx.remote.unrestrict(link, s.unrestricts);
    var s1 := CallUnrestrict(s, link);
    if r == HosterUnavailable then Reinsert(s1)
    else if Usable(r) then Next(SaveFresh(ctx, s1, idx, r).1)
    else SecondCall(ctx, s1, idx, link)
  }

  /** A cached link that has not expired. A missing `download` or `filename`
      raises `KeyError`, and a `streamable` of 0 reaches `os.path.exists(None)`,
      which raises `TypeError`; each exception is counted. */
  function CachedStep(ctx: Ctx, s: State, idx: nat, c: CachedLink): Step {
    if c.download.None? || c.filename.None? || c.streamable.GetOr(0) == 0 then Next(s.(skipped := s.skipped + 1))
    else
      var name := SanitizeFilename(c.filename.value);
      var (res, fs') := SaveLinkSpec(ctx.env, s.fs, name, c.download.value, ctx.outputDir, Some(idx));
      Next(Keep(ctx.env, s, fs', res, name))
  }

  /** The `try` block: the cache test, then the unrestrict calls. */
  function TryBlock(ctx: Ctx, s: State, idx: nat, link: string, hit: Lookup): Step {
    match hit
    case Raises => Next(s.(skipped := s.skipped + 1))
    case Hit(c) =>
      if !CheckIfLinkExpired(None, c.cachedDate, ctx.now) then CachedStep(ctx, s, idx, c)
      else UnrestrictPath(ctx, s, idx, link)
    case Miss => UnrestrictPath(ctx, s, idx, link)
  }

  /** An indexed download for `link` with both `download` and `generated`. */
  predicate Reusable(ctx: Ctx, link: string) {
    link in ctx.Index() && ctx.Index()[link].download.Some? && ctx.Index()[link].generated.Some?
  }

  /** One turn of the loop over the torrent's links, at position `idx`. */
  function LinkStep(ctx: Ctx, s: State, idx: nat, hit: Lookup): Step
    requires idx < |ctx.t.links|
  {
    var link := ctx.t.links[idx];
    if Reusable(ctx, link) then
      var d := ctx.Index()[link];
      if CheckIfLinkExpired(d.generated, None, ctx.now) then TryBlock(ctx, Delete(s, d.id), idx, link, hit)
      else
        var name := SanitizeFilename(d.filename);
        var (res, fs') := SaveLinkSpec(ctx.env, s.fs, name, d.download.value, ctx.outputDir, Some(idx));
        Next(Keep(ctx.env, s, fs', res, name))
    else TryBlock(ctx, s, idx, link, hit)
  }

  /** `[link for link in torrent['links'] if link in link_to_download]` */
  function KnownLinks(links: seq<string>, index: Index): (r: seq<string>)
    ensures forall l | l in r :: l in links && l in index
    ensures forall l | l in links && l in index :: l in r
  {
    if links == [] then []
    else (if links[0] in index then [links[0]] else []) + KnownLinks(links[1..], index)
  }

  /** After the loop: any counted item means reinsertion; otherwise the
      summary is cached when something was saved, and returned. */
  function Finish(ctx: Ctx, s: State): (Outcome, State) {
    if s.skipped > 0 then (NeedsReinsertion, s)
    else
      var w := if ctx.cacheEnabled && s.saved != [] then [SummaryWrite(KnownLinks(ctx.t.links, ctx.Index()), s.saved)] else [];
      (Saved(s.saved, s.skipped), s.(writes := s.writes + w))
  }

  /** The loop from position `idx` on. */
  function Run(ctx: Ctx, reading: Reading, cache: CacheRecord, s: State, idx: nat): (Outcome, State)
    decreases |ctx.t.links| - idx
  {
    if idx >= |ctx.t.links| then Finish(ctx, s)
    else
      match LinkStep(ctx, s, idx, CacheLookup(reading, cache, idx))
      case Reinsert(s') => (NeedsReinsertion, s')
      case Next(s') => Run(ctx, reading, cache, s', idx + 1)
  }

  function Initial(fs: FileTree): State {
    State(fs, [], 0, [], [], 0)
  }

  /** `process_single_torrent` on library `fs` with cache record `cache`. */
  function ReconcileSpec(ctx: Ctx, reading: Reading, cache: CacheRecord, fs: FileTree): (Outcome, State) {
    if ctx.t.status != Some("downloaded") || ctx.t.links == [] then (Empty, Initial(fs))
    else Run(ctx, reading, cache, Initial(fs), 0)
  }

  /** The per-link loop of `process_single_torrent` from state `s0`: it stops
      at the first link that needs reinsertion, or ends after the last link. */
  method LinkLoop(ctx: Ctx, cache: CacheRecord, s0: State) returns (stopped: bool, s: State)
    ensures Run(ctx, Corrected, cache, s0, 0) == if stopped then (NeedsReinsertion, s) else Finish(ctx, s)
  {
    s := s0;
    var idx := 0;
    while idx < |ctx.t.links|
      invariant 0 <= idx <= |ctx.t.links|
      invariant Run(ctx, Corrected, cache, s, idx) == Run(ctx, Corrected, cache, s0, 0)
      decreases |ctx.t.links| - idx
    {
      var step := LinkStep(ctx, s, idx, CacheLookup(Corrected, cache, idx));
      RunUnfold(ctx, Corrected, cache, s, idx);
      if step.Reinsert? {
        return true, step.s;
      }
      s := step.s;
      idx := idx + 1;
    }
    stopped := false;
  }

  /** `process_single_torrent`, with the cache record read as intended. */
  method ProcessSingleTorrent(ctx: Ctx, cache: CacheRecord, fs: FileTree)
    returns (outcome: Outcome, fs': FileTree, calls: seq<Call>, writes: seq<CacheWrite>)
    ensures var (o, s) := ReconcileSpec(ctx, Corrected, cache, fs);
      outcome == o && fs' == s.fs && calls == s.calls && writes == s.writes
  {
    if ctx.t.status != Some("downloaded") || ctx.t.links == [] {
      return Empty, fs, [], [];
    }
    var index := BuildLinkIndex(ctx.downloads);
    assert index == ctx.Index();
    var stopped, s := LinkLoop(ctx, cache, Initial(fs));
    if stopped || s.skipped > 0 {
      return NeedsReinsertion, s.fs, s.calls, s.writes;
    }
    writes := s.writes;
    if ctx.cacheEnabled && s.saved != [] {
      writes := writes + [SummaryWrite(KnownLinks(ctx.t.links, index), s.saved)];
    }
    outcome, fs', calls := Saved(s.saved, s.skipped), s.fs, s.calls;
  }

  // ----- what a reconciliation does -----

  /** A torrent that is not downloaded, or has no links, is left alone: no
      call, no write, no cache record. */
  lemma NotReadyIsEmpty(ctx: Ctx, reading: Reading, cache: CacheRecord, fs: FileTree)
    requires ctx.t.status != Some("downloaded") || ctx.t.links == []
    ensures var (o, s) := ReconcileSpec(ctx, reading, cache, fs);
      o == Empty && s.calls == [] && s.fs == fs && s.writes == []
  {
  }

  /** The calls a reconciliation may make: unrestrict one of the torrent's
      links, delete the download named by the torrent's id, or delete the
      indexed download of one of its links. */
  predicate Allowed(ctx: Ctx, c: Call) {
    match c
    case UnrestrictLink(l) => l in ctx.t.links
    case DeleteDownload(id) => id == ctx.t.id || exists l | l in ctx.t.links && l in ctx.Index() :: ctx.Index()[l].id == id
    case _ => false
  }

  /** What holds of the accumulated state after every link. */
  predicate Inv(ctx: Ctx, s: State) {
    (forall c | c in s.calls :: Allowed(ctx, c)) &&
    (forall e | e in s.saved :: e != WriteFailed) &&
    (!ctx.cacheEnabled ==> s.writes == []) &&
    (forall w | w in s.writes && w.LinkWrite? :: SavedAt(w.path) in s.saved)
  }

  /** A failed write is never an extra: extras return the skip marker first. */
  lemma SaveFailureIsNoExtra(env: Env, fs: FileTree, f: string, url: string, outputDir: string, index: Option<nat>)
    requires SaveLinkSpec(env, fs, f, url, outputDir, index).0 == WriteFailed
    ensures ClassifyExtraContent(env.extras, f).None?
  {
  }

  /** The state only grows: calls, listed files, counts and writes are
      extended, never rewritten. */
  predicate Extends(s: State, s': State) {
    s.calls <= s'.calls && s.saved <= s'.saved && s.skipped <= s'.skipped && s.writes <= s'.writes
  }

  lemma SaveFreshKeepsInv(ctx: Ctx, s: State, idx: nat, r: Unrestricted)
    requires Usable(r) && Inv(ctx, s)
    ensures Inv(ctx, SaveFresh(ctx, s, idx, r).1) && Extends(s, SaveFresh(ctx, s, idx, r).1)
    ensures SaveFresh(ctx, s, idx, r).1.calls == s.calls
  {
  }

  lemma KeepKeepsInv(ctx: Ctx, s: State, fs': FileTree, res: SaveResult, name: string)
    requires Inv(ctx, s)
    ensures Inv(ctx, Keep(ctx.env, s, fs', res, name)) && Extends(s, Keep(ctx.env, s, fs', res, name))
    ensures Keep(ctx.env, s, fs', res, name).calls == s.calls
  {
  }

  lemma DeleteOwnKeepsInv(ctx: Ctx, s: State)
    requires Inv(ctx, s)
    ensures Inv(ctx, Delete(s, ctx.t.id)) && Extends(s, Delete(s, ctx.t.id))
  {
    assert Allowed(ctx, DeleteDownload(ctx.t.id));
  }

  lemma SecondCallKeepsInv(ctx: Ctx, s: State, idx: nat, link: string)
    requires link in ctx.t.links && Inv(ctx, s)
    ensures Inv(ctx, SecondCall(ctx, s, idx, link).s) && Extends(s, SecondCall(ctx, s, idx, link).s)
  {
    var r := ctx.remote.unrestrict(link, s.unrestricts);
    var s1 := CallUnrestrict(s, link);
    assert Inv(ctx, s1) && Extends(s, s1);
    if r == HosterUnavailable {
    } else if Usable(r) {
      if CheckIfLinkExpired(r.generated, None, ctx.now) {
        DeleteOwnKeepsInv(ctx, s1);
        DeleteOwnKeepsInv(ctx, Delete(s1, ctx.t.id));
      } else {
        SaveFreshKeepsInv(ctx, s1, idx, r);
        DeleteOwnKeepsInv(ctx, SaveFresh(ctx, s1, idx, r).1);
      }
    } else {
      DeleteOwnKeepsInv(ctx, s1);
    }
  }

  lemma UnrestrictPathKeepsInv(ctx: Ctx, s: State, idx: nat, link: string)
    requires link in ctx.t.links && Inv(ctx, s)
    ensures Inv(ctx, UnrestrictPath(ctx, s, idx, link).s) && Extends(s, UnrestrictPath(ctx, s, idx, link).s)
  {
    var r := ctx.remote.unrestrict(link, s.unrestricts);
    var s1 := CallUnrestrict(s, link);
    assert Inv(ctx, s1);
    if r != HosterUnavailable {
      if Usable(r) {
        SaveFreshKeepsInv(ctx, s1, idx, r);
      } else {
        SecondCallKeepsInv(ctx, s1, idx, link);
      }
    }
  }

  lemma TryBlockKeepsInv(ctx: Ctx, s: State, idx: nat, link: string, hit: Lookup)
    requires link in ctx.t.links && Inv(ctx, s)
    ensures Inv(ctx, TryBlock(ctx, s, idx, link, hit).s) && Extends(s, TryBlock(ctx, s, idx, link, hit).s)
  {
    UnrestrictPathKeepsInv(ctx, s, idx, link);
    if hit.Hit? {
      var c := hit.entry;
      if !(c.download.None? || c.filename.None? || c.streamable.GetOr(0) == 0) {
        var name := SanitizeFilename(c.filename.value);
        var (res, fs') := SaveLinkSpec(ctx.env, s.fs, name, c.download.value, ctx.outputDir, Some(idx));
        KeepKeepsInv(ctx, s, fs', res, name);
      }
    }
  }

  lemma LinkStepKeepsInv(ctx: Ctx, s: State, idx: nat, hit: Lookup)
    requires idx < |ctx.t.links| && Inv(ctx, s)
    ensures Inv(ctx, LinkStep(ctx, s, idx, hit).s) && Extends(s, LinkStep(ctx, s, idx, hit).s)
  {
    var link := ctx.t.links[idx];
    if Reusable(ctx, link) {
      var d := ctx.Index()[link];
      assert Allowed(ctx, DeleteDownload(d.id));
      TryBlockKeepsInv(ctx, Delete(s, d.id), idx, link, hit);
      var name := SanitizeFilename(d.filename);
      var (res, fs') := SaveLinkSpec(ctx.env, s.fs, name, d.download.value, ctx.outputDir, Some(idx));
      KeepKeepsInv(ctx, s, fs', res, name);
    } else {
      TryBlockKeepsInv(ctx, s, idx, link, hit);
    }
  }

  /** The whole loop keeps the invariant, and a summary is returned only
      for a run that counted nothing. */
  lemma {:induction false} RunKeepsInv(ctx: Ctx, reading: Reading, cache: CacheRecord, s: State, idx: nat)
    requires Inv(ctx, s)
    ensures var (o, s') := Run(ctx, reading, cache, s, idx);
      Inv(ctx, s') && s.calls <= s'.calls &&
      (o.Saved? ==> o.paths == s'.saved && o.skipped == 0) &&
      o != Empty
    decreases |ctx.t.links| - idx
  {
    if idx >= |ctx.t.links| {
      FinishKeepsInv(ctx, s);
    } else {
      var hit := CacheLookup(reading, cache, idx);
      var step := LinkStep(ctx, s, idx, hit);
      RunUnfold(ctx, reading, cache, s, idx);
      LinkStepKeepsInv(ctx, s, idx, hit);
      if step.Next? {
        RunKeepsInv(ctx, reading, cache, step.s, idx + 1);
      }
    }
  }

  lemma FinishKeepsInv(ctx: Ctx, s: State)
    requires Inv(ctx, s)
    ensures var (o, s') := Finish(ctx, s);
      Inv(ctx, s') && s'.calls == s.calls &&
      (o.Saved? ==> o.paths == s'.saved && o.skipped == 0) &&
      o != Empty
  {
  }

  /** One step of the loop. */
  lemma RunUnfold(ctx: Ctx, reading: Reading, cache: CacheRecord, s: State, idx: nat)
    requires idx < |ctx.t.links|
    ensures var step := LinkStep(ctx, s, idx, CacheLookup(reading, cache, idx));
      Run(ctx, reading, cache, s, idx) ==
        if step.Reinsert? then (NeedsReinsertion, step.s) else Run(ctx, reading, cache, step.s, idx + 1)
  {
  }

  /** What every reconciliation of a downloaded torrent guarantees: it makes
      only allowed calls, caches only when a cache folder is set, never lists
      a failed write, and returns the summary only when nothing was counted,
      listing exactly the files saved. */
  lemma ReconcileGuarantees(ctx: Ctx, reading: Reading, cache: CacheRecord, fs: FileTree)
    ensures var (o, s) := ReconcileSpec(ctx, reading, cache, fs);
      (forall c | c in s.calls :: Allowed(ctx, c)) &&
      (!ctx.cacheEnabled ==> s.writes == []) &&
      (o.Saved? ==> o.skipped == 0 && o.paths == s.saved && forall e | e in o.paths :: e != WriteFailed) &&
      (o == Empty <==> ctx.t.status != Some("downloaded") || ctx.t.links == [])
  {
    if ctx.t.status == Some("downloaded") && ctx.t.links != [] {
      RunKeepsInv(ctx, reading, cache, Initial(fs), 0);
    }
  }

  /** Once anything is counted, the torrent is marked for reinsertion,
      whatever the remaining links do. */
  lemma {:induction false} CountedMeansReinsertion(ctx: Ctx, reading: Reading, cache: CacheRecord, s: State, idx: nat)
    requires s.skipped > 0
    ensures Run(ctx, reading, cache, s, idx).0 == NeedsReinsertion
    decreases |ctx.t.links| - idx
  {
    if idx < |ctx.t.links| {
      var hit := CacheLookup(reading, cache, idx);
      SkippedNeverDecreases(ctx, s, idx, hit);
      if LinkStep(ctx, s, idx, hit).Next? {
        CountedMeansReinsertion(ctx, reading, cache, LinkStep(ctx, s, idx, hit).s, idx + 1);
      }
    }
  }

  lemma SkippedNeverDecreases(ctx: Ctx, s: State, idx: nat, hit: Lookup)
    requires idx < |ctx.t.links|
    ensures LinkStep(ctx, s, idx, hit).s.skipped >= s.skipped
  {
    var link := ctx.t.links[idx];
    TrySkippedGrows(ctx, s, idx, link, hit);
    if Reusable(ctx, link) {
      TrySkippedGrows(ctx, Delete(s, ctx.Index()[link].id), idx, link, hit);
    }
  }

  lemma TrySkippedGrows(ctx: Ctx, s: State, idx: nat, link: string, hit: Lookup)
    ensures TryBlock(ctx, s, idx, link, hit).s.skipped >= s.skipped
  {
  }

  /** An unexpired reusable download is saved with `save_link`, under its
      sanitized name and at its own URL, without any client call; the result
      is listed unless the write failed, and nothing is counted. */
  lemma ReuseMakesNoCall(ctx: Ctx, s: State, idx: nat, hit: Lookup)
    requires idx < |ctx.t.links| && Reusable(ctx, ctx.t.links[idx])
    requires !CheckIfLinkExpired(ctx.Index()[ctx.t.links[idx]].generated, None, ctx.now)
    ensures LinkStep(ctx, s, idx, hit).Next?
    ensures LinkStep(ctx, s, idx, hit).s.calls == s.calls
    ensures LinkStep(ctx, s, idx, hit).s.unrestricts == s.unrestricts
    ensures LinkStep(ctx, s, idx, hit).s.skipped == s.skipped
    ensures LinkStep(ctx, s, idx, hit).s.writes == s.writes
    ensures var d := ctx.Index()[ctx.t.links[idx]];
      var (res, fs') := SaveLinkSpec(ctx.env, s.fs, SanitizeFilename(d.filename), d.download.value, ctx.outputDir, Some(idx));
      LinkStep(ctx, s, idx, hit).s.fs == fs' &&
      LinkStep(ctx, s, idx, hit).s.saved == s.saved + (if res != WriteFailed then [res] else [])
  {
    var d := ctx.Index()[ctx.t.links[idx]];
    var name := SanitizeFilename(d.filename);
    var (res, fs') := SaveLinkSpec(ctx.env, s.fs, name, d.download.value, ctx.outputDir, Some(idx));
    if res == WriteFailed {
      SaveFailureIsNoExtra(ctx.env, s.fs, name, d.download.value, ctx.outputDir, Some(idx));
    }
  }

  /** A reused download whose name is an extra or a sample lists the skip
      marker itself among the saved files. */
  lemma ReusedExtraIsListed(ctx: Ctx, s: State, idx: nat, hit: Lookup)
    requires idx < |ctx.t.links| && Reusable(ctx, ctx.t.links[idx])
    requires !CheckIfLinkExpired(ctx.Index()[ctx.t.links[idx]].generated, None, ctx.now)
    requires IsSkipFile(ctx.env.extras, SanitizeFilename(ctx.Index()[ctx.t.links[idx]].filename))
    ensures LinkStep(ctx, s, idx, hit) == Next(s.(saved := s.saved + [SkippedExtra]))
  {
  }

  /** An expired reusable download is deleted, by its own id, before anything
      else is done for the link. */
  lemma ExpiredReuseDeletesFirst(ctx: Ctx, s: State, idx: nat, hit: Lookup)
    requires idx < |ctx.t.links| && Reusable(ctx, ctx.t.links[idx])
    requires CheckIfLinkExpired(ctx.Index()[ctx.t.links[idx]].generated, None, ctx.now)
    ensures s.calls + [DeleteDownload(ctx.Index()[ctx.t.links[idx]].id)] <= LinkStep(ctx, s, idx, hit).s.calls
  {
    var s1 := Delete(s, ctx.Index()[ctx.t.links[idx]].id);
    TryCallsGrow(ctx, s1, idx, ctx.t.links[idx], hit);
  }

  lemma TryCallsGrow(ctx: Ctx, s: State, idx: nat, link: string, hit: Lookup)
    ensures s.calls <= TryBlock(ctx, s, idx, link, hit).s.calls
  {
  }

  /** One of the unrestrict calls numbered `s.unrestricts` up to
      `s'.unrestricts` for `link` answered "hoster unavailable". */
  predicate HosterWasUnavailable(ctx: Ctx, link: string, s: State, s': State) {
    exists n: nat | s.unrestricts <= n < s'.unrestricts :: ctx.remote.unrestrict(link, n) == HosterUnavailable
  }

  lemma SecondCallEscalates(ctx: Ctx, s: State, idx: nat, link: string)
    ensures var st := SecondCall(ctx, s, idx, link);
      st.s.unrestricts == s.unrestricts + 1 &&
      (st.Reinsert? <==> ctx.remote.unrestrict(link, s.unrestricts) == HosterUnavailable)
  {
  }

  lemma UnrestrictPathEscalates(ctx: Ctx, s: State, idx: nat, link: string)
    ensures var st := UnrestrictPath(ctx, s, idx, link);
      s.unrestricts < st.s.unrestricts &&
      (st.Reinsert? <==> HosterWasUnavailable(ctx, link, s, st.s))
  {
    var u := s.unrestricts;
    var r := ctx.remote.unrestrict(link, u);
    var st := UnrestrictPath(ctx, s, idx, link);
    if r == HosterUnavailable {
      assert st.s.unrestricts == u + 1;
      assert ctx.remote.unrestrict(link, u) == HosterUnavailable;
    } else if Usable(r) {
      assert st.s.unrestricts == u + 1;
      assert !HosterWasUnavailable(ctx, link, s, st.s);
    } else {
      var s1 := CallUnrestrict(s, link);
      SecondCallEscalates(ctx, s1, idx, link);
      assert st == SecondCall(ctx, s1, idx, link);
      assert st.s.unrestricts == u + 2;
      if st.Reinsert? {
        assert ctx.remote.unrestrict(link, u + 1) == HosterUnavailable;
      }
    }
  }

  lemma TryBlockEscalates(ctx: Ctx, s: State, idx: nat, link: string, hit: Lookup)
    ensures var st := TryBlock(ctx, s, idx, link, hit);
      s.unrestricts <= st.s.unrestricts &&
      (st.Reinsert? <==> HosterWasUnavailable(ctx, link, s, st.s))
  {
    UnrestrictPathEscalates(ctx, s, idx, link);
  }

  /** A link is abandoned for reinsertion exactly when one of the unrestrict
      calls made for it, the first or the second, on a cache miss or after an
      expired download was deleted, answers "hoster unavailable"; the whole
      reconciliation then ends as needs-reinsertion at once. */
  lemma HosterUnavailableEscalates(ctx: Ctx, reading: Reading, cache: CacheRecord, s: State, idx: nat)
    requires idx < |ctx.t.links|
    ensures var st := LinkStep(ctx, s, idx, CacheLookup(reading, cache, idx));
      (st.Reinsert? <==> HosterWasUnavailable(ctx, ctx.t.links[idx], s, st.s)) &&
      (st.Reinsert? ==> Run(ctx, reading, cache, s, idx) == (NeedsReinsertion, st.s))
  {
    var link := ctx.t.links[idx];
    var hit := CacheLookup(reading, cache, idx);
    RunUnfold(ctx, reading, cache, s, idx);
    if Reusable(ctx, link) {
      var d := ctx.Index()[link];
      TryBlockEscalates(ctx, Delete(s, d.id), idx, link, hit);
    } else {
      TryBlockEscalates(ctx, s, idx, link, hit);
    }
  }

  /** A freshly unrestricted link whose file name is an extra or a sample is
      counted, so the torrent as a whole is marked for reinsertion. */
  lemma FreshExtraForcesReinsertion(ctx: Ctx, reading: Reading, cache: CacheRecord, s: State, idx: nat)
    requires idx < |ctx.t.links| && !Reusable(ctx, ctx.t.links[idx])
    requires CacheLookup(reading, cache, idx) == Miss
    requires var r := ctx.remote.unrestrict(ctx.t.links[idx], s.unrestricts);
      Usable(r) && IsSkipFile(ctx.env.extras, FreshName(r, ctx.t))
    ensures Run(ctx, reading, cache, s, idx).0 == NeedsReinsertion
  {
    var step := LinkStep(ctx, s, idx, Miss);
    assert step.Next? && step.s.skipped == s.skipped + 1;
    CountedMeansReinsertion(ctx, reading, cache, step.s, idx + 1);
  }

  // ----- the cache record, as written and as intended -----

  /** As written, a record this function cached earlier turns every later
      reconciliation of the torrent into a reinsertion as soon as its first
      link has to be unrestricted: the record is an object, and indexing it
      with position 0 raises `KeyError`, which is counted. */
  lemma StaleCacheForcesReinsertion(ctx: Ctx, w: CacheWrite, fs: FileTree)
    requires ctx.t.status == Some("downloaded") && ctx.t.links != []
    requires !Reusable(ctx, ctx.t.links[0])
    ensures ReconcileSpec(ctx, AsWritten, Loaded(w), fs).0 == NeedsReinsertion
  {
    var step := LinkStep(ctx, Initial(fs), 0, Raises);
    assert step == Next(Initial(fs).(skipped := 1));
    CountedMeansReinsertion(ctx, AsWritten, Loaded(w), step.s, 1);
  }

  lemma {:induction false} RunSameLookups(ctx: Ctx, ra: Reading, ca: CacheRecord, rb: Reading, cb: CacheRecord, s: State, idx: nat)
    requires forall i: nat | idx <= i :: CacheLookup(ra, ca, i) == CacheLookup(rb, cb, i)
    ensures Run(ctx, ra, ca, s, idx) == Run(ctx, rb, cb, s, idx)
    decreases |ctx.t.links| - idx
  {
    if idx < |ctx.t.links| {
      var step := LinkStep(ctx, s, idx, CacheLookup(ra, ca, idx));
      if step.Next? {
        RunSameLookups(ctx, ra, ca, rb, cb, step.s, idx + 1);
      }
    }
  }

  /** Read as intended, a record this function cached earlier holds no
      per-link entries: the reconciliation is exactly the one without a
      cache record. */
  lemma OwnCacheIsHarmless(ctx: Ctx, w: CacheWrite, fs: FileTree)
    ensures ReconcileSpec(ctx, Corrected, Loaded(w), fs) == ReconcileSpec(ctx, Corrected, NoRecord, fs)
  {
    RunSameLookups(ctx, Corrected, Loaded(w), Corrected, NoRecord, Initial(fs), 0);
  }
}
