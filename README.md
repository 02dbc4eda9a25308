# robofuse link reconciliation, modelled in Dafny

robofuse keeps a folder of `.strm` files in step with a Real-Debrid account.
Each finished torrent's hoster links go through three steps:

1. An existing entry of the downloads list is reused, a cached unrestricted link is taken, or the link is unrestricted again.
2. The resulting direct URL is written into a movie or TV-show folder layout.
3. A skip gate keeps trailers, samples and other extras out of the library, and a duplicate check stops a second copy of the same URL.

A companion script, `rd_remove_duplicates.py`, prunes the downloads list so that one entry per hoster link remains: the newest.

This project models that core as Dafny values and methods and proves what it promises.

What the model abstracts:
- The Real-Debrid client is an oracle record (`Records.Remote`): one reply function per endpoint. The unrestrict reply also depends on how many unrestrict calls were already made for the torrent. `Client.ClientRemote` builds that record from a `Client.Session`, the outcome of each attempt of each request, by running every request through the backoff loop and its wrapper.
- The output folder is a map from file path to file content (`Library.FileTree`). Directories exist implicitly as path prefixes.
- Regular expressions are abstract predicates (`Extras.ExtraPatterns`, `Episodes.Matchers`). What is modelled is the order in which they are consulted and what is done with their capture groups.
- Timestamps are `Freshness.Stamp`: a string that does not parse, or an instant in seconds. The clock is a parameter `now`.

The following are concrete:
- string stripping;
- `sanitize_filename`;
- POSIX `join`/`dirname`/`basename`;
- the `[Ss](\d{1,2})[Ee](\d{1,2})` search used by the duplicate check;
- the series-name cleanup (trailing separators, `(...)` and `[...]`);
- decimal and two-digit formatting.

The operations that loop or mutate are methods, each proved equal to a specification function:
- `Backoff.ApiRequestWithBackoff`, the retry loop;
- `Client.ReinsertDeadTorrent`;
- `Library.ShouldSkipContent`, the walk over the tree;
- `Library.SaveLink`;
- `LinkIndex.BuildLinkIndex`;
- `Reconcile.LinkLoop`, the per-link loop, and `Reconcile.ProcessSingleTorrent` around it;
- `Duplicates.GroupByLink` and `Duplicates.FindDuplicates`.

The properties are lemmas about those specification functions.

The modules follow the source:

| module | contents |
|---|---|
| `Text`, `Sanitize`, `Paths` | Python string and path helpers |
| `Freshness` | `check_if_link_expired` |
| `Backoff`, `Client` | the HTTP client layer |
| `Extras` | `classify_extra_content` and `is_skip_file` |
| `Episodes` | `parse_tv_show_filename` |
| `Library` | `should_skip_content` and `save_link` |
| `LinkIndex` | the link-to-download index of `process_single_torrent` |
| `Reconcile` | the rest of `process_single_torrent` |
| `Batch` | `get_optimal_thread_count` and the torrent health check |
| `Duplicates` | `find_duplicates` |
| `Records`, `Opt` | the JSON records and an Option type |

## Model

| member | source | states |
|---|---|---|
| Backoff.ApiRequestWithBackoff | robofuse.py:66-110 | the retry loop returns exactly the result and event trace of the retry automaton; the trace opens with one acquisition of the torrents or general limiter, as the flag selects |
| Backoff.AttemptsStop | robofuse.py:74-107 | from any retry count, the first attempt that is not retried ends the loop; every retried attempt before it costs one send and one sleep |
| Backoff.AttemptsExhaust | robofuse.py:74-110 | when every remaining attempt is retried, the loop ends with "Maximum retries exceeded" after one send and one sleep per attempt |
| Backoff.FirstUnretriedDecides | robofuse.py:72-101 | a call ends on its first attempt that is not retried: a 2xx/3xx returns the response and another HTTP error propagates; each earlier 429 slept `Retry-After` (default 1) and each transport failure slept `2**i` |
| Backoff.ExhaustionRaises | robofuse.py:74-110 | `max_retries` retried failures raise "Maximum retries exceeded" after `max_retries` sends, each followed by a sleep |
| Backoff.ServiceUnavailableNotRetried | robofuse.py:84-98 | a 503, or any HTTP error other than 429, on the first attempt propagates with one send and no sleep |
| Backoff.AcquiresOnce | robofuse.py:68-72 | the limiter is acquired exactly once per call, before any request |
| Client.FirstStop | robofuse.py:74-107 | the attempt found is the first from `i` on, below five, that is not retried, and every attempt before it is retried; none is found exactly when all remaining attempts are retried |
| Client.RequestStops | robofuse.py:66-110 | a request with the default five retries ends as its first attempt that is not retried decides, or raises "Maximum retries exceeded" when there is none |
| Client.DeleteOutcome | robofuse.py:251-269 | `delete_download` and `delete_torrent` succeed exactly when the first attempt that is not retried answers 204; running out of retries and every other answer report failure |
| Client.SelectOutcome | robofuse.py:295-305 | `select_files` succeeds exactly when the first attempt that is not retried answers 200, 202 or 204 |
| Client.AddMagnetOutcome | robofuse.py:281-293 | `add_magnet` returns the decoded body exactly when the first attempt that is not retried is below 400, and `None` otherwise |
| Client.UnrestrictOutcome | robofuse.py:322-340 | `unrestrict_link` returns the body after a success, the `hoster_unavailable` marker after a raised 503, and `None` after any other error or when the retries run out |
| Client.ClientReplies | robofuse.py:251-340 | the replies the reconciliation sees from a client are those of the wrappers over the backoff loop: delete on a 204, select on 200/202/204, and `hoster_unavailable` exactly on a 503 or a success whose body is that marker |
| Client.MagnetLink | robofuse.py:357-358 | the magnet link is exactly `magnet:?xt=urn:btih:` followed by the hash |
| Client.ReinsertDeadTorrent | robofuse.py:351-375 | without a hash: no call and `None`. Otherwise the calls are delete, then add only if delete succeeded, then select only if add returned a torrent. The result is non-`None` exactly when all three succeed, and it is then the `add_magnet` reply |
| Sanitize.SanitizeOnlyAllowed | robofuse.py:406-408 | a sanitized name holds only alphanumerics, space, `.`, `_` and `-` |
| Sanitize.SanitizeNoTrailingSpace | robofuse.py:406-408 | a sanitized name never ends in whitespace |
| Sanitize.SanitizeSubsequence | robofuse.py:406-408 | a sanitized name is a subsequence of its input |
| Sanitize.SanitizeIdempotent | robofuse.py:406-408 | sanitizing twice equals sanitizing once |
| Text.StripTrimmed | robofuse.py:527-529 | `strip()` leaves no whitespace at either end and returns a contiguous slice of its argument |
| Text.StripIdempotent | robofuse.py:527-529 | stripping twice equals stripping once |
| Text.DecimalRoundTrip | robofuse.py:652 | reading back the decimal rendering of `n` gives `n` |
| Text.Pad2RoundTrip | robofuse.py:669 | `:02d` of a number below 100 is two digits that read back as that number |
| Paths.JoinSplit | robofuse.py:630-631 | joining a directory and a slash-free component inserts one `/`, and `dirname`/`basename` recover both parts |
| Paths.LastSlash | robofuse.py:535 | the position `basename` and `dirname` cut at is the last `/`, or none |
| Freshness.GeneratedDecides | robofuse.py:733-741 | a parseable generated date alone decides: expired exactly when at least 6 whole days old |
| Freshness.CachedIsFallback | robofuse.py:742-753 | when the generated date is absent or unparseable, a parseable cached date decides by the same 6-day rule |
| Freshness.FailSafe | robofuse.py:757-758 | when neither date parses, the link counts as expired |
| Freshness.ExpiryIsMonotone | robofuse.py:728-758 | a link expired now stays expired at every later time |
| Extras.FirstCategory | robofuse.py:504-509 | the category found is one whose patterns match; none is found exactly when no category matches |
| Extras.ClassifiedIff | robofuse.py:438-509 | a name has category `c` exactly when: it is neither an extended nor an unrated cut, `c`'s patterns match, and no category earlier in dictionary order matches |
| Extras.FilmCutsAreNotExtras | robofuse.py:447-455 | extended and unrated cuts are never extras; they are skipped only if they look like samples |
| Extras.SkipIff | robofuse.py:410-436 | a name is skipped exactly when it is a sample, or it matches some category without being a film cut |
| Episodes.TagWins | robofuse.py:1741-1785 | when an SxxExx pattern matches, it decides the result; season and episode are the decimal values of its captures |
| Episodes.MovieMarkerVetoes | robofuse.py:1786-1806 | without an SxxExx match, a movie marker with no TV marker gives no result; once the SxxExx stage succeeds or the veto fires, the stages after it (robofuse.py:1808-1910) cannot change the result |
| Episodes.TagStage | robofuse.py:1757-1785 | the SxxExx stage succeeds exactly when one of its patterns matches |
| Episodes.AnimeFormatStage | robofuse.py:1823-1845 | the anime formats always give season 1 |
| Episodes.AbsoluteNumberStage | robofuse.py:1853-1870 | an absolute episode number gives season 1, and only when the number is not a year and no source-format marker is present |
| Episodes.ThreeDigitStage | robofuse.py:1872-1892 | the three-digit heuristic gives a result exactly when the pattern matches with a non-blank prefix, season 1-9, episode 1-99 and a cleaned series of at least 2 characters; season and episode are the captured numbers |
| Episodes.DashedNumberStage | robofuse.py:1894-1910 | `Name - NN - ` gives season 1 |
| Episodes.RemoveEnclosed | robofuse.py:1782-1783 | after the removal no `(` is followed by a `)`, and every character left was in the input |
| Episodes.TrimTrailingSeps | robofuse.py:1779 | the result is a prefix that does not end in `.`, whitespace or `-`, and everything cut off was such a separator |
| Episodes.ParsedSeriesIsClean | robofuse.py:1778-1910 | every series name the parser returns has no whitespace at either end and no `(...)` or `[...]` in it |
| Library.FindEpisodeTag | robofuse.py:542-545 | a tag found has both numbers below 100, and when none is found no position matches `[Ss]\d{1,2}[Ee]\d{1,2}` |
| Library.FindEpisodeTagLeftmost | robofuse.py:542-545 | a tag found is the tag at the leftmost position where the pattern matches, so none is found exactly when no position matches |
| Library.ShouldSkipContent | robofuse.py:511-585 | the check, with the corrected walk roots, is true exactly when the target already holds the link or a walked `.strm` file does (an episode-tag match is needed under `TV Shows`) |
| Library.SaveLink | robofuse.py:587-726 | the writer, with the corrected walk roots, returns the skip marker, the target path or a failed write, with the tree `SaveLinkSpec` describes |
| Library.SkipFilesAreNotSaved | robofuse.py:605-610 | a name the skip gate flags returns `"skipped_extra"` and leaves the tree unchanged |
| Library.ExtrasLayoutUnreachable | robofuse.py:605-612 | a name that passes the gate has no extras category, so the `Extras` folder layouts are never built |
| Library.TvTargetLayout | robofuse.py:625-672 | an episode `(s, n, e)` is written to `out/TV Shows/<s>/Season <n>/<s>.S<nn>E<nn>.strm`, where `<s>` is the sanitized series name |
| Library.MovieTargetLayout | robofuse.py:673-712 | a film with base name `b` is written to `out/Movies/<b>/<b>.strm` |
| Library.BaseNameIsComponent | robofuse.py:612-620 | a non-empty sanitized name with its `_<index>` suffix is one path component |
| Library.WriteTargetFrame | robofuse.py:714-726 | no path other than the target changes, and the target ends holding the link or what it held before. An equivalent file found by the check wins: the tree is kept and the target path returned. Otherwise the write fails exactly when the target is not writable, and then nothing changes; a returned path is the target and afterwards holds an equivalent link |
| Library.WriteTargetIdempotent | robofuse.py:714-723 | writing the same link to the same target a second time changes nothing |
| Library.SaveLinkIdempotent | robofuse.py:587-726 | saving the same name and link again after a successful save returns the same path and leaves the tree as it was |
| Library.MovieScanCoversLibrary | robofuse.py:562-581 | with the corrected root, any `.strm` under `out/Movies` that holds the link stops the new film file |
| Library.MovieScanMissesSiblings | robofuse.py:564 | for two different films, the check as written misses the sibling's identical link, while the corrected check finds it |
| Library.AsWrittenMovieMiss | robofuse.py:562-581 | the check as written misses a film target unless the link sits at the target itself or under `<Movies>/Movies` |
| Library.MovieTargetRoot | robofuse.py:564 | two `dirname`s above a film file give the library's `Movies` folder |
| Library.TvTargetUnder | robofuse.py:539 | three `dirname`s above an episode file give the output folder; the file contains `TV Shows` and lies under `out/TV Shows`, but not under `out/TV Shows/TV Shows` when its series does not start with `T` |
| Library.TvTargetTag | robofuse.py:542-545 | the SxxExx tag read back from an episode file name is the episode's own season and episode, when the series name holds no tag |
| Library.EpisodeNameAccepted | robofuse.py:547-549 | an episode's file name ends in `.strm` and contains its own `Snn`/`Enn` pattern, so the TV walk accepts files named like it |
| Library.TvTargetsDiffer | robofuse.py:625-672 | episodes of two series with different sanitized names get different targets |
| Library.TvScanCoversLibrary | robofuse.py:539-558 | with the corrected root, any `.strm` under `out/TV Shows` with the same SxxExx pattern that holds the link stops the new episode file |
| Library.AsWrittenTvMiss | robofuse.py:537-558 | the check as written misses an episode target unless the link sits at the target itself or under `<TV Shows>/TV Shows` |
| Library.TvScanMissesSiblings | robofuse.py:539 | for the same episode of two different series, the check as written misses the sibling's identical link, while the corrected check finds it |
| LinkIndex.BuildLinkIndex | robofuse.py:785-805 | the index loop builds the left fold of `Insert` over the downloads |
| LinkIndex.Insert | robofuse.py:787-805 | a visit adds the download's link as a key. A key changes hands only to this download, and only when both dates parse and it is strictly newer |
| LinkIndex.IndexStoresOwnLink | robofuse.py:785-805 | every key maps to a visited download whose `link` is that key |
| LinkIndex.IndexKeysAreLinks | robofuse.py:786-792 | a link is a key exactly when some visited download carries it |
| LinkIndex.IndexKeepsNewest | robofuse.py:794-802 | when every download of a link has a parseable date, the newest is kept, and of equally new ones the first listed |
| LinkIndex.IndexKeepsFirstUndated | robofuse.py:791-805 | when no download of a link has a parseable date, the first listed is kept |
| Reconcile.ProcessSingleTorrent | robofuse.py:760-974 | the per-link loop returns the outcome, tree, client calls and cache writes of the reconciliation specification, with the corrected cache reading and the corrected walk roots |
| Reconcile.LinkLoop | robofuse.py:814-956 | the loop stops at the first link whose step needs reinsertion, with that step's state, or else runs over every link; either way its result is that of the reconciliation's loop from the same state |
| Reconcile.CacheLookup | robofuse.py:853-854 | an own-format dictionary record raises for `idx < 4` only when read as written; a cached item is used exactly when a list record holds one at `idx` |
| Reconcile.KnownLinks | robofuse.py:964 | the summary lists exactly the torrent's links that are in the index |
| Reconcile.NotReadyIsEmpty | robofuse.py:766-773 | a torrent not `downloaded`, or without links, yields the empty result with no client call, no file written and no cache write |
| Reconcile.ReconcileGuarantees | robofuse.py:760-974 | every call is an unrestrict of one of the torrent's links, or a delete of the torrent id or of an indexed download of one of its links. Without a cache directory nothing is cached. A saved result has no skips and lists every saved entry, none a failed write. The result is empty exactly when the torrent is not ready |
| Reconcile.RunKeepsInv | robofuse.py:814-972 | the loop keeps the call and cache invariant, only appends calls, and never yields the empty result |
| Reconcile.CountedMeansReinsertion | robofuse.py:955-959 | once a link has been counted, the torrent ends as needs-reinsertion |
| Reconcile.SkippedNeverDecreases | robofuse.py:814-956 | no link step lowers the counted total |
| Reconcile.ReuseMakesNoCall | robofuse.py:833-848 | an indexed, unexpired download is saved by `save_link` under its sanitized name, at its own URL and index: the tree becomes the save's tree and the result is listed unless the write failed. No client call, unrestrict, count or cache write is made |
| Reconcile.ReusedExtraIsListed | robofuse.py:838-842 | when a reused download's name is an extra, `"skipped_extra"` is appended to the saved list, because the marker string is truthy |
| Reconcile.ExpiredReuseDeletesFirst | robofuse.py:827-831 | an expired indexed download is first deleted by its own id |
| Reconcile.HosterUnavailableEscalates | robofuse.py:826-917 | from any state and for any link, the step ends the loop exactly when one of its unrestrict calls, first (robofuse.py:878-884) or second (robofuse.py:914-917), whether reached on a cache miss, on an expired cache entry or after an expired download was deleted, answers `hoster_unavailable`; the whole reconciliation then returns needs-reinsertion with that state |
| Reconcile.FreshExtraForcesReinsertion | robofuse.py:886-893 | a freshly unrestricted link whose name is an extra is counted, and the torrent ends as needs-reinsertion |
| Reconcile.StaleCacheForcesReinsertion | robofuse.py:853-855 | as written, a torrent with its own cache record whose first link is not reusable ends as needs-reinsertion |
| Reconcile.OwnCacheIsHarmless | robofuse.py:896-905 | with the corrected reading, the program's own cache record changes nothing compared with no record |
| Reconcile.RunSameLookups | robofuse.py:853 | the cache record only matters through what it yields at each index |
| Batch.GetOptimalThreadCount | robofuse.py:1324-1350 | no files give 1 worker. Otherwise the result is in `[1, file_count]`, never above `max(1, int(max_threads*share))`, and, when above 1, it is `file_count` or that cap |
| Batch.ThreadCountMonotone | robofuse.py:1339-1350 | more available threads never give fewer workers |
| Batch.ThreadCountOrdering | robofuse.py:1339-1350 | for the same budget, movies get at most as many workers as unknown types, and those at most as many as TV shows |
| Batch.CheckTorrentHealth | robofuse.py:976-992 | a torrent is unhealthy exactly when its status is `dead` |
| Batch.HealthPhaseFindsNone | robofuse.py:1061-1074 | the health phase as written never finds an unhealthy torrent |
| Batch.HealthPhaseFindsDead | robofuse.py:976-992 | checking every torrent finds exactly the dead ones |
| Duplicates.FindDuplicates | rd_remove_duplicates.py:102-136 | the loop returns the selection of the specification, or the crash of a malformed date |
| Duplicates.GroupByLink | rd_remove_duplicates.py:107-112 | the groups are the linked downloads of each link, in list order, and the keys in first-seen order |
| Duplicates.LinkOrderComplete | rd_remove_duplicates.py:109-112 | a link is a group key exactly when it is non-empty and some download carries it |
| Duplicates.DeletedAreLinked | rd_remove_duplicates.py:109-120 | no download without a link is selected, and the logged count equals the number selected |
| Duplicates.GroupContribution | rd_remove_duplicates.py:118-132 | a link group of size n contributes exactly n-1 selections, and a singleton contributes none |
| Duplicates.OneSurvivorPerLink | rd_remove_duplicates.py:122-132 | for each link exactly one download survives: the newest, and of equally new ones the first listed. A missing date counts as the epoch |
| Duplicates.UndatedLosesToDated | rd_remove_duplicates.py:125 | a download without a date is selected whenever its link also has one dated after the epoch |
| Duplicates.DeletionsAreSubMultiset | rd_remove_duplicates.py:131-132 | the selection is a sub-multiset of the input |
| Duplicates.FailsIff | rd_remove_duplicates.py:119-128 | the function raises exactly when some group of two or more holds a date `strptime` rejects |
| Duplicates.SortDescSorted | rd_remove_duplicates.py:123-128 | the sort orders a group newest first |
| Duplicates.SortDesc | rd_remove_duplicates.py:123-128 | the sort is a permutation of the group |
| Duplicates.SortDescHead | rd_remove_duplicates.py:123-128 | the head of the sorted group is the newest, and of equally new ones the first listed, since the sort is stable in reverse |

## Left out

- The `RateLimiter`: it depends on the wall clock, float tokens and `time.sleep`. Each `acquire` is one recorded event.
- HTTP, `requests` and JSON decoding. The client's replies are oracle functions.
  - Page wrappers, concurrent pagination, the thread pools of `process_torrents_concurrent`, and the result reporting around them are concurrency and I/O.
  - `check_link` and `check_if_link_alive` are never used by the modelled core.
- `watch_mode`, `load_config` and `main` of both scripts: loops over time, argparse, prompts and environment.
- Cache file I/O, md5 keys and `makedirs`.
  - The cache record is the parsed value `Reconcile.CacheRecord`.
  - Cache writes are a log of `Reconcile.CacheWrite` values, without their `cached_date` field.
  - Directories exist implicitly in `Library.FileTree`.
- Date parsing and time zones.
  - One `Stamp` stands for a string that both `datetime.fromisoformat` and `strptime("%Y-%m-%dT%H:%M:%S.%fZ")` accept or both reject.
  - A single `now` is used per run.
  - The `TypeError` that comparing an aware with a naive date raises in the index loop is not modelled.
- The regular-expression engine. Patterns are abstract predicates.
  - SxxExx patterns 3-5 (robofuse.py:1749-1753) are not modelled: each needs a match of pattern 2, which is tried first, so they are unreachable.
- `Batch.GetOptimalThreadCount`: it computes `int(max_threads * 0.7)` exactly, as `7 * max_threads / 10` truncated. The float product can round just below an integer, and this is not modelled.
- `Sanitize`: `str.isalnum` and `str.isspace` are modelled on ASCII only.
- `KeyError` outside the `try` block of `process_single_torrent`, for example a reused download without `filename`. `Records.Download.filename` is required.
- The unused `existing_downloads` list (robofuse.py:807-812).
- `ui_utils.py` (terminal output) and `rd_clear_downloads.py` (fetch-all then delete-all) are not part of this model.
- Timestamps in whole seconds. `strptime` with `%f` keeps microseconds, so two downloads generated within the same second are ordered by the sort of rd_remove_duplicates.py:123-128 and the index comparison of robofuse.py:799, while `Freshness.Stamp` treats them as equally new.
- `LinkIndex.Insert`: a download whose `generated` is JSON `null` makes `.replace` raise `AttributeError` at robofuse.py:796-797, which `except ValueError` does not catch; `Records.Download` has no null date, so that crash is not modelled.
- `Client.ReinsertDeadTorrent`: a truthy `add_magnet` reply without `id` raises `KeyError` at robofuse.py:368, but `Records.NewTorrent` always carries an id, so that crash is not modelled.
- `Reconcile.CacheLookup` models the `ListRecord` shape, which this program never writes, so that the corrected reading has a hit path.

Where the project's documented behaviour and its code differ, the model follows the code, except in the walk roots of `should_skip_content` and the cache reading of `process_single_torrent`. There it uses the corrected definitions of the Findings below, so `Library.SaveLink` and `Reconcile.ProcessSingleTorrent` are stated with them. Otherwise:
- `save_link` returns the target path even when it keeps an equivalent file elsewhere.
- A `hoster_unavailable` reply does not roll back files already written for earlier links.
- A `"skipped_extra"` marker is appended to the saved list in the reuse and cached branches.
- A skipped extra on the unrestrict paths is counted, and so makes the torrent need reinsertion.

## Findings

| source | as written | input that shows it | evidently intended | confidence | as-written member | corrected member |
|---|---|---|---|---|---|---|
| robofuse.py:564 | The cross-folder film walk starts at `join(dirname(dirname(p)), "Movies")`, which is `out/Movies/Movies`. | Output dir `out`, with `out/Movies/A_0/A_0.strm` holding URL `u`. Saving film `B` at index 0 with URL `u`: the walk finds nothing, so `out/Movies/B_0/B_0.strm` is written as a duplicate. | Walk the `Movies` folder itself, two levels above the target | not executed; high | Library.MovieScanMissesSiblings | Library.MovieScanCoversLibrary |
| robofuse.py:539 | The TV walk starts at `join(dirname(dirname(dirname(p))), "TV Shows")`, which is `out/TV Shows/TV Shows`. | Output dir `out`, with `out/TV Shows/A/Season 1/A.S01E02.strm` holding URL `u`. Saving `B.S01E02` with URL `u`: the walk finds nothing, so `out/TV Shows/B/Season 1/B.S01E02.strm` is written as a duplicate. | Walk the `TV Shows` folder itself, three levels above the target | not executed; high | Library.TvScanMissesSiblings | Library.TvScanCoversLibrary |
| robofuse.py:853-854 | `cached_data[idx]` indexes the cache record as a list. Every record the program writes (robofuse.py:898-905, 940-947, 962-969) is a dictionary with 4 keys, so for `idx < 4` the lookup raises `KeyError`. The exception is counted, so the torrent is marked for reinsertion. | A downloaded torrent already in the cache whose first link is not in the downloads list: the second run returns needs-reinsertion. | A record that holds no per-link entries is a cache miss, and the link is unrestricted | not executed; high | Reconcile.StaleCacheForcesReinsertion | Reconcile.OwnCacheIsHarmless |
| robofuse.py:1061-1065 | The health phase submits only torrents whose status is `downloaded`, and `check_torrent_health` returns true for those (robofuse.py:983-984). So the reinsertion of unhealthy torrents that follows can never run. | A `dead` torrent is never checked and never reinserted. | Check every torrent, so that the `dead` ones are found | not executed; medium | Batch.HealthPhaseFindsNone | Batch.HealthPhaseFindsDead |
