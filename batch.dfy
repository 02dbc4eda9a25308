/** `get_optimal_thread_count` and `check_torrent_health`: the small pure rules
    the batch orchestration uses to size worker pools and pick reinsertion
    candidates. */
module Batch {
  import opened Opt
  import opened Records

  /** `int(x)` of a quotient: division truncating toward zero. */
  function TruncDiv(a: int, b: int): int
    requires b > 0
  {
    if a >= 0 then a / b else -((-a) / b)
  }

  /** Share of the worker budget per content type, in tenths:
      70% for TV shows, 30% for movies, 50% for anything else. */
  function ShareTenths(fileType: string): int {
    if fileType == "tv_show" then 7 else if fileType == "movie" then 3 else 5
  }

  /** `int(max_threads * share)`: the worker cap for the content type. */
  function ShareCap(fileType: string, maxThreads: int): int {
    TruncDiv(maxThreads * ShareTenths(fileType), 10)
  }

  function Max(a: int, b: int): int { if a >= b then a else b }
  function Min(a: int, b: int): int { if a <= b then a else b }

  /** `get_optimal_thread_count(file_count, file_type, max_threads)`. */
  function GetOptimalThreadCount(fileCount: nat, fileType: string, maxThreads: int): (r: int)
    ensures fileCount == 0 ==> r == 1
    ensures fileCount > 0 ==> 1 <= r <= fileCount
    ensures r <= Max(1, ShareCap(fileType, maxThreads))
    ensures fileCount > 0 && r > 1 ==> r == fileCount || r == ShareCap(fileType, maxThreads)
  {
    if fileCount == 0 then 1
    else Max(1, Min(fileCount, ShareCap(fileType, maxThreads)))
  }

  /** More available threads never yield fewer workers. */
  lemma ThreadCountMonotone(fileCount: nat, fileType: string, m: int, m': int)
    requires m <= m'
    ensures GetOptimalThreadCount(fileCount, fileType, m) <= GetOptimalThreadCount(fileCount, fileType, m')
  {
    assert m * ShareTenths(fileType) <= m' * ShareTenths(fileType);
  }

  /** For the same budget TV shows get at least as many workers as unknown
      content, and unknown content at least as many as movies. */
  lemma ThreadCountOrdering(fileCount: nat, m: int)
    ensures GetOptimalThreadCount(fileCount, "movie", m) <= GetOptimalThreadCount(fileCount, "unknown", m)
    ensures GetOptimalThreadCount(fileCount, "unknown", m) <= GetOptimalThreadCount(fileCount, "tv_show", m)
  {
    if m >= 0 {
      assert m * 3 <= m * 5 <= m * 7;
    } else {
      assert ShareCap("movie", m) <= 0 && ShareCap("unknown", m) <= 0 && ShareCap("tv_show", m) <= 0;
    }
  }

  /** `check_torrent_health(t)`: only a torrent whose status is `dead` is
      unhealthy; downloaded torrents and those still in progress are not. */
  function CheckTorrentHealth(t: Torrent): (healthy: bool)
    ensures !healthy <==> t.status == Some("dead")
  {
    if t.status == Some("downloaded") then true
    else if t.status == Some("dead") then false
    else true
  }

  /** The health phase of `process_torrents_concurrent`: the downloaded
      torrents that `check_torrent_health` reports unhealthy. */
  function UnhealthyTorrents(ts: seq<Torrent>): seq<Torrent>
  {
    if ts == [] then []
    else
      var t := ts[0];
      var rest := UnhealthyTorrents(ts[1..]);
      if t.status == Some("downloaded") && !CheckTorrentHealth(t) then [t] + rest else rest
  }

  /** Only downloaded torrents are checked and those are always healthy, so
      the phase never finds a torrent to reinsert. */
  lemma {:induction false} HealthPhaseFindsNone(ts: seq<Torrent>)
    ensures UnhealthyTorrents(ts) == []
  {
    if ts != [] {
      HealthPhaseFindsNone(ts[1..]);
    }
  }

  /** The health phase with the status filter dropped: every torrent is
      checked, so the dead ones are the ones found. */
  function HealthPhase(ts: seq<Torrent>): seq<Torrent>
  {
    if ts == [] then []
    else
      var rest := HealthPhase(ts[1..]);
      if !CheckTorrentHealth(ts[0]) then [ts[0]] + rest else rest
  }

  /** The corrected phase reports exactly the dead torrents. */
  lemma {:induction false} HealthPhaseFindsDead(ts: seq<Torrent>, t: Torrent)
    ensures t in HealthPhase(ts) <==> t in ts && t.status == Some("dead")
  {
    if ts != [] {
      HealthPhaseFindsDead(ts[1..], t);
      assert ts == [ts[0]] + ts[1..];
    }
  }
}
