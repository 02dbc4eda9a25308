/** The `RealDebridClient` operations above `api_request_with_backoff`: how
    each reads the outcome of its request, and `reinsert_dead_torrent`, which
    chains three of them. */
module Client {
  import opened Opt
  import opened Backoff
  import opened Records

  /** Every wrapper calls `api_request_with_backoff` with the default
      `max_retries`. */
  const MaxRetries := 5

  /** What the backoff loop ends with when its attempts go as `outcome`. */
  function Request(useTorrentsLimiter: bool, outcome: nat -> Attempt): ApiResult {
    RequestWithBackoff(useTorrentsLimiter, outcome, MaxRetries).0
  }

  /** The first attempt from `i` on that is not retried, if one comes before
      the retries run out. */
  function FirstStop(outcome: nat -> Attempt, i: nat): (k: Option<nat>)
    ensures k.Some? ==> i <= k.value < MaxRetries && !Retried(outcome(k.value))
    ensures k.Some? ==> forall j | i <= j < k.value :: Retried(outcome(j))
    ensures k.None? ==> forall j | i <= j < MaxRetries :: Retried(outcome(j))
    decreases MaxRetries - i
  {
    if i >= MaxRetries then None
    else if !Retried(outcome(i)) then Some(i)
    else FirstStop(outcome, i + 1)
  }

  /** The backoff loop ends as the first attempt that is not retried says, or
      raises "Maximum retries exceeded" when there is none. */
  lemma RequestStops(useTorrentsLimiter: bool, outcome: nat -> Attempt)
    ensures var k := FirstStop(outcome, 0);
      Request(useTorrentsLimiter, outcome) == if k.Some? then Final(outcome(k.value)) else MaxRetriesExceeded
  {
    var k := FirstStop(outcome, 0);
    if k.Some? {
      FirstUnretriedDecides(useTorrentsLimiter, outcome, MaxRetries, k.value);
    } else {
      ExhaustionRaises(useTorrentsLimiter, outcome, MaxRetries);
    }
  }

  /** `delete_download` and `delete_torrent`: success means a 204 answer; any
      exception is reported as failure. */
  function DeleteSucceeded(outcome: nat -> Attempt): bool {
    match Request(false, outcome)
    case Response(status) => status == 204
    case _ => false
  }

  /** A delete succeeds exactly when the first attempt that is not retried
      answers 204. Running out of retries, an unusable `Retry-After` and every
      other answer report failure. */
  lemma DeleteOutcome(outcome: nat -> Attempt)
    ensures var k := FirstStop(outcome, 0);
      DeleteSucceeded(outcome) <==> k.Some? && outcome(k.value).status == 204
  {
    RequestStops(false, outcome);
  }

  /** `select_files`: success means a 200, 202 or 204 answer. */
  function SelectSucceeded(outcome: nat -> Attempt): bool {
    match Request(true, outcome)
    case Response(status) => status == 200 || status == 202 || status == 204
    case _ => false
  }

  /** Selecting files succeeds exactly when the first attempt that is not
      retried answers 200, 202 or 204. */
  lemma SelectOutcome(outcome: nat -> Attempt)
    ensures var k := FirstStop(outcome, 0);
      SelectSucceeded(outcome) <==> k.Some? && outcome(k.value).status in {200, 202, 204}
  {
    RequestStops(true, outcome);
  }

  /** `add_magnet`: the decoded body `body` of a response, `None` after any
      exception. */
  function AddMagnetReply(outcome: nat -> Attempt, body: Option<NewTorrent>): Option<NewTorrent> {
    if Request(true, outcome).Response? then body else None
  }

  /** Adding a magnet yields the answer's body exactly when the first attempt
      that is not retried is a success (below 400). */
  lemma AddMagnetOutcome(outcome: nat -> Attempt, body: Option<NewTorrent>)
    ensures var k := FirstStop(outcome, 0);
      AddMagnetReply(outcome, body) == if k.Some? && !RaisesForStatus(outcome(k.value).status) then body else None
  {
    RequestStops(true, outcome);
  }

  /** `unrestrict_link`: a 503 raised by the backoff loop becomes the
      hoster-unavailable marker, any other exception `None`, and a response
      its decoded body `body` (itself `NoResult` for an empty object). */
  function UnrestrictReply(outcome: nat -> Attempt, body: Unrestricted): Unrestricted {
    match Request(false, outcome)
    case Response(_) => body
    case HttpError(status) => if status == 503 then HosterUnavailable else NoResult
    case _ => NoResult
  }

  /** The reply of `unrestrict_link` is decided by the first attempt that is
      not retried: a success gives the body, a 503 the hoster-unavailable
      marker, and anything else (another error, an unusable `Retry-After` on a
      429, or no such attempt) gives `None`. */
  lemma UnrestrictOutcome(outcome: nat -> Attempt, body: Unrestricted)
    ensures var k := FirstStop(outcome, 0);
      UnrestrictReply(outcome, body) ==
        if k.None? then NoResult
        else if !RaisesForStatus(outcome(k.value).status) then body
        else if outcome(k.value).status == 503 then HosterUnavailable
        else NoResult
  {
    RequestStops(false, outcome);
  }

  /** What the session answers: for each request, the outcome of each of its
      attempts and the decoded body of a successful answer. The `n`-th
      unrestrict call of a reconciliation may answer differently from an
      earlier one for the same link. */
  datatype Session = Session(
    deleteTorrent: string -> (nat -> Attempt),
    addMagnet: string -> (nat -> Attempt),
    added: string -> Option<NewTorrent>,
    selectFiles: string -> (nat -> Attempt),
    unrestrict: (string, nat) -> (nat -> Attempt),
    unrestricted: (string, nat) -> Unrestricted)

  /** The client replies over a session: each goes through the backoff loop
      and is read by its wrapper. */
  function ClientRemote(session: Session): Remote {
    Remote(
      id => DeleteSucceeded(session.deleteTorrent(id)),
      magnet => AddMagnetReply(session.addMagnet(magnet), session.added(magnet)),
      id => SelectSucceeded(session.selectFiles(id)),
      (link: string, n: nat) => UnrestrictReply(session.unrestrict(link, n), session.unrestricted(link, n)))
  }

  /** The client's replies, in terms of the attempts of each request: what
      `ReinsertDeadTorrent` and `ProcessSingleTorrent` see when they are given
      this client. */
  lemma ClientReplies(session: Session, id: string, magnet: string, link: string, n: nat)
    ensures var k := FirstStop(session.deleteTorrent(id), 0);
      ClientRemote(session).deleteTorrent(id) <==> k.Some? && session.deleteTorrent(id)(k.value).status == 204
    ensures var k := FirstStop(session.selectFiles(id), 0);
      ClientRemote(session).selectFiles(id) <==> k.Some? && session.selectFiles(id)(k.value).status in {200, 202, 204}
    ensures var k := FirstStop(session.unrestrict(link, n), 0);
      ClientRemote(session).unrestrict(link, n) == HosterUnavailable <==>
        k.Some? && (session.unrestrict(link, n)(k.value).status == 503 ||
                    (!RaisesForStatus(session.unrestrict(link, n)(k.value).status) && session.unrestricted(link, n) == HosterUnavailable))
  {
    DeleteOutcome(session.deleteTorrent(id));
    SelectOutcome(session.selectFiles(id));
    UnrestrictOutcome(session.unrestrict(link, n), session.unrestricted(link, n));
  }

  /** The magnet link rebuilt from a torrent's info hash. */
  function MagnetLink(hash: string): (m: string)
    ensures |m| == 20 + |hash| && m[..20] == "magnet:?xt=urn:btih:" && m[20..] == hash
  {
    "magnet:?xt=urn:btih:" + hash
  }

  /** `reinsert_dead_torrent(t)`: delete the torrent, add its magnet again and
      select all files of the new torrent, each step only after the previous
      one succeeded. */
  method ReinsertDeadTorrent(remote: Remote, t: Torrent) returns (r: Option<NewTorrent>, calls: seq<Call>)
    ensures t.hash.None? ==> r.None? && calls == []
    ensures t.hash.Some? ==>
      var deleted := remote.deleteTorrent(t.id);
      var added := remote.addMagnet(MagnetLink(t.hash.value));
      calls == [DeleteTorrent(t.id)] +
        (if deleted then [AddMagnet(MagnetLink(t.hash.value))] +
          (if added.Some? then [SelectFiles(added.value.id)] else [])
        else [])
    ensures r.Some? <==>
      t.hash.Some? && remote.deleteTorrent(t.id) &&
      remote.addMagnet(MagnetLink(t.hash.value)).Some? &&
      remote.selectFiles(remote.addMagnet(MagnetLink(t.hash.value)).value.id)
    ensures r.Some? ==> r == remote.addMagnet(MagnetLink(t.hash.value))
  {
    calls := [];
    if t.hash.None? {
      return None, calls;
    }
    var magnet := MagnetLink(t.hash.value);
    calls := calls + [DeleteTorrent(t.id)];
    if remote.deleteTorrent(t.id) {
      calls := calls + [AddMagnet(magnet)];
      var added := remote.addMagnet(magnet);
      if added.Some? {
        calls := calls + [SelectFiles(added.value.id)];
        if remote.selectFiles(added.value.id) {
          return added, calls;
        }
      }
    }
    r := None;
  }
}
