/** The link index of `process_single_torrent`: for every link of the
    downloads list, the download it reuses. The downloads are visited in the
    order of the `downloads_dict` dictionary. */
module LinkIndex {
  import opened Opt
  import opened Freshness
  import opened Records

  type Index = map<string, Download>

  /** Both generation dates parse and the newcomer's is strictly later. */
  predicate Newer(incumbent: Download, d: Download) {
    Parses(incumbent.generated) && Parses(d.generated) &&
    d.generated.value.instant > incumbent.generated.value.instant
  }

  /** One visit: a download without a `link` is ignored, a new link is
      added, and a known link changes hands only to a newer download. */
  function Insert(m: Index, d: Download): (r: Index)
    ensures r.Keys == m.Keys + (if d.link.Some? then {d.link.value} else {})
    ensures forall k | k in m && k in r && r[k] != m[k] :: d.link == Some(k) && r[k] == d && Newer(m[k], d)
  {
    match d.link
    case None => m
    case Some(l) =>
      if l !in m then m[l := d]
      else if Newer(m[l], d) then m[l := d]
      else m
  }

  /** The index after visiting `ds` in order. */
  function IndexSpec(ds: seq<Download>): Index {
    if ds == [] then map[] else Insert(IndexSpec(ds[..|ds| - 1]), ds[|ds| - 1])
  }

  /** The loop of `process_single_torrent` that builds `link_to_download`. */
  method BuildLinkIndex(ds: seq<Download>) returns (index: Index)
    ensures index == IndexSpec(ds)
  {
    index := map[];
    var i := 0;
    while i < |ds|
      invariant 0 <= i <= |ds|
      invariant index == IndexSpec(ds[..i])
    {
      var d := ds[i];
      assert ds[..i + 1][..i] == ds[..i];
      if d.link.Some? {
        var l := d.link.value;
        if l !in index {
          index := index[l := d];
        } else if Newer(index[l], d) {
          index := index[l := d];
        }
      }
      i := i + 1;
    }
    assert ds[..|ds|] == ds;
  }

  predicate HasLink(d: Download, k: string) {
    d.link == Some(k)
  }

  /** Every key is the link of its stored download, which is one of the
      visited downloads. */
  lemma {:induction false} IndexStoresOwnLink(ds: seq<Download>, k: string)
    requires k in IndexSpec(ds)
    ensures HasLink(IndexSpec(ds)[k], k) && IndexSpec(ds)[k] in ds
  {
    if ds != [] {
      var init := ds[..|ds| - 1];
      if k in IndexSpec(init) && IndexSpec(ds)[k] == IndexSpec(init)[k] {
        IndexStoresOwnLink(init, k);
      }
    }
  }

  /** A link is a key exactly when some visited download carries it. */
  lemma {:induction false} IndexKeysAreLinks(ds: seq<Download>, k: string)
    ensures k in IndexSpec(ds) <==> exists i | 0 <= i < |ds| :: HasLink(ds[i], k)
  {
    if ds != [] {
      var init := ds[..|ds| - 1];
      IndexKeysAreLinks(init, k);
      if exists i | 0 <= i < |init| :: HasLink(init[i], k) {
        var i :| 0 <= i < |init| && HasLink(init[i], k);
        assert HasLink(ds[i], k);
      }
      if exists i | 0 <= i < |ds| :: HasLink(ds[i], k) {
        var i :| 0 <= i < |ds| && HasLink(ds[i], k);
        if i < |init| {
          assert HasLink(init[i], k);
        }
      }
    }
  }

  /** The generation instant of a download whose date parses. */
  function Instant(d: Download): int {
    match d.generated
    case Some(At(t)) => t
    case _ => 0
  }

  /** `d` is `ds[j]` and sorts as the newest download with link `k`, the
      earliest listed among equals. */
  predicate NewestAt(ds: seq<Download>, k: string, j: nat) {
    j < |ds| && HasLink(ds[j], k) &&
    (forall i | 0 <= i < j && HasLink(ds[i], k) :: Instant(ds[i]) < Instant(ds[j])) &&
    (forall i | j < i < |ds| && HasLink(ds[i], k) :: Instant(ds[i]) <= Instant(ds[j]))
  }

  /** When every download with link `k` carries a parseable date, the index
      keeps the newest one, and of several equally new the first listed. */
  lemma {:induction false} IndexKeepsNewest(ds: seq<Download>, k: string)
    requires forall i | 0 <= i < |ds| && HasLink(ds[i], k) :: Parses(ds[i].generated)
    requires k in IndexSpec(ds)
    ensures exists j | 0 <= j < |ds| :: NewestAt(ds, k, j) && IndexSpec(ds)[k] == ds[j]
  {
    var init := ds[..|ds| - 1];
    var last := ds[|ds| - 1];
    assert forall i | 0 <= i < |init| :: init[i] == ds[i];
    if k in IndexSpec(init) {
      IndexKeepsNewest(init, k);
      var j :| 0 <= j < |init| && NewestAt(init, k, j) && IndexSpec(init)[k] == init[j];
      if HasLink(last, k) && Instant(last) > Instant(ds[j]) {
        assert Newer(IndexSpec(init)[k], last);
        NewestReplaced(ds, k, j);
      } else {
        assert IndexSpec(ds)[k] == ds[j];
        NewestKept(ds, k, j);
      }
    } else {
      IndexKeysAreLinks(init, k);
      forall i | 0 <= i < |ds| - 1
        ensures !HasLink(ds[i], k)
      {
        assert init[i] == ds[i];
      }
      NewestFirstSeen(ds, k);
    }
  }

  lemma NewestReplaced(ds: seq<Download>, k: string, j: nat)
    requires ds != [] && NewestAt(ds[..|ds| - 1], k, j)
    requires HasLink(ds[|ds| - 1], k) && Instant(ds[|ds| - 1]) > Instant(ds[j])
    ensures NewestAt(ds, k, |ds| - 1)
  {
    var init := ds[..|ds| - 1];
    forall i | 0 <= i < |ds| - 1 && HasLink(ds[i], k)
      ensures Instant(ds[i]) < Instant(ds[|ds| - 1])
    {
      assert init[i] == ds[i];
      if i < j {
      } else if i > j {
      }
    }
  }

  lemma NewestKept(ds: seq<Download>, k: string, j: nat)
    requires ds != [] && NewestAt(ds[..|ds| - 1], k, j)
    requires !(HasLink(ds[|ds| - 1], k) && Instant(ds[|ds| - 1]) > Instant(ds[j]))
    ensures NewestAt(ds, k, j)
  {
    var init := ds[..|ds| - 1];
    assert forall i | 0 <= i < |init| :: init[i] == ds[i];
  }

  lemma NewestFirstSeen(ds: seq<Download>, k: string)
    requires ds != [] && HasLink(ds[|ds| - 1], k)
    requires forall i | 0 <= i < |ds| - 1 :: !HasLink(ds[i], k)
    ensures NewestAt(ds, k, |ds| - 1)
  {
  }

  /** When no download with link `k` carries a parseable date, the first
      one listed is kept. */
  lemma {:induction false} IndexKeepsFirstUndated(ds: seq<Download>, k: string, j: nat)
    requires j < |ds| && HasLink(ds[j], k)
    requires forall i | 0 <= i < j :: !HasLink(ds[i], k)
    requires forall i | 0 <= i < |ds| && HasLink(ds[i], k) :: !Parses(ds[i].generated)
    ensures k in IndexSpec(ds) && IndexSpec(ds)[k] == ds[j]
  {
    var init := ds[..|ds| - 1];
    assert forall i | 0 <= i < |init| :: init[i] == ds[i];
    if j < |ds| - 1 {
      IndexKeepsFirstUndated(init, k, j);
    } else {
      IndexKeysAreLinks(init, k);
    }
  }
}
