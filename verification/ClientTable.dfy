/** From the service's two-level neighbour table to the map a client holds: a dump iterates over both
    levels, and the client ends up with each entry of the table exactly once. */
module ClientTable {
  import opened Common
  import opened V = ClientSnapshot
  import C = ClientConnection
  import T = NeighbourTable

  /** The two identifiers of a neighbour. */
  type Key = (Bytes, Bytes)

  function TableKeys(t: T.Table): set<Key> {
    set c, p | c in t && p in t[c] :: (c, p)
  }

  predicate ListsPorts(es: seq<T.Entry>, ports: T.Ports) {
    && (forall i, j :: 0 <= i < j < |es| ==> es[i].port != es[j].port)
    && (forall e <- es :: e.port in ports && ports[e.port] == e)
    && (forall p <- ports :: ports[p] in es)
  }

  /** `groups` iterates over the table: every chassis once, and every port of it once, in any order. */
  predicate Lists(groups: seq<Group>, t: T.Table) {
    && (forall i, j :: 0 <= i < j < |groups| ==> groups[i].chassis != groups[j].chassis)
    && (forall g <- groups :: g.chassis in t && ListsPorts(g.entries, t[g.chassis]))
    && (forall c <- t :: exists g <- groups :: g.chassis == c)
  }

  // ---------- The identifiers in the order of the dump ----------

  function EntryKeys(chassis: Bytes, es: seq<T.Entry>): (r: seq<Key>)
    ensures |r| == |es|
  {
    seq(|es|, i requires 0 <= i < |es| => (chassis, es[i].port))
  }

  function KeysOf(groups: seq<Group>): seq<Key> {
    if groups == [] then [] else EntryKeys(groups[0].chassis, groups[0].entries) + KeysOf(groups[1..])
  }

  predicate Distinct<X(==)>(s: seq<X>) {
    forall i, j :: 0 <= i < j < |s| ==> s[i] != s[j]
  }

  lemma {:induction false} DistinctSize<X>(s: seq<X>)
    requires Distinct(s)
    ensures |set x | x in s| == |s|
  {
    if s != [] {
      var front, last := s[..|s| - 1], s[|s| - 1];
      DistinctSize(front);
      assert (set x | x in s) == (set x | x in front) + {last};
    }
  }

  /** The identifiers a listing goes through are those of its entries. */
  lemma {:induction false} KeysFrom(groups: seq<Group>, k: Key)
    ensures k in KeysOf(groups) <==> exists g <- groups, e <- g.entries :: k == (g.chassis, e.port)
  {
    if groups != [] {
      var first := EntryKeys(groups[0].chassis, groups[0].entries);
      KeysFrom(groups[1..], k);
      if k in first {
        var i :| 0 <= i < |first| && first[i] == k;
        assert groups[0] in groups && groups[0].entries[i] in groups[0].entries;
      }
      if g, e :| g in groups && e in g.entries && k == (g.chassis, e.port) {
        if g == groups[0] {
          var i :| 0 <= i < |g.entries| && g.entries[i] == e;
          assert first[i] == k;
        } else {
          assert g in groups[1..];
        }
      }
    }
  }

  predicate DistinctChassis(groups: seq<Group>) {
    && (forall i, j :: 0 <= i < j < |groups| ==> groups[i].chassis != groups[j].chassis)
    && (forall g <- groups :: forall i, j :: 0 <= i < j < |g.entries| ==> g.entries[i].port != g.entries[j].port)
  }

  lemma DistinctAppend<X>(a: seq<X>, b: seq<X>)
    requires Distinct(a) && Distinct(b) && forall x <- a :: x !in b
    ensures Distinct(a + b)
  {
    var s := a + b;
    forall i, j | 0 <= i < j < |s| ensures s[i] != s[j] {
      if i < |a| <= j {
        assert a[i] in a && b[j - |a|] in b;
      }
    }
  }

  lemma {:induction false} KeysDistinct(groups: seq<Group>)
    requires DistinctChassis(groups)
    ensures Distinct(KeysOf(groups))
  {
    if groups != [] {
      var g, rest := groups[0], groups[1..];
      var first := EntryKeys(g.chassis, g.entries);
      KeysDistinct(rest);
      forall h | h in rest ensures h.chassis != g.chassis {
        var i :| 0 <= i < |rest| && rest[i] == h;
        assert groups[0].chassis != groups[i + 1].chassis;
      }
      forall k | k in first ensures k !in KeysOf(rest) {
        KeysFrom(rest, k);
      }
      DistinctAppend(first, KeysOf(rest));
    }
  }

  /** What the client is told of the neighbour under a key. */
  function ToldAt(t: T.Table, k: Key, devices: Devices): Device
    requires k in TableKeys(t)
  {
    SeenDevice(Told(k.0), t[k.0][k.1], devices)
  }

  predicate TakenFrom(g: Group, t: T.Table) {
    g.chassis in t && forall e <- g.entries :: e.port in t[g.chassis] && t[g.chassis][e.port] == e
  }

  /** The devices told are those of the identifiers, position by position. */
  predicate Matches(told: seq<Device>, ks: seq<Key>, t: T.Table, devices: Devices) {
    && |told| == |ks|
    && forall i :: 0 <= i < |ks| ==> ks[i] in TableKeys(t) && told[i] == ToldAt(t, ks[i], devices)
  }

  lemma MatchesAppend(a: seq<Device>, k: seq<Key>, b: seq<Device>, l: seq<Key>, t: T.Table, devices: Devices)
    requires Matches(a, k, t, devices) && Matches(b, l, t, devices)
    ensures Matches(a + b, k + l, t, devices)
  {
  }

  lemma GroupToldByKeys(g: Group, t: T.Table, devices: Devices)
    requires TakenFrom(g, t)
    ensures Matches(SeenEntries(Told(g.chassis), g.entries, devices), EntryKeys(g.chassis, g.entries), t, devices)
  {
    assert forall i :: 0 <= i < |g.entries| ==> g.entries[i] in g.entries;
  }

  lemma {:induction false} ToldByKeys(groups: seq<Group>, t: T.Table, devices: Devices)
    requires forall g <- groups :: TakenFrom(g, t)
    ensures Matches(ToldAll(groups, devices), KeysOf(groups), t, devices)
  {
    if groups != [] {
      var g := groups[0];
      assert TakenFrom(g, t);
      GroupToldByKeys(g, t, devices);
      ToldByKeys(groups[1..], t, devices);
      MatchesAppend(SeenEntries(Told(g.chassis), g.entries, devices), EntryKeys(g.chassis, g.entries),
                    ToldAll(groups[1..], devices), KeysOf(groups[1..]), t, devices);
    }
  }

  lemma ListingHas(groups: seq<Group>, t: T.Table, k: Key)
    requires T.WellFormed(t) && Lists(groups, t)
    ensures k in KeysOf(groups) <==> k in TableKeys(t)
  {
    KeysFrom(groups, k);
    if k in TableKeys(t) {
      var g :| g in groups && g.chassis == k.0;
      var e := t[k.0][k.1];
      assert e in g.entries && e.port == k.1;
    }
  }

  /** A listing goes through every key of the table exactly once. */
  lemma ListingCovers(groups: seq<Group>, t: T.Table)
    requires T.WellFormed(t) && Lists(groups, t)
    ensures Distinct(KeysOf(groups))
    ensures forall k :: k in KeysOf(groups) <==> k in TableKeys(t)
    ensures |KeysOf(groups)| == |TableKeys(t)|
  {
    KeysDistinct(groups);
    forall k ensures k in KeysOf(groups) <==> k in TableKeys(t) {
      ListingHas(groups, t, k);
    }
    KeysSize(KeysOf(groups), t);
  }

  // ---------- The client's map ----------

  /** Number i stands for the entry under the i-th of the keys, which are those of the table, each once. */
  ghost predicate MirrorsBy(known: map<Uint16, Device>, ks: seq<Key>, t: T.Table, devices: Devices) {
    && Distinct(ks)
    && (forall k :: k in ks <==> k in TableKeys(t))
    && known.Keys == Numbers(|ks|)
    && Positioned(known, ks, t, devices)
  }

  predicate Positioned(known: map<Uint16, Device>, ks: seq<Key>, t: T.Table, devices: Devices) {
    forall i :: 0 <= i < |ks| ==> i in known && ks[i] in TableKeys(t) && known[i] == ToldAt(t, ks[i], devices)
  }

  /** The client's map and the table correspond one to one. */
  ghost predicate Mirrors(known: map<Uint16, Device>, t: T.Table, devices: Devices) {
    exists ks :: MirrorsBy(known, ks, t, devices)
  }

  lemma NumbersFit(known: map<Uint16, Device>, n: nat)
    requires known.Keys == Numbers(n)
    ensures n <= COUNTERS
  {
    Subset(known.Keys, Numbers(COUNTERS));
  }

  lemma KeysSize(ks: seq<Key>, t: T.Table)
    requires Distinct(ks) && forall k :: k in ks <==> k in TableKeys(t)
    ensures |ks| == |TableKeys(t)|
  {
    DistinctSize(ks);
    assert (set k | k in ks) == TableKeys(t);
  }

  /** There are not enough numbers for more entries. */
  lemma MirrorsFit(known: map<Uint16, Device>, t: T.Table, devices: Devices)
    requires Mirrors(known, t, devices)
    ensures |TableKeys(t)| <= COUNTERS
  {
    var ks :| MirrorsBy(known, ks, t, devices);
    KeysSize(ks, t);
    NumbersFit(known, |ks|);
  }

  lemma ToldPositions(known: map<Uint16, Device>, told: seq<Device>, ks: seq<Key>, t: T.Table, devices: Devices)
    requires Matches(told, ks, t, devices)
    requires forall i :: 0 <= i < |told| ==> i in known && known[i] == told[i]
    ensures Positioned(known, ks, t, devices)
  {
  }

  /** A table has no chassis without a port, so its listings have no empty group. */
  lemma ListingApart(groups: seq<Group>, t: T.Table)
    requires T.WellFormed(t) && Lists(groups, t)
    ensures ChassisApart(groups)
  {
    forall g | g in groups ensures g.entries != [] {
      assert t[g.chassis] != map[];
      var p :| p in t[g.chassis];
      assert t[g.chassis][p] in g.entries;
    }
  }

  /** From table to client. However the maps are iterated over, the client's map and the table correspond
      one to one if and only if there are at most 65536 neighbours; the numbers then follow the
      iteration. */
  lemma TableRoundTrip(
    limit: nat, requestId: Uint16, groups: seq<Group>, t: T.Table, devices: Devices, rest: seq<C.Read>)
    requires T.WellFormed(t) && Lists(groups, t) && AllSendable(groups, devices)
    requires |C.Dump(requestId, groups, devices)| <= limit
    ensures C.Deliverable(C.Dump(requestId, groups, devices))
    ensures var dump := C.Delivered(C.Dump(requestId, groups, devices));
            var known := C.Drain(EMPTY_VIEW, C.ReadsOf(dump) + rest, limit).0.devices;
            && (Mirrors(known, t, devices) <==> |TableKeys(t)| <= COUNTERS)
            && (|TableKeys(t)| <= COUNTERS ==> MirrorsBy(known, KeysOf(groups), t, devices))
  {
    C.SnapshotRoundTrip(limit, requestId, groups, devices, rest);
    var dump := C.Delivered(C.Dump(requestId, groups, devices));
    var known := C.Drain(EMPTY_VIEW, C.ReadsOf(dump) + rest, limit).0.devices;
    ListingApart(groups, t);
    ListingCovers(groups, t);
    ToldByKeys(groups, t, devices);
    if |TableKeys(t)| <= COUNTERS {
      ToldPositions(known, ToldAll(groups, devices), KeysOf(groups), t, devices);
      assert MirrorsBy(known, KeysOf(groups), t, devices);
    }
    if Mirrors(known, t, devices) {
      MirrorsFit(known, t, devices);
    }
  }
}
