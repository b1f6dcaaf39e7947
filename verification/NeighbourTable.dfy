/** The receiver's two-level table of neighbours, keyed by chassis and then by port: insertion,
    the simple ageing filter, its laws, and what any history of frames and ticks leaves in it. */
module NeighbourTable {
  import opened Common

  datatype Entry = Entry(
    chassis: Bytes,
    port: Bytes,
    interfaceIndex: Uint16,
    ttl: Uint16,
    ipv4: Option<Ipv4>,
    ipv6: Option<Ipv6>)

  type Ports = map<Bytes, Entry>
  type Table = map<Bytes, Ports>

  /** No chassis without a port, and every entry is stored under its own identifiers. */
  ghost predicate WellFormed(t: Table) {
    forall c <- t :: t[c] != map[] && forall p <- t[c] :: t[c][p].chassis == c && t[c][p].port == p
  }

  function Lookup(t: Table, chassis: Bytes, port: Bytes): Option<Entry> {
    if chassis in t && port in t[chassis] then Some(t[chassis][port]) else None
  }

  function PortsOf(t: Table, chassis: Bytes): Ports {
    if chassis in t then t[chassis] else map[]
  }

  function Insert(t: Table, e: Entry): Table {
    t[e.chassis := PortsOf(t, e.chassis)[e.port := e]]
  }

  // ---------- Ageing as a filter ----------

  predicate Survives(e: Entry, d: nat) {
    e.ttl > d
  }

  function AgeEntry(e: Option<Entry>, d: nat): Option<Entry> {
    if e.Some? && Survives(e.value, d) then Some(e.value.(ttl := e.value.ttl - d)) else None
  }

  lemma AgeEntryTwice(e: Option<Entry>, a: nat, b: nat)
    ensures AgeEntry(AgeEntry(e, a), b) == AgeEntry(e, a + b)
  {
  }

  function AgePorts(ports: Ports, d: nat): Ports {
    map p | p in ports && Survives(ports[p], d) :: ports[p].(ttl := ports[p].ttl - d)
  }

  /** Drop the entries whose time to live is at most `d`, subtract `d` from the others, and drop
      the chassis left without a port. */
  function Age(t: Table, d: nat): Table {
    DropEmpty(map c | c in t :: AgePorts(t[c], d))
  }

  function DropEmpty(t: Table): Table {
    map c | c in t && t[c] != map[] :: t[c]
  }

  lemma LookupAge(t: Table, d: nat, chassis: Bytes, port: Bytes)
    ensures Lookup(Age(t, d), chassis, port) == AgeEntry(Lookup(t, chassis, port), d)
  {
    if chassis in t && port in AgePorts(t[chassis], d) {
      assert AgePorts(t[chassis], d) != map[];
    }
  }

  lemma LookupInsert(t: Table, e: Entry, chassis: Bytes, port: Bytes)
    ensures Lookup(Insert(t, e), chassis, port)
         == if chassis == e.chassis && port == e.port then Some(e) else Lookup(t, chassis, port)
  {
  }

  lemma InsertKeeps(t: Table, e: Entry)
    requires WellFormed(t)
    ensures WellFormed(Insert(t, e))
  {
    var r := Insert(t, e);
    assert e.port in r[e.chassis];
  }

  lemma AgeKeeps(t: Table, d: nat)
    requires WellFormed(t)
    ensures WellFormed(Age(t, d))
  {
  }

  /** Well-formed tables are determined by their lookups. */
  lemma SameLookups(t: Table, u: Table)
    requires WellFormed(t) && WellFormed(u)
    requires forall c, p :: Lookup(t, c, p) == Lookup(u, c, p)
    ensures t == u
  {
    KeysIncluded(t, u);
    KeysIncluded(u, t);
    forall c | c in t ensures t[c] == u[c] {
      forall p ensures p in t[c] <==> p in u[c] {
        assert Lookup(t, c, p) == Lookup(u, c, p);
      }
      forall p | p in t[c] ensures t[c][p] == u[c][p] {
        assert Lookup(t, c, p) == Lookup(u, c, p);
      }
    }
  }

  lemma KeysIncluded(t: Table, u: Table)
    requires WellFormed(t)
    requires forall c, p :: Lookup(t, c, p) == Lookup(u, c, p)
    ensures t.Keys <= u.Keys
  {
    forall c | c in t ensures c in u {
      assert t[c] != map[];
      var p :| p in t[c];
      assert Lookup(t, c, p) == Lookup(u, c, p);
    }
  }

  lemma AgePortsTwice(ports: Ports, a: nat, b: nat)
    ensures AgePorts(AgePorts(ports, a), b) == AgePorts(ports, a + b)
  {
  }

  lemma AgeAt(t: Table, d: nat, c: Bytes)
    ensures c in Age(t, d) <==> c in t && AgePorts(t[c], d) != map[]
    ensures c in Age(t, d) ==> Age(t, d)[c] == AgePorts(t[c], d)
  {
  }

  lemma SameMap<K, V>(m: map<K, V>, n: map<K, V>)
    requires forall k :: k in m <==> k in n
    requires forall k <- m :: m[k] == n[k]
    ensures m == n
  {
  }

  lemma AgedTwiceAt(t: Table, a: nat, b: nat, c: Bytes)
    ensures c in Age(Age(t, a), b) <==> c in Age(t, a + b)
    ensures c in Age(t, a + b) ==> Age(Age(t, a), b)[c] == Age(t, a + b)[c]
  {
    AgeAt(Age(t, a), b, c);
    AgeAt(t, a, c);
    AgeAt(t, a + b, c);
    if c in t {
      AgePortsTwice(t[c], a, b);
    }
  }

  /** Ageing by `a` and then by `b` is ageing by `a + b`. */
  lemma AgeIsAdditive(t: Table, a: nat, b: nat)
    ensures Age(Age(t, a), b) == Age(t, a + b)
  {
    forall c
      ensures c in Age(Age(t, a), b) <==> c in Age(t, a + b)
      ensures c in Age(t, a + b) ==> Age(Age(t, a), b)[c] == Age(t, a + b)[c]
    {
      AgedTwiceAt(t, a, b, c);
    }
    SameMap(Age(Age(t, a), b), Age(t, a + b));
  }

  // ---------- Histories ----------

  datatype Happening = Heard(entry: Entry) | Passed(seconds: nat)

  function After(history: seq<Happening>): Table {
    if history == [] then map[] else
      var before := After(history[..|history| - 1]);
      match history[|history| - 1]
      case Heard(e) => Insert(before, e)
      case Passed(d) => Age(before, d)
  }

  /** The latest entry heard for a chassis and port, how often time passed since, and for how long;
      read off the history alone. */
  datatype Latest = Never | At(entry: Entry, ticks: nat, seconds: nat)

  function LatestOf(history: seq<Happening>, chassis: Bytes, port: Bytes): Latest {
    if history == [] then Never else
      var before := LatestOf(history[..|history| - 1], chassis, port);
      match history[|history| - 1]
      case Heard(e) => if e.chassis == chassis && e.port == port then At(e, 0, 0) else before
      case Passed(d) => Later(before, d)
  }

  function Later(l: Latest, d: nat): Latest {
    if l.Never? then Never else At(l.entry, l.ticks + 1, l.seconds + d)
  }

  /** Present exactly when no tick followed the latest frame or the later ticks sum to less than its
      time to live; what is left of that is the difference. */
  function Expected(l: Latest): Option<Entry> {
    if l.Never? then None
    else if l.ticks == 0 then Some(l.entry)
    else AgeEntry(Some(l.entry), l.seconds)
  }

  lemma {:induction false} LatestIsFresh(history: seq<Happening>, chassis: Bytes, port: Bytes)
    ensures var l := LatestOf(history, chassis, port);
            l.At? ==> l.entry.chassis == chassis && l.entry.port == port && (l.ticks == 0 ==> l.seconds == 0)
  {
    if history != [] {
      LatestIsFresh(history[..|history| - 1], chassis, port);
    }
  }

  lemma {:induction false} HistoryWellFormed(history: seq<Happening>)
    ensures WellFormed(After(history))
  {
    if history != [] {
      var front := history[..|history| - 1];
      HistoryWellFormed(front);
      match history[|history| - 1]
      case Heard(e) => InsertKeeps(After(front), e);
      case Passed(d) => AgeKeeps(After(front), d);
    }
  }

  lemma ExpectedAges(l: Latest, d: nat)
    requires l.At? && l.ticks == 0 ==> l.seconds == 0
    ensures AgeEntry(Expected(l), d) == Expected(Later(l, d))
  {
  }

  /** The table after any history holds, for every key, exactly what the history says. */
  lemma {:induction false} TableHistory(history: seq<Happening>, chassis: Bytes, port: Bytes)
    ensures Lookup(After(history), chassis, port) == Expected(LatestOf(history, chassis, port))
  {
    if history != [] {
      var front := history[..|history| - 1];
      TableHistory(front, chassis, port);
      LatestIsFresh(front, chassis, port);
      match history[|history| - 1]
      case Heard(e) => LookupInsert(After(front), e, chassis, port);
      case Passed(d) =>
        LookupAge(After(front), d, chassis, port);
        ExpectedAges(LatestOf(front, chassis, port), d);
    }
  }
}
