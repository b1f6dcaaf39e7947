/** The registry of event handlers: a transition system over all managers and handlers of a program,
    what its runs keep, and the objects that refine it. Outcomes of epoll calls are parameters. */
module EventManagerObject {
  import opened Common

  // ---------- The registry on plain values ----------

  /** What a manager holds. `epoll` identifies its epoll instance; a manager moved from has none. */
  datatype Registry = Registry(registered: map<nat, EventHandler>, counter: nat, epoll: Option<nat>)

  /** What a handler holds. It is `expired` once its last owner has let it go. */
  datatype Record = Record(manager: EventManager?, handle: nat, expired: bool)

  datatype World = World(managers: map<EventManager, Registry>, handlers: map<EventHandler, Record>)

  predicate Live(w: World, x: EventHandler) {
    x in w.handlers && !w.handlers[x].expired
  }

  predicate Removes(w: World, m: EventManager, handle: nat, deregistered: bool)
    requires m in w.managers
  {
    handle in w.managers[m].registered && (Live(w, w.managers[m].registered[handle]) ==> deregistered)
  }

  /** A live handler whose deregistration fails stays. */
  function RemoveState(w: World, m: EventManager, handle: nat, deregistered: bool): World
    requires m in w.managers
  {
    if !Removes(w, m, handle, deregistered) then w else
      var registry := w.managers[m];
      var x := registry.registered[handle];
      World(
        w.managers[m := registry.(registered := registry.registered - {handle})],
        if Live(w, x) then w.handlers[x := Record(null, 0, false)] else w.handlers)
  }

  /** A handler leaves the manager it is on, if any. */
  function LeaveState(w: World, x: EventHandler, deregistered: bool): World
    requires x in w.handlers
  {
    var r := w.handlers[x];
    if r.manager != null && r.handle != 0 && r.manager in w.managers then
      RemoveState(w, r.manager, r.handle, deregistered)
    else
      w
  }

  function From(registered: map<nat, EventHandler>, from: nat): set<nat> {
    set h | h in registered && h >= from
  }

  lemma FewerFrom(registered: map<nat, EventHandler>, from: nat)
    requires from in registered
    ensures |From(registered, from + 1)| < |From(registered, from)|
  {
    assert From(registered, from) == From(registered, from + 1) + {from};
  }

  /** The first handle from `from` on that is not registered. */
  function FreeHandle(registered: map<nat, EventHandler>, from: nat): nat
    decreases |From(registered, from)|
  {
    if from !in registered then from else
      FewerFrom(registered, from);
      FreeHandle(registered, from + 1)
  }

  lemma {:induction false} FirstFree(registered: map<nat, EventHandler>, from: nat)
    ensures var free := FreeHandle(registered, from);
            free >= from && free !in registered && forall h :: from <= h < free ==> h in registered
    decreases |From(registered, from)|
  {
    if from in registered {
      FewerFrom(registered, from);
      FirstFree(registered, from + 1);
    }
  }

  /** A handler is registered under the next free handle, if epoll accepts it. */
  function EnterState(w: World, m: EventManager, x: EventHandler, accepted: bool): World
    requires m in w.managers && x in w.handlers
  {
    var r := w.managers[m];
    var handle := FreeHandle(r.registered, r.counter);
    if !accepted then
      w.(managers := w.managers[m := r.(counter := handle)])
    else
      World(
        w.managers[m := r.(registered := r.registered[handle := x], counter := handle + 1)],
        w.handlers[x := Record(m, handle, w.handlers[x].expired)])
  }

  function AddState(w: World, m: EventManager, x: EventHandler, deregistered: bool, accepted: bool): World
    requires m in w.managers && x in w.handlers
  {
    EnterState(LeaveState(w, x, deregistered), m, x, accepted)
  }

  function Expired(w: World, x: EventHandler): World
    requires x in w.handlers
  {
    w.(handlers := w.handlers[x := w.handlers[x].(expired := true)])
  }

  /** The destructor: the manager can no longer lock the handler, so it only forgets it. */
  function DestroyState(w: World, x: EventHandler): World
    requires x in w.handlers
  {
    LeaveState(Expired(w, x), x, true)
  }

  /** Expired handlers are forgotten, for which only their handle is erased. */
  function ForgetState(w: World, m: EventManager): World
    requires m in w.managers
  {
    var registry := w.managers[m];
    w.(managers := w.managers[m := registry.(registered :=
      map h | h in registry.registered && Live(w, registry.registered[h]) :: registry.registered[h])])
  }

  /** The handles live handlers are met under last when a registry is gone through, in some order. */
  type Order = map<EventHandler, nat>

  /** The handle a handler on the registry is left with: the one it is met under last. An order that does
      not tell leaves any one of them. */
  ghost function HandleIn(registered: map<nat, EventHandler>, x: EventHandler, order: Order): (h: nat)
    requires x in registered.Values
    ensures h in registered && registered[h] == x
  {
    if x in order && order[x] in registered && registered[order[x]] == x then order[x]
    else
      var h :| h in registered && registered[h] == x;
      h
  }

  /** The live handlers follow the registry and the epoll instance to a new manager. */
  ghost function MoveState(w: World, m: EventManager, to: EventManager, order: Order): World
    requires m in w.managers && to !in w.managers
  {
    var registry := w.managers[m];
    World(
      w.managers[m := Registry(map[], 1, None)][to := registry],
      map x | x in w.handlers ::
        if Live(w, x) && x in registry.registered.Values then Record(to, HandleIn(registry.registered, x, order), false)
        else w.handlers[x])
  }

  /** The live handler a ready handle is dispatched to. */
  function Target(w: World, m: EventManager, handle: nat): Option<EventHandler>
    requires m in w.managers
  {
    if handle in w.managers[m].registered && Live(w, w.managers[m].registered[handle]) then
      Some(w.managers[m].registered[handle])
    else
      None
  }

  // ---------- Runs ----------

  /** `handle` was given to `handler` on an epoll instance. */
  datatype Grant = Grant(epoll: nat, handle: nat, handler: EventHandler)

  datatype History = History(world: World, epolls: nat, grants: seq<Grant>)

  const NOTHING := History(World(map[], map[]), 0, [])

  datatype Event =
    | NewManager(manager: EventManager)
    | NewHandler(handler: EventHandler)
    | Add(manager: EventManager, handler: EventHandler, deregistered: bool, accepted: bool)
    | Remove(manager: EventManager, handle: nat, deregistered: bool)
    | Destroy(handler: EventHandler)
    | Process(manager: EventManager)
    | Move(manager: EventManager, to: EventManager, order: Order)

  function Entered(s: History, m: EventManager, x: EventHandler, accepted: bool): History
    requires m in s.world.managers && x in s.world.handlers
  {
    var r := s.world.managers[m];
    var taken := accepted && r.epoll.Some?;
    s.(world := EnterState(s.world, m, x, taken),
       grants := if taken then s.grants + [Grant(r.epoll.value, FreeHandle(r.registered, r.counter), x)] else s.grants)
  }

  function Left(s: History, x: EventHandler, deregistered: bool): History
    requires x in s.world.handlers
  {
    s.(world := LeaveState(s.world, x, deregistered))
  }

  /** An event on objects that do not exist does nothing; epoll accepts nothing from a manager that
      was moved from. */
  ghost function Step(s: History, e: Event): History {
    var w := s.world;
    match e
    case NewManager(m) =>
      if m in w.managers then s else
        s.(world := w.(managers := w.managers[m := Registry(map[], 1, Some(s.epolls))]), epolls := s.epolls + 1)
    case NewHandler(x) =>
      if x in w.handlers then s else s.(world := w.(handlers := w.handlers[x := Record(null, 0, false)]))
    case Add(m, x, deregistered, accepted) =>
      if m !in w.managers || !Live(w, x) then s else Entered(Left(s, x, deregistered), m, x, accepted)
    case Remove(m, handle, deregistered) =>
      if m !in w.managers then s else s.(world := RemoveState(w, m, handle, deregistered))
    case Destroy(x) =>
      if !Live(w, x) then s else s.(world := DestroyState(w, x))
    case Process(m) =>
      if m !in w.managers then s else s.(world := ForgetState(w, m))
    case Move(m, to, order) =>
      if m !in w.managers || to in w.managers then s else s.(world := MoveState(w, m, to, order))
  }

  ghost function Run(s: History, es: seq<Event>): History
    decreases |es|
  {
    if es == [] then s else Run(Step(s, es[0]), es[1..])
  }

  // ---------- Handles are never reused ----------

  predicate RegistryRecorded(r: Registry, epolls: nat, grants: seq<Grant>) {
    && r.counter >= 1
    && match r.epoll
       case None => r.registered == map[]
       case Some(e) =>
         && e < epolls
         && (forall h <- r.registered :: Grant(e, h, r.registered[h]) in grants)
         && (forall g <- grants :: g.epoll == e ==> 1 <= g.handle < r.counter)
  }

  /** No two managers share an epoll instance. */
  predicate Apart(managers: map<EventManager, Registry>) {
    forall m <- managers, n <- managers ::
      m != n && managers[m].epoll.Some? ==> managers[n].epoll != managers[m].epoll
  }

  /** No handle of an epoll instance is given out twice. */
  predicate NeverReused(grants: seq<Grant>) {
    forall i, j :: 0 <= i < j < |grants| ==>
      grants[i].epoll != grants[j].epoll || grants[i].handle != grants[j].handle
  }

  /** Managers know only handlers that exist, and the other way round. */
  predicate Closed(w: World) {
    && (forall m <- w.managers, h <- w.managers[m].registered :: w.managers[m].registered[h] in w.handlers)
    && (forall x <- w.handlers :: w.handlers[x].manager != null ==> w.handlers[x].manager in w.managers)
  }

  /** Every registered handle was given out by its epoll instance, to the handler it stands for. */
  predicate Recorded(s: History) {
    && (forall m <- s.world.managers :: RegistryRecorded(s.world.managers[m], s.epolls, s.grants))
    && Apart(s.world.managers)
    && (forall g <- s.grants :: g.epoll < s.epolls)
    && NeverReused(s.grants)
    && Closed(s.world)
  }

  /** `after` has lost handles at most. */
  predicate Shrunk(before: Registry, after: Registry) {
    && after.epoll == before.epoll
    && after.counter >= before.counter
    && after.registered.Keys <= before.registered.Keys
    && (forall h <- after.registered :: after.registered[h] == before.registered[h])
  }

  predicate AllShrunk(before: map<EventManager, Registry>, after: map<EventManager, Registry>) {
    before.Keys == after.Keys && forall m <- before :: Shrunk(before[m], after[m])
  }

  lemma ShrunkIsRecorded(s: History, t: History)
    requires Recorded(s) && AllShrunk(s.world.managers, t.world.managers)
    requires t.epolls == s.epolls && t.grants == s.grants && Closed(t.world)
    ensures Recorded(t)
  {
    forall m | m in t.world.managers ensures RegistryRecorded(t.world.managers[m], s.epolls, s.grants) {
      assert RegistryRecorded(s.world.managers[m], s.epolls, s.grants);
    }
  }

  lemma RemoveShrinks(w: World, m: EventManager, handle: nat, deregistered: bool)
    requires m in w.managers
    ensures var v := RemoveState(w, m, handle, deregistered);
            AllShrunk(w.managers, v.managers) && (Closed(w) ==> v.handlers.Keys == w.handlers.Keys && Closed(v))
  {
  }

  lemma LeaveShrinks(w: World, x: EventHandler, deregistered: bool)
    requires x in w.handlers
    ensures var v := LeaveState(w, x, deregistered);
            AllShrunk(w.managers, v.managers) && (Closed(w) ==> v.handlers.Keys == w.handlers.Keys && Closed(v))
  {
    var r := w.handlers[x];
    if r.manager != null && r.manager in w.managers {
      RemoveShrinks(w, r.manager, r.handle, deregistered);
    }
  }

  lemma ForgetShrinks(w: World, m: EventManager)
    requires m in w.managers
    ensures AllShrunk(w.managers, ForgetState(w, m).managers) && (Closed(w) ==> Closed(ForgetState(w, m)))
  {
  }

  /** The counter itself is free, so the search for a free handle ends where it starts. */
  lemma CounterIsFree(r: Registry, epolls: nat, grants: seq<Grant>)
    requires RegistryRecorded(r, epolls, grants)
    ensures FreeHandle(r.registered, r.counter) == r.counter
  {
  }

  lemma GrantAppended(grants: seq<Grant>, g: Grant)
    requires NeverReused(grants)
    requires forall k <- grants :: k.epoll != g.epoll || k.handle != g.handle
    ensures NeverReused(grants + [g])
  {
  }

  lemma RefusedIsRecorded(s: History, m: EventManager, x: EventHandler, accepted: bool)
    requires Recorded(s) && m in s.world.managers && x in s.world.handlers
    requires !accepted || s.world.managers[m].epoll.None?
    ensures Recorded(Entered(s, m, x, accepted))
  {
    CounterIsFree(s.world.managers[m], s.epolls, s.grants);
    ShrunkIsRecorded(s, Entered(s, m, x, accepted));
  }

  lemma EnteredIsRecorded(s: History, m: EventManager, x: EventHandler, accepted: bool)
    requires Recorded(s) && m in s.world.managers && x in s.world.handlers
    ensures Recorded(Entered(s, m, x, accepted))
  {
    if !accepted || s.world.managers[m].epoll.None? {
      RefusedIsRecorded(s, m, x, accepted);
    } else {
      var t := Entered(s, m, x, accepted);
      var r := s.world.managers[m];
      assert RegistryRecorded(r, s.epolls, s.grants);
      CounterIsFree(r, s.epolls, s.grants);
      GrantAppended(s.grants, Grant(r.epoll.value, r.counter, x));
      forall n | n in t.world.managers ensures RegistryRecorded(t.world.managers[n], t.epolls, t.grants) {
        assert RegistryRecorded(s.world.managers[n], s.epolls, s.grants);
      }
    }
  }

  lemma LeftIsRecorded(s: History, x: EventHandler, deregistered: bool)
    requires Recorded(s) && x in s.world.handlers
    ensures Recorded(Left(s, x, deregistered))
  {
    LeaveShrinks(s.world, x, deregistered);
    ShrunkIsRecorded(s, Left(s, x, deregistered));
  }

  /** Steps that only lose handles. */
  lemma LosingIsRecorded(s: History, e: Event)
    requires Recorded(s) && (e.Remove? || e.Destroy? || e.Process?)
    ensures Recorded(Step(s, e))
  {
    match e
    case Remove(m, handle, deregistered) =>
      if m in s.world.managers {
        RemoveShrinks(s.world, m, handle, deregistered);
        ShrunkIsRecorded(s, Step(s, e));
      }
    case Destroy(x) =>
      if Live(s.world, x) {
        var expired := s.(world := Expired(s.world, x));
        ShrunkIsRecorded(s, expired);
        LeftIsRecorded(expired, x, true);
      }
    case Process(m) =>
      if m in s.world.managers {
        ForgetShrinks(s.world, m);
        ShrunkIsRecorded(s, Step(s, e));
      }
  }

  lemma MoveIsApart(w: World, m: EventManager, to: EventManager, order: Order)
    requires Apart(w.managers) && m in w.managers && to !in w.managers
    ensures Apart(MoveState(w, m, to, order).managers)
  {
    var managers := MoveState(w, m, to, order).managers;
    forall k, n | k in managers && n in managers && k != n && managers[k].epoll.Some?
      ensures managers[n].epoll != managers[k].epoll
    {
      var before := if k == to then m else k;
      var other := if n == to then m else n;
      assert before in w.managers && other in w.managers;
    }
  }

  lemma MoveIsRecorded(s: History, m: EventManager, to: EventManager, order: Order)
    requires Recorded(s)
    ensures Recorded(Step(s, Move(m, to, order)))
  {
    if m in s.world.managers && to !in s.world.managers {
      var t := Step(s, Move(m, to, order));
      MoveIsApart(s.world, m, to, order);
      forall n | n in t.world.managers ensures RegistryRecorded(t.world.managers[n], t.epolls, t.grants) {
        assert n != m ==> t.world.managers[n] == s.world.managers[if n == to then m else n];
      }
      assert t.world.handlers.Keys == s.world.handlers.Keys;
    }
  }

  lemma NewIsRecorded(s: History, e: Event)
    requires Recorded(s) && (e.NewManager? || e.NewHandler?)
    ensures Recorded(Step(s, e))
  {
  }

  lemma StepIsRecorded(s: History, e: Event)
    requires Recorded(s)
    ensures Recorded(Step(s, e))
    ensures s.grants <= Step(s, e).grants
  {
    match e
    case Add(m, x, deregistered, accepted) =>
      if m in s.world.managers && Live(s.world, x) {
        LeftIsRecorded(s, x, deregistered);
        LeaveShrinks(s.world, x, deregistered);
        EnteredIsRecorded(Left(s, x, deregistered), m, x, accepted);
      }
    case Move(m, to, order) => MoveIsRecorded(s, m, to, order);
    case NewManager(_) => NewIsRecorded(s, e);
    case NewHandler(_) => NewIsRecorded(s, e);
    case _ => LosingIsRecorded(s, e);
  }

  /** In every run, whatever the outcomes of the epoll calls, every registered handle is below the
      counter of its manager and was given out once, to the handler it stands for. */
  lemma {:induction false} RunIsRecorded(s: History, es: seq<Event>)
    requires Recorded(s)
    ensures Recorded(Run(s, es))
    ensures s.grants <= Run(s, es).grants
    decreases |es|
  {
    if es != [] {
      StepIsRecorded(s, es[0]);
      RunIsRecorded(Step(s, es[0]), es[1..]);
    }
  }

  /** Some manager holds the epoll instance and has the handle registered. */
  predicate Registered(w: World, epoll: nat, handle: nat) {
    exists m <- w.managers :: w.managers[m].epoll == Some(epoll) && handle in w.managers[m].registered
  }

  lemma GrantedOnce(grants: seq<Grant>, g: Grant, k: Grant)
    requires NeverReused(grants) && g in grants && k in grants
    requires g.epoll == k.epoll && g.handle == k.handle
    ensures g == k
  {
    var i :| 0 <= i < |grants| && grants[i] == g;
    var j :| 0 <= j < |grants| && grants[j] == k;
    assert i == j;
  }

  lemma EnteredNeverRevives(s: History, m: EventManager, x: EventHandler, accepted: bool, g: Grant)
    requires Recorded(s) && m in s.world.managers && x in s.world.handlers
    requires g in s.grants && !Registered(s.world, g.epoll, g.handle)
    ensures !Registered(Entered(s, m, x, accepted).world, g.epoll, g.handle)
  {
    CounterIsFree(s.world.managers[m], s.epolls, s.grants);
    var t := Entered(s, m, x, accepted).world;
    assert forall n <- t.managers :: n != m ==> t.managers[n] == s.world.managers[n];
  }

  lemma LosingNeverRevives(w: World, v: World, g: Grant)
    requires AllShrunk(w.managers, v.managers) && !Registered(w, g.epoll, g.handle)
    ensures !Registered(v, g.epoll, g.handle)
  {
    assert forall n <- v.managers :: Shrunk(w.managers[n], v.managers[n]);
  }

  lemma StepNeverRevives(s: History, e: Event, g: Grant)
    requires Recorded(s) && g in s.grants && !Registered(s.world, g.epoll, g.handle)
    ensures !Registered(Step(s, e).world, g.epoll, g.handle)
  {
    match e
    case Add(m, x, deregistered, accepted) =>
      if m in s.world.managers && Live(s.world, x) {
        LeaveShrinks(s.world, x, deregistered);
        LosingNeverRevives(s.world, LeaveState(s.world, x, deregistered), g);
        LeftIsRecorded(s, x, deregistered);
        EnteredNeverRevives(Left(s, x, deregistered), m, x, accepted, g);
      }
    case Move(m, to, order) =>
      if m in s.world.managers && to !in s.world.managers {
        var t := Step(s, e).world;
        assert forall n <- t.managers :: n != m && n != to ==> t.managers[n] == s.world.managers[n];
      }
    case _ =>
  }

  /** A handle that was given out and is no longer registered is never registered again. */
  lemma {:induction false} GoneForGood(s: History, es: seq<Event>, g: Grant)
    requires Recorded(s) && g in s.grants && !Registered(s.world, g.epoll, g.handle)
    ensures !Registered(Run(s, es).world, g.epoll, g.handle)
    decreases |es|
  {
    if es != [] {
      StepIsRecorded(s, es[0]);
      StepNeverRevives(s, es[0], g);
      GoneForGood(Step(s, es[0]), es[1..], g);
    }
  }

  /** Stale events. A ready handle may have been given out any time ago, and its epoll instance may have
      moved since: it is dispatched to the handler it was given to if and only if it is still registered and
      that handler is live, and to none otherwise; in particular to none if that handler had left before. */
  lemma StaleEvents(s: History, es: seq<Event>, g: Grant, m: EventManager)
    requires Recorded(s) && g in s.grants
    requires m in Run(s, es).world.managers && Run(s, es).world.managers[m].epoll == Some(g.epoll)
    ensures var w := Run(s, es).world;
            && Target(w, m, g.handle)
               == (if g.handle in w.managers[m].registered && Live(w, g.handler) then Some(g.handler) else None)
            && (!Registered(s.world, g.epoll, g.handle) ==> Target(w, m, g.handle).None?)
  {
    var t := Run(s, es);
    RunIsRecorded(s, es);
    var registry := t.world.managers[m];
    if g.handle in registry.registered {
      assert RegistryRecorded(registry, t.epolls, t.grants);
      GrantedOnce(t.grants, g, Grant(g.epoll, g.handle, registry.registered[g.handle]));
      if !Registered(s.world, g.epoll, g.handle) {
        GoneForGood(s, es, g);
      }
    }
  }

  // ---------- Handlers and registries agree ----------

  predicate PointsBack(w: World, m: EventManager, h: nat)
    requires m in w.managers && h in w.managers[m].registered
  {
    var x := w.managers[m].registered[h];
    Live(w, x) ==> w.handlers[x] == Record(m, h, false)
  }

  predicate Attached(w: World, x: EventHandler)
    requires x in w.handlers
  {
    var r := w.handlers[x];
    && (r.manager != null ==> r.handle >= 1)
    && (r.manager != null && !r.expired ==>
          && r.manager in w.managers
          && r.handle in w.managers[r.manager].registered
          && w.managers[r.manager].registered[r.handle] == x)
  }

  /** Each live handler's back pointer and handle agree with the registries, in both directions. */
  predicate Agrees(w: World) {
    && (forall m <- w.managers, h <- w.managers[m].registered :: PointsBack(w, m, h))
    && (forall x <- w.handlers :: Attached(w, x))
  }

  lemma RemoveAgrees(w: World, m: EventManager, handle: nat, deregistered: bool)
    requires Agrees(w) && m in w.managers
    ensures Agrees(RemoveState(w, m, handle, deregistered))
  {
    var v := RemoveState(w, m, handle, deregistered);
    forall n, h | n in v.managers && h in v.managers[n].registered ensures PointsBack(v, n, h) {
      assert PointsBack(w, n, h);
      if handle in w.managers[m].registered {
        assert PointsBack(w, m, handle);
      }
    }
    forall x | x in v.handlers ensures Attached(v, x) {
      assert Attached(w, x);
      if handle in w.managers[m].registered {
        assert PointsBack(w, m, handle);
      }
    }
  }

  /** A handler that has left is on no registry. */
  lemma LeaveAgrees(w: World, x: EventHandler)
    requires Agrees(w) && Live(w, x)
    ensures var v := LeaveState(w, x, true);
            && Agrees(v)
            && v.managers.Keys == w.managers.Keys
            && Live(v, x)
            && forall m <- v.managers, h <- v.managers[m].registered :: v.managers[m].registered[h] != x
  {
    assert Attached(w, x);
    var r := w.handlers[x];
    if r.manager != null {
      RemoveAgrees(w, r.manager, r.handle, true);
    }
    var v := LeaveState(w, x, true);
    forall m, h | m in v.managers && h in v.managers[m].registered ensures v.managers[m].registered[h] != x {
      assert PointsBack(w, m, h);
      assert PointsBack(v, m, h);
    }
  }

  /** Registering a handler that is on no registry. */
  lemma EnteredAgrees(s: History, m: EventManager, x: EventHandler, accepted: bool)
    requires Recorded(s) && Agrees(s.world) && m in s.world.managers && Live(s.world, x)
    requires forall n <- s.world.managers, h <- s.world.managers[n].registered :: s.world.managers[n].registered[h] != x
    ensures Agrees(Entered(s, m, x, accepted).world)
  {
    var w, v := s.world, Entered(s, m, x, accepted).world;
    CounterIsFree(w.managers[m], s.epolls, s.grants);
    forall n, h | n in v.managers && h in v.managers[n].registered ensures PointsBack(v, n, h) {
      if n != m || h != w.managers[m].counter {
        assert PointsBack(w, n, h);
      }
    }
    forall y | y in v.handlers ensures Attached(v, y) {
      assert Attached(w, y);
    }
  }

  /** A counter that moves on changes nothing else. */
  lemma RefusedAgrees(w: World, m: EventManager, x: EventHandler)
    requires Agrees(w) && m in w.managers && x in w.handlers
    ensures Agrees(EnterState(w, m, x, false))
  {
    var v := EnterState(w, m, x, false);
    forall n, h | n in v.managers && h in v.managers[n].registered ensures PointsBack(v, n, h) {
      assert PointsBack(w, n, h);
    }
    forall y | y in v.handlers ensures Attached(v, y) {
      assert Attached(w, y);
    }
  }

  lemma FailureDisagrees(s: History, m: EventManager, x: EventHandler)
    requires Recorded(s) && Agrees(s.world) && m in s.world.managers && Live(s.world, x)
    requires s.world.handlers[x].manager != null && s.world.managers[m].epoll.Some?
    ensures !Agrees(Step(s, Add(m, x, false, true)).world)
  {
    var w, t := s.world, Step(s, Add(m, x, false, true)).world;
    assert Attached(w, x);
    var r := w.handlers[x];
    assert LeaveState(w, x, false) == w;
    CounterIsFree(w.managers[m], s.epolls, s.grants);
    assert r.handle in t.managers[r.manager].registered;
    assert !PointsBack(t, r.manager, r.handle);
  }

  /** The exact condition: adding a handler keeps the agreement if and only if the handler was on no
      manager, was deregistered from it, or is not accepted by the new one. */
  lemma AddAgrees(s: History, m: EventManager, x: EventHandler, deregistered: bool, accepted: bool)
    requires Recorded(s) && Agrees(s.world) && m in s.world.managers && Live(s.world, x)
    ensures Agrees(Step(s, Add(m, x, deregistered, accepted)).world) <==>
            s.world.handlers[x].manager == null || deregistered || !accepted || s.world.managers[m].epoll.None?
  {
    if s.world.handlers[x].manager == null || deregistered {
      LeaveAgrees(s.world, x);
      LeftIsRecorded(s, x, deregistered);
      EnteredAgrees(Left(s, x, deregistered), m, x, accepted);
    } else if accepted && s.world.managers[m].epoll.Some? {
      FailureDisagrees(s, m, x);
    } else {
      assert Attached(s.world, x);
      assert Left(s, x, false) == s;
      RefusedAgrees(s.world, m, x);
    }
  }

  lemma MoveAgrees(w: World, m: EventManager, to: EventManager, order: Order)
    requires Agrees(w) && m in w.managers && to !in w.managers
    ensures Agrees(MoveState(w, m, to, order))
  {
    var v := MoveState(w, m, to, order);
    forall n, h | n in v.managers && h in v.managers[n].registered ensures PointsBack(v, n, h) {
      if n == to {
        assert PointsBack(w, m, h);
        assert PointsBack(w, m, HandleIn(w.managers[m].registered, w.managers[m].registered[h], order));
      } else {
        assert PointsBack(w, n, h);
      }
    }
    forall y | y in v.handlers ensures Attached(v, y) {
      assert Attached(w, y);
    }
  }

  lemma ForgetAgrees(w: World, m: EventManager)
    requires Agrees(w) && m in w.managers
    ensures Agrees(ForgetState(w, m))
  {
    var v := ForgetState(w, m);
    forall n, h | n in v.managers && h in v.managers[n].registered ensures PointsBack(v, n, h) {
      assert PointsBack(w, n, h);
    }
    forall y | y in v.handlers ensures Attached(v, y) {
      assert Attached(w, y);
    }
  }

  lemma DestroyAgrees(w: World, x: EventHandler)
    requires Agrees(w) && Live(w, x)
    ensures Agrees(DestroyState(w, x))
  {
    var u := Expired(w, x);
    forall n, h | n in u.managers && h in u.managers[n].registered ensures PointsBack(u, n, h) {
      assert PointsBack(w, n, h);
    }
    assert forall y <- w.handlers :: Attached(w, y);
  }

  /** Changing managers never leaves a registration behind. */
  predicate Smooth(e: Event) {
    e.Add? ==> e.deregistered
  }

  lemma StepAgrees(s: History, e: Event)
    requires Recorded(s) && Agrees(s.world) && Smooth(e)
    ensures Agrees(Step(s, e).world)
  {
    var w := s.world;
    match e
    case NewManager(_) =>
      assert forall x <- w.handlers :: Attached(w, x);
    case NewHandler(_) =>
      assert forall x <- w.handlers :: Attached(w, x);
    case Add(m, x, deregistered, accepted) =>
      if m in w.managers && Live(w, x) {
        AddAgrees(s, m, x, deregistered, accepted);
      }
    case Remove(m, handle, deregistered) =>
      if m in w.managers {
        RemoveAgrees(w, m, handle, deregistered);
      }
    case Destroy(x) =>
      if Live(w, x) {
        DestroyAgrees(w, x);
      }
    case Process(m) =>
      if m in w.managers {
        ForgetAgrees(w, m);
      }
    case Move(m, to, order) =>
      if m in w.managers && to !in w.managers {
        MoveAgrees(w, m, to, order);
      }
  }

  /** Over every run in which changing managers deregisters the handler. */
  lemma {:induction false} RunAgrees(s: History, es: seq<Event>)
    requires Recorded(s) && Agrees(s.world)
    requires forall e <- es :: Smooth(e)
    ensures Agrees(Run(s, es).world)
    decreases |es|
  {
    if es != [] {
      assert es[0] in es;
      StepIsRecorded(s, es[0]);
      StepAgrees(s, es[0]);
      RunAgrees(Step(s, es[0]), es[1..]);
    }
  }

  /** Every run of a program, from nothing. */
  lemma ReachableAgrees(es: seq<Event>)
    ensures Recorded(Run(NOTHING, es))
    ensures (forall e <- es :: Smooth(e)) ==> Agrees(Run(NOTHING, es).world)
  {
    RunIsRecorded(NOTHING, es);
    if forall e <- es :: Smooth(e) {
      RunAgrees(NOTHING, es);
    }
  }

  // ---------- What each operation leaves ----------

  /** Removing succeeds exactly if the handle is registered and its handler is dead or could be deregistered;
      then the handle is gone and a live handler detached. Otherwise nothing changes. */
  lemma RemoveOutcome(w: World, m: EventManager, handle: nat, deregistered: bool)
    requires m in w.managers
    ensures var v, registered := RemoveState(w, m, handle, deregistered), w.managers[m].registered;
            if handle in registered && (!Live(w, registered[handle]) || deregistered) then
              && v.managers.Keys == w.managers.Keys && v.managers[m].registered.Keys == registered.Keys - {handle}
              && (Live(w, registered[handle]) ==> v.handlers[registered[handle]] == Record(null, 0, false))
            else
              v == w
  {
  }

  /** A destroyed handler is on no registry any more. */
  lemma DestroyOutcome(w: World, x: EventHandler)
    requires Agrees(w) && Live(w, x)
    ensures var v := DestroyState(w, x);
            && !Live(v, x)
            && forall m <- v.managers, h <- v.managers[m].registered :: v.managers[m].registered[h] != x
  {
    assert Attached(w, x);
    var v := DestroyState(w, x);
    forall m, h | m in v.managers && h in v.managers[m].registered ensures v.managers[m].registered[h] != x {
      assert PointsBack(w, m, h);
    }
  }

  /** Processing forgets exactly the handlers that are not live. */
  lemma ForgetOutcome(w: World, m: EventManager, h: nat)
    requires m in w.managers
    ensures h in ForgetState(w, m).managers[m].registered <==>
            h in w.managers[m].registered && Live(w, w.managers[m].registered[h])
    ensures ForgetState(w, m).handlers == w.handlers
  {
  }

  /** An addition in a run is what `AddState` says; a manager that was moved from accepts nothing. */
  lemma AddOutcome(s: History, m: EventManager, x: EventHandler, deregistered: bool, accepted: bool)
    requires m in s.world.managers && Live(s.world, x)
    ensures Step(s, Add(m, x, deregistered, accepted)).world
         == AddState(s.world, m, x, deregistered, accepted && s.world.managers[m].epoll.Some?)
  {
    LeaveShrinks(s.world, x, deregistered);
  }

  /** A refused addition spends no handle. */
  lemma RefusalOutcome(s: History, m: EventManager, x: EventHandler)
    requires Recorded(s) && m in s.world.managers && Live(s.world, x)
    ensures var t := Step(s, Add(m, x, true, false));
            t.world.managers[m].counter == s.world.managers[m].counter && t.grants == s.grants
  {
    LeftIsRecorded(s, x, true);
    LeaveKeepsCounters(s.world, x, true, m);
    CounterIsFree(Left(s, x, true).world.managers[m], s.epolls, s.grants);
  }

  /** A manager moved from is empty and has no epoll instance; the new one has taken over everything. */
  lemma MoveOutcome(w: World, m: EventManager, to: EventManager, order: Order)
    requires m in w.managers && to !in w.managers
    ensures var v := MoveState(w, m, to, order);
            && v.managers[m] == Registry(map[], 1, None)
            && v.managers[to] == w.managers[m]
  {
  }

  // ---------- Events reach their handlers ----------

  /** A live handler is the target of the handle it holds. */
  lemma HandlerReached(w: World, x: EventHandler)
    requires Agrees(w) && Live(w, x) && w.handlers[x].manager != null
    ensures w.handlers[x].manager in w.managers
    ensures Target(w, w.handlers[x].manager, w.handlers[x].handle) == Some(x)
  {
    assert Attached(w, x);
  }

  /** In every run, if changing managers deregisters. */
  lemma ReachableReached(es: seq<Event>, x: EventHandler)
    requires forall e <- es :: Smooth(e)
    requires var w := Run(NOTHING, es).world; Live(w, x) && w.handlers[x].manager != null
    ensures var w := Run(NOTHING, es).world;
            && w.handlers[x].manager in w.managers
            && Target(w, w.handlers[x].manager, w.handlers[x].handle) == Some(x)
  {
    ReachableAgrees(es);
    HandlerReached(Run(NOTHING, es).world, x);
  }

  /** Whoever holds the epoll instance dispatches the handle to the handler it was given to. */
  predicate Serves(w: World, g: Grant) {
    exists m <- w.managers :: ServesAt(w, m, g)
  }

  predicate ServesAt(w: World, m: EventManager, g: Grant) {
    m in w.managers && w.managers[m].epoll == Some(g.epoll) && Target(w, m, g.handle) == Some(g.handler)
  }

  /** The handler is taken off its handle, destroyed, or added again. */
  predicate Disturbs(w: World, e: Event, g: Grant) {
    match e
    case Remove(m, handle, _) => m in w.managers && w.managers[m].epoll == Some(g.epoll) && handle == g.handle
    case Destroy(x) => x == g.handler
    case Add(_, x, _, _) => x == g.handler
    case _ => false
  }

  /** The handler leaves the handle of the grant alone. */
  predicate Elsewhere(w: World, x: EventHandler, g: Grant)
    requires x in w.handlers
  {
    var r := w.handlers[x];
    r.manager != null && r.manager in w.managers && w.managers[r.manager].epoll == Some(g.epoll) ==>
      r.handle != g.handle
  }

  lemma OtherElsewhere(s: History, x: EventHandler, g: Grant)
    requires Recorded(s) && Agrees(s.world) && Serves(s.world, g) && Live(s.world, x) && x != g.handler
    ensures Elsewhere(s.world, x, g)
  {
    assert Attached(s.world, x);
  }

  lemma RemoveServes(w: World, m: EventManager, handle: nat, deregistered: bool, g: Grant)
    requires Serves(w, g) && m in w.managers
    requires w.managers[m].epoll == Some(g.epoll) ==> handle != g.handle
    requires forall h <- w.managers[m].registered ::
               w.managers[m].registered[h] == g.handler && Live(w, g.handler) ==> h != handle
    ensures Serves(RemoveState(w, m, handle, deregistered), g)
  {
    var n: EventManager :| ServesAt(w, n, g);
    assert ServesAt(w, n, g);
    assert ServesAt(RemoveState(w, m, handle, deregistered), n, g);
  }

  /** A live handler is on one handle of one manager only. */
  lemma OnlyThere(w: World, m: EventManager, h: nat, n: EventManager, k: nat)
    requires Agrees(w) && m in w.managers && h in w.managers[m].registered
    requires n in w.managers && k in w.managers[n].registered
    requires Live(w, w.managers[m].registered[h]) && w.managers[n].registered[k] == w.managers[m].registered[h]
    ensures m == n && h == k
  {
    assert PointsBack(w, m, h) && PointsBack(w, n, k);
  }

  /** Taking something else off a registry. */
  lemma OtherRemoved(w: World, m: EventManager, handle: nat, deregistered: bool, g: Grant)
    requires Agrees(w) && Serves(w, g) && m in w.managers
    requires w.managers[m].epoll == Some(g.epoll) ==> handle != g.handle
    ensures Serves(RemoveState(w, m, handle, deregistered), g)
  {
    var n: EventManager :| ServesAt(w, n, g);
    assert ServesAt(w, n, g);
    forall h | h in w.managers[m].registered && w.managers[m].registered[h] == g.handler ensures h != handle {
      OnlyThere(w, n, g.handle, m, h);
    }
    RemoveServes(w, m, handle, deregistered, g);
  }

  lemma LeaveServes(s: History, x: EventHandler, deregistered: bool, g: Grant)
    requires Recorded(s) && Agrees(s.world) && Serves(s.world, g) && Live(s.world, x) && x != g.handler
    ensures Serves(LeaveState(s.world, x, deregistered), g)
  {
    OtherElsewhere(s, x, g);
    var r := s.world.handlers[x];
    if r.manager != null && r.handle != 0 && r.manager in s.world.managers {
      OtherRemoved(s.world, r.manager, r.handle, deregistered, g);
    }
  }

  lemma EnterServes(s: History, m: EventManager, x: EventHandler, accepted: bool, g: Grant)
    requires Recorded(s) && Serves(s.world, g) && m in s.world.managers && Live(s.world, x) && x != g.handler
    ensures Serves(Entered(s, m, x, accepted).world, g)
  {
    var w, t := s.world, Entered(s, m, x, accepted).world;
    CounterIsFree(w.managers[m], s.epolls, s.grants);
    assert RegistryRecorded(w.managers[m], s.epolls, s.grants);
    var n: EventManager :| ServesAt(w, n, g);
    assert ServesAt(w, n, g);
    assert ServesAt(t, n, g);
  }

  lemma AddServes(s: History, m: EventManager, x: EventHandler, deregistered: bool, accepted: bool, g: Grant)
    requires Recorded(s) && Agrees(s.world) && Serves(s.world, g)
    requires m in s.world.managers && Live(s.world, x) && x != g.handler
    ensures Serves(Step(s, Add(m, x, deregistered, accepted)).world, g)
  {
    LeaveServes(s, x, deregistered, g);
    LeftIsRecorded(s, x, deregistered);
    EnterServes(Left(s, x, deregistered), m, x, accepted, g);
  }

  lemma DestroyServes(s: History, x: EventHandler, g: Grant)
    requires Recorded(s) && Agrees(s.world) && Serves(s.world, g) && Live(s.world, x) && x != g.handler
    ensures Serves(DestroyState(s.world, x), g)
  {
    var w, v := s.world, Expired(s.world, x);
    var n: EventManager :| ServesAt(w, n, g);
    assert ServesAt(w, n, g);
    assert ServesAt(v, n, g);
    OtherElsewhere(s, x, g);
    var r := w.handlers[x];
    if r.manager != null && r.handle != 0 && r.manager in w.managers {
      forall h | h in w.managers[r.manager].registered && w.managers[r.manager].registered[h] == g.handler
        ensures h != r.handle
      {
        OnlyThere(w, n, g.handle, r.manager, h);
      }
      RemoveServes(v, r.manager, r.handle, true, g);
    }
  }

  lemma MoveServes(w: World, m: EventManager, to: EventManager, order: Order, g: Grant)
    requires Serves(w, g) && m in w.managers && to !in w.managers
    ensures Serves(MoveState(w, m, to, order), g)
  {
    var v := MoveState(w, m, to, order);
    var n: EventManager :| ServesAt(w, n, g);
    assert ServesAt(w, n, g);
    assert ServesAt(v, if n == m then to else n, g);
  }

  lemma ForgetServes(w: World, m: EventManager, g: Grant)
    requires Serves(w, g) && m in w.managers
    ensures Serves(ForgetState(w, m), g)
  {
    var n: EventManager :| ServesAt(w, n, g);
    assert ServesAt(w, n, g);
    assert ServesAt(ForgetState(w, m), n, g);
  }

  lemma NewServes(s: History, e: Event, g: Grant)
    requires Serves(s.world, g) && (e.NewManager? || e.NewHandler?)
    ensures Serves(Step(s, e).world, g)
  {
    var w := s.world;
    var n: EventManager :| ServesAt(w, n, g);
    assert ServesAt(w, n, g);
    assert ServesAt(Step(s, e).world, n, g);
  }

  lemma StepServes(s: History, e: Event, g: Grant)
    requires Recorded(s) && Agrees(s.world) && Serves(s.world, g) && !Disturbs(s.world, e, g)
    ensures Serves(Step(s, e).world, g)
  {
    var w := s.world;
    match e
    case NewManager(_) => NewServes(s, e, g);
    case NewHandler(_) => NewServes(s, e, g);
    case Add(m, x, deregistered, accepted) =>
      if m in w.managers && Live(w, x) {
        AddServes(s, m, x, deregistered, accepted, g);
      }
    case Remove(m, handle, deregistered) =>
      if m in w.managers {
        OtherRemoved(w, m, handle, deregistered, g);
      }
    case Destroy(x) =>
      if Live(w, x) {
        DestroyServes(s, x, g);
      }
    case Process(m) =>
      if m in w.managers {
        ForgetServes(w, m, g);
      }
    case Move(m, to, order) =>
      if m in w.managers && to !in w.managers {
        MoveServes(w, m, to, order, g);
      }
  }

  ghost predicate Undisturbed(s: History, es: seq<Event>, g: Grant)
    decreases |es|
  {
    es != [] ==> !Disturbs(s.world, es[0], g) && Undisturbed(Step(s, es[0]), es[1..], g)
  }

  /** No event is lost. A handler that is served goes on being served over every run in which it is not taken
      off its handle, destroyed or added again, whatever other handlers do and wherever its epoll instance
      moves. */
  lemma {:induction false} RunServes(s: History, es: seq<Event>, g: Grant)
    requires Recorded(s) && Agrees(s.world) && Serves(s.world, g)
    requires Undisturbed(s, es, g) && forall e <- es :: Smooth(e)
    ensures Serves(Run(s, es).world, g)
    decreases |es|
  {
    if es != [] {
      assert es[0] in es;
      StepIsRecorded(s, es[0]);
      StepAgrees(s, es[0]);
      StepServes(s, es[0], g);
      RunServes(Step(s, es[0]), es[1..], g);
    }
  }

  /** A handler that is added and accepted is served from then on. */
  lemma AddedIsServed(s: History, m: EventManager, x: EventHandler, deregistered: bool)
    requires Recorded(s) && m in s.world.managers && s.world.managers[m].epoll.Some? && Live(s.world, x)
    ensures var g := Grant(s.world.managers[m].epoll.value, s.world.managers[m].counter, x);
            var t := Step(s, Add(m, x, deregistered, true));
            t.grants == s.grants + [g] && Serves(t.world, g)
  {
    var v := Left(s, x, deregistered);
    LeaveShrinks(s.world, x, deregistered);
    LeftIsRecorded(s, x, deregistered);
    LeaveKeepsCounters(s.world, x, deregistered, m);
    CounterIsFree(v.world.managers[m], s.epolls, s.grants);
    var t := Step(s, Add(m, x, deregistered, true));
    assert ServesAt(t.world, m, Grant(s.world.managers[m].epoll.value, s.world.managers[m].counter, x));
  }

  lemma LeaveKeepsCounters(w: World, x: EventHandler, deregistered: bool, m: EventManager)
    requires x in w.handlers && m in w.managers
    ensures m in LeaveState(w, x, deregistered).managers
    ensures LeaveState(w, x, deregistered).managers[m].counter == w.managers[m].counter
    ensures Live(w, x) ==> Live(LeaveState(w, x, deregistered), x)
  {
  }

  /** What is left of a handler on the registry that moves. */
  predicate Follows(
    registered: map<nat, EventHandler>, to: EventManager, x: EventHandler, before: Record, after: Record)
  {
    if !before.expired && x in registered.Values then
      after.manager == to && !after.expired && after.handle in registered && registered[after.handle] == x
    else
      after == before
  }

  lemma MovedIs(w: World, m: EventManager, to: EventManager, v: World, order: Order)
    requires m in w.managers && to !in w.managers
    requires v.managers == w.managers[m := Registry(map[], 1, None)][to := w.managers[m]]
    requires v.handlers.Keys == w.handlers.Keys <= order.Keys
    requires forall x <- v.handlers ::
               && Follows(w.managers[m].registered, to, x, w.handlers[x], v.handlers[x])
               && order[x] == v.handlers[x].handle
    ensures v == MoveState(w, m, to, order)
  {
    forall x | x in v.handlers ensures v.handlers[x] == MoveState(w, m, to, order).handlers[x] {
      if Live(w, x) && x in w.managers[m].registered.Values {
        assert HandleIn(w.managers[m].registered, x, order) == v.handlers[x].handle;
      }
    }
  }

  lemma ForgetIs(w: World, m: EventManager, expired: set<nat>)
    requires m in w.managers
    requires forall h <- w.managers[m].registered :: h in expired <==> !Live(w, w.managers[m].registered[h])
    ensures ForgetState(w, m).managers
         == w.managers[m := w.managers[m].(registered := w.managers[m].registered - expired)]
  {
    var registered := w.managers[m].registered;
    assert registered - expired == map h | h in registered && Live(w, registered[h]) :: registered[h];
  }

  // ---------- The objects ----------

  function ManagerSeen(m: EventManager): Registry
    reads m
  {
    Registry(m.registered, m.counter, m.epoll)
  }

  function HandlerSeen(x: EventHandler): Record
    reads x
  {
    Record(x.manager, x.handle, x.expired)
  }

  /** The managers and handlers of a program as they are on the heap. */
  ghost function Snapshot(ms: set<EventManager>, hs: set<EventHandler>): World
    reads ms, hs
  {
    World(map m | m in ms :: ManagerSeen(m), map x | x in hs :: HandlerSeen(x))
  }

  /** When one manager and one handler change, nothing else does. */
  lemma SnapshotIs(w: World, m: EventManager, x: EventHandler, ms: set<EventManager>, hs: set<EventHandler>)
    requires m in ms && x in hs && w.managers.Keys == ms && w.handlers.Keys == hs
    requires forall n <- ms - {m} :: w.managers[n] == ManagerSeen(n)
    requires forall y <- hs - {x} :: w.handlers[y] == HandlerSeen(y)
    ensures Snapshot(ms, hs) == World(w.managers[m := ManagerSeen(m)], w.handlers[x := HandlerSeen(x)])
  {
  }

  /** `ndisc::EventHandler`. */
  class EventHandler {
    var manager: EventManager?
    var handle: nat
    var expired: bool

    constructor ()
      ensures manager == null && handle == 0 && !expired
    {
      manager, handle, expired := null, 0, false;
    }

    /** Leaves its manager, if it has one. */
    method Leave(deregistered: bool, ghost ms: set<EventManager>, ghost hs: set<EventHandler>)
      requires this in hs && Closed(Snapshot(ms, hs))
      modifies ms, hs
      ensures Snapshot(ms, hs) == LeaveState(old(Snapshot(ms, hs)), this, deregistered)
    {
      assert Snapshot(ms, hs).handlers[this].manager == manager;
      if manager != null && handle != 0 {
        var removed := manager.Remove(handle, deregistered, ms, hs);
      }
    }

    method Destroy(ghost ms: set<EventManager>, ghost hs: set<EventHandler>)
      requires this in hs && Closed(Snapshot(ms, hs))
      modifies ms, hs
      ensures Snapshot(ms, hs) == DestroyState(old(Snapshot(ms, hs)), this)
    {
      expired := true;
      assert Snapshot(ms, hs) == Expired(old(Snapshot(ms, hs)), this);
      Leave(true, ms, hs);
    }
  }

  /** `ndisc::EventManager`. */
  class EventManager {
    var registered: map<nat, EventHandler>
    var counter: nat
    var epoll: Option<nat>

    constructor (instance: nat)
      ensures Snapshot({this}, {}).managers[this] == Registry(map[], 1, Some(instance))
    {
      registered, counter, epoll := map[], 1, Some(instance);
    }

    method Remove(handle: nat, deregistered: bool, ghost ms: set<EventManager>, ghost hs: set<EventHandler>)
      returns (removed: bool)
      requires this in ms && Closed(Snapshot(ms, hs))
      modifies ms, hs
      ensures removed == Removes(old(Snapshot(ms, hs)), this, handle, deregistered)
      ensures Snapshot(ms, hs) == RemoveState(old(Snapshot(ms, hs)), this, handle, deregistered)
    {
      ghost var w := Snapshot(ms, hs);
      assert w.managers[this] == ManagerSeen(this);
      if handle !in registered {
        return false;
      }
      var handler := registered[handle];
      assert w.handlers[handler] == HandlerSeen(handler);
      if !handler.expired {
        if !deregistered {
          return false;
        }
        handler.manager := null;
        handler.handle := 0;
      }
      registered := registered - {handle};
      SnapshotIs(w, this, handler, ms, hs);
      return true;
    }

    /** The search for a free handle. */
    method SkipRegistered()
      modifies `counter
      ensures counter == FreeHandle(registered, old(counter))
    {
      while counter in registered
        invariant FreeHandle(registered, counter) == FreeHandle(registered, old(counter))
        decreases |From(registered, counter)|
      {
        FewerFrom(registered, counter);
        counter := counter + 1;
      }
    }

    /** Registers a handler that has left its manager, if epoll accepts it. */
    method Enter(handler: EventHandler, accepted: bool, ghost ms: set<EventManager>, ghost hs: set<EventHandler>)
      returns (handle: Option<nat>)
      requires this in ms && handler in hs
      modifies this, handler
      ensures Snapshot(ms, hs) == EnterState(old(Snapshot(ms, hs)), this, handler, accepted)
      ensures handle == if accepted then Some(handler.handle) else None
    {
      ghost var w := Snapshot(ms, hs);
      assert w.managers[this] == ManagerSeen(this);
      assert w.handlers[handler] == HandlerSeen(handler);
      SkipRegistered();
      if accepted {
        registered := registered[counter := handler];
        handler.manager := this;
        handler.handle := counter;
        handle := Some(counter);
        counter := counter + 1;
      } else {
        handle := None;
        assert w.handlers[handler := HandlerSeen(handler)] == w.handlers;
      }
      SnapshotIs(w, this, handler, ms, hs);
    }

    method Add(handler: EventHandler, deregistered: bool, accepted: bool,
               ghost ms: set<EventManager>, ghost hs: set<EventHandler>) returns (handle: Option<nat>)
      requires this in ms && handler in hs && Closed(Snapshot(ms, hs))
      modifies ms, hs
      ensures Snapshot(ms, hs) == AddState(old(Snapshot(ms, hs)), this, handler, deregistered, accepted)
      ensures handle == if accepted then Some(handler.handle) else None
    {
      handler.Leave(deregistered, ms, hs);
      handle := Enter(handler, accepted, ms, hs);
    }

    /** Lets every live handler on the registry point back at this manager. */
    method Repoint()
      modifies registered.Values
      ensures forall x <- registered.Values :: Follows(registered, this, x, old(HandlerSeen(x)), HandlerSeen(x))
    {
      var todo := registered.Keys;
      while todo != {}
        invariant todo <= registered.Keys
        invariant forall h <- registered :: registered[h].expired == old(registered[h].expired)
        invariant forall h <- registered | h !in todo || registered[h].expired ::
                    var x := registered[h];
                    Follows(registered, this, x, old(HandlerSeen(x)), HandlerSeen(x))
        decreases |todo|
      {
        var h :| h in todo;
        if !registered[h].expired {
          registered[h].manager := this;
          registered[h].handle := h;
        }
        todo := todo - {h};
      }
    }

    /** Move construction. `order` is what the loop over the unordered map made of it; it only matters for
        a handler that is on the registry more than once. */
    constructor Move(other: EventManager, ghost ms: set<EventManager>, ghost hs: set<EventHandler>)
      requires other in ms && Closed(Snapshot(ms, hs))
      modifies ms, hs
      ensures this !in ms
      ensures var order := map x | x in hs :: x.handle;
              Snapshot(ms + {this}, hs) == MoveState(old(Snapshot(ms, hs)), other, this, order)
    {
      registered, counter, epoll := other.registered, other.counter, other.epoll;
      new;
      ghost var w := Snapshot(ms, hs);
      assert w.managers[other] == ManagerSeen(this);
      TakeOver(other, ms, hs);
      MovedIs(w, other, this, Snapshot(ms + {this}, hs), map x | x in hs :: x.handle);
    }

    /** The other manager is left empty and the handlers are repointed. */
    method TakeOver(other: EventManager, ghost ms: set<EventManager>, ghost hs: set<EventHandler>)
      requires other in ms && this !in ms && registered.Values <= hs
      modifies other, registered.Values
      ensures ManagerSeen(this) == old(ManagerSeen(this))
      ensures Snapshot(ms + {this}, hs).managers ==
              old(Snapshot(ms, hs)).managers[other := Registry(map[], 1, None)][this := ManagerSeen(this)]
      ensures forall x <- hs :: Follows(registered, this, x, old(HandlerSeen(x)), HandlerSeen(x))
    {
      other.registered, other.counter, other.epoll := map[], 1, None;
      Repoint();
    }

    method EraseAll(handles: set<nat>)
      modifies `registered
      ensures registered == old(registered) - handles
    {
      var todo := handles;
      while todo != {}
        invariant todo <= handles
        invariant registered == old(registered) - (handles - todo)
        decreases |todo|
      {
        var h :| h in todo;
        registered := registered - {h};
        todo := todo - {h};
      }
    }

    /** Expired handlers are collected and then removed, for which only their handle is erased. */
    method ForgetExpired(ghost ms: set<EventManager>, ghost hs: set<EventHandler>)
      requires this in ms && Closed(Snapshot(ms, hs))
      modifies `registered
      ensures Snapshot(ms, hs) == ForgetState(old(Snapshot(ms, hs)), this)
    {
      var expired := set h | h in registered && registered[h].expired;
      ghost var w := Snapshot(ms, hs);
      assert w.managers[this] == ManagerSeen(this);
      forall h | h in registered ensures h in expired <==> !Live(w, registered[h]) {
        assert w.handlers[registered[h]] == HandlerSeen(registered[h]);
      }
      ForgetIs(w, this, expired);
      EraseAll(expired);
      assert Snapshot(ms, hs).managers == w.managers[this := ManagerSeen(this)];
      assert Snapshot(ms, hs).handlers == w.handlers;
    }

    /** Whatever handle an event carries, however old. */
    method Dispatch(handle: nat, ghost ms: set<EventManager>, ghost hs: set<EventHandler>)
      returns (handler: Option<EventHandler>)
      requires this in ms && Closed(Snapshot(ms, hs))
      ensures handler == Target(Snapshot(ms, hs), this, handle)
    {
      ghost var w := Snapshot(ms, hs);
      assert w.managers[this].registered == registered;
      if handle in registered {
        var registrant := registered[handle];
        assert w.handlers[registrant].expired == registrant.expired;
        if !registrant.expired {
          return Some(registrant);
        }
      }
      return None;
    }

    /** `ProcessEvents`: expired handlers are forgotten, and then each ready handle is dispatched. What
        the calls themselves do to the registry are further steps. */
    method ProcessEvents(ready: seq<nat>, ghost ms: set<EventManager>, ghost hs: set<EventHandler>)
      returns (called: seq<Option<EventHandler>>)
      requires this in ms && Closed(Snapshot(ms, hs))
      modifies `registered
      ensures Snapshot(ms, hs) == ForgetState(old(Snapshot(ms, hs)), this)
      ensures |called| == |ready|
      ensures forall i :: 0 <= i < |ready| ==> called[i] == Target(Snapshot(ms, hs), this, ready[i])
    {
      ForgetExpired(ms, hs);
      called := [];
      ghost var w := Snapshot(ms, hs);
      for i := 0 to |ready|
        invariant Snapshot(ms, hs) == w
        invariant |called| == i
        invariant forall j :: 0 <= j < i ==> called[j] == Target(w, this, ready[j])
      {
        var handler := Dispatch(ready[i], ms, hs);
        called := called + [handler];
      }
    }
  }
}
