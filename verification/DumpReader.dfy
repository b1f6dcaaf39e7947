/** The request state machine shared by the device reader and the address reader: one open dump
    request at a time, told apart by its sequence number and bounded by a timeout. */
module DumpReader {
  import opened Common

  const DUMP_READ_TIMEOUT := 5
  const SEQUENCES := 0x1_0000_0000

  /** What became of sending a request. */
  datatype SendOutcome = InvalidSocket | SendFailed | Issued

  datatype ReplyKind = Item | Done | Error | Other

  /** A netlink message as a reader sees it: `Item` is a message of the kind the reader asks for. */
  datatype Reply = Reply(sequence: Uint32, kind: ReplyKind)

  /** `sequence` counts the requests tried since the socket was created; the number on the wire is
      its low 32 bits. `request` is the number of the open request, before truncation. */
  datatype Reader = Reader(sequence: nat, request: Option<nat>, timeout: int)

  const NEW_READER := Reader(1, None, -1)

  function Wire(sequence: nat): Uint32 {
    sequence % SEQUENCES
  }

  /** What a step tells the rest of the program. */
  datatype Signal =
    | Quiet
    | Requested(request: nat)
    | HandedOver(request: nat, sequence: Uint32)
    | Completed(request: nat)
    | Failed(request: nat)

  datatype Event = Trigger(outcome: SendOutcome) | Tick(seconds: nat) | Receive(reply: Reply)

  /** The number of a request is spent even when sending it fails; the timeout restarts in any case. */
  function TriggerState(r: Reader, outcome: SendOutcome): (Reader, Signal) {
    var restarted := r.(timeout := DUMP_READ_TIMEOUT);
    match outcome
    case InvalidSocket => (restarted, Quiet)
    case SendFailed => (restarted.(sequence := r.sequence + 1), Quiet)
    case Issued => (restarted.(sequence := r.sequence + 1, request := Some(r.sequence + 1)), Requested(r.sequence + 1))
  }

  function Closed(r: Reader): Reader {
    r.(request := None, timeout := -1)
  }

  function TickState(r: Reader, d: nat): (Reader, Signal) {
    if r.request.None? then (r, Quiet)
    else if r.timeout > d then (r.(timeout := r.timeout - d), Quiet)
    else (Closed(r), Failed(r.request.value))
  }

  function ReceiveState(r: Reader, reply: Reply): (Reader, Signal) {
    if r.request.None? || reply.sequence != Wire(r.request.value) then (r, Quiet)
    else
      match reply.kind
      case Item => (r, HandedOver(r.request.value, reply.sequence))
      case Done => (Closed(r), Completed(r.request.value))
      case Error => (Closed(r), Failed(r.request.value))
      case Other => (r, Quiet)
  }

  function Step(r: Reader, e: Event): (Reader, Signal) {
    match e
    case Trigger(outcome) => TriggerState(r, outcome)
    case Tick(d) => TickState(r, d)
    case Receive(reply) => ReceiveState(r, reply)
  }

  /** The reader after a run, and the signals in order. */
  function Run(es: seq<Event>): (r: (Reader, seq<Signal>))
    ensures |r.1| == |es|
  {
    if es == [] then (NEW_READER, []) else
      var (before, signals) := Run(es[..|es| - 1]);
      var (after, signal) := Step(before, es[|es| - 1]);
      (after, signals + [signal])
  }

  // ---------- What the signals alone say ----------

  /** The open request after one more signal. */
  function OpenAfter(open: Option<nat>, signal: Signal): Option<nat> {
    match signal
    case Requested(q) => Some(q)
    case Completed(_) => None
    case Failed(_) => None
    case _ => open
  }

  /** The request open after a sequence of signals. */
  function Open(signals: seq<Signal>): Option<nat> {
    if signals == [] then None else OpenAfter(Open(signals[..|signals| - 1]), signals[|signals| - 1])
  }

  datatype Tally = Tally(requested: nat, completed: nat, failed: nat, superseded: nat)

  function TallyOf(signals: seq<Signal>): Tally {
    if signals == [] then Tally(0, 0, 0, 0) else
      var front := signals[..|signals| - 1];
      var t := TallyOf(front);
      match signals[|signals| - 1]
      case Requested(_) =>
        t.(requested := t.requested + 1, superseded := t.superseded + if Open(front).Some? then 1 else 0)
      case Completed(_) => t.(completed := t.completed + 1)
      case Failed(_) => t.(failed := t.failed + 1)
      case _ => t
  }

  function Triggers(es: seq<Event>): nat {
    if es == [] then 0 else Triggers(es[..|es| - 1]) + if es[|es| - 1].Trigger? then 1 else 0
  }

  predicate SignalFits(signal: Signal, open: Option<nat>) {
    match signal
    case HandedOver(q, n) => open == Some(q) && n == Wire(q)
    case Completed(q) => open == Some(q)
    case Failed(q) => open == Some(q)
    case _ => true
  }

  /** Every signal about a request is about the one that is open when it is given. */
  predicate Disciplined(signals: seq<Signal>) {
    forall i :: 0 <= i < |signals| ==> SignalFits(signals[i], Open(signals[..i]))
  }

  predicate Above(signals: seq<Signal>, request: nat) {
    forall i :: 0 <= i < |signals| && signals[i].Requested? ==> signals[i].request < request
  }

  /** Requests are numbered in increasing order, above 1. */
  predicate Increasing(signals: seq<Signal>) {
    forall i :: 0 <= i < |signals| && signals[i].Requested? ==>
      1 < signals[i].request && Above(signals[..i], signals[i].request)
  }

  lemma DisciplinedAppend(signals: seq<Signal>, signal: Signal)
    requires Disciplined(signals) && SignalFits(signal, Open(signals))
    ensures Disciplined(signals + [signal])
  {
    var all := signals + [signal];
    forall i | 0 <= i < |all| ensures SignalFits(all[i], Open(all[..i])) {
      assert all[..i] == signals[..i];
      assert signals[..|signals|] == signals;
    }
  }

  lemma IncreasingAppend(signals: seq<Signal>, signal: Signal)
    requires Increasing(signals)
    requires signal.Requested? ==> 1 < signal.request && Above(signals, signal.request)
    ensures Increasing(signals + [signal])
  {
    var all := signals + [signal];
    forall i | 0 <= i < |all| && all[i].Requested? ensures 1 < all[i].request && Above(all[..i], all[i].request) {
      assert all[..i] == signals[..i];
      assert signals[..|signals|] == signals;
    }
  }

  /** What a reader and the signals it has given have to do with each other. */
  predicate Consistent(r: Reader, signals: seq<Signal>) {
    && r.sequence >= 1
    && r.request == Open(signals)
    && Above(signals, r.sequence + 1)
    && Increasing(signals)
    && Disciplined(signals)
  }

  lemma StepSignal(r: Reader, e: Event)
    ensures var (s, signal) := Step(r, e);
            && s.request == OpenAfter(r.request, signal)
            && SignalFits(signal, r.request)
            && r.sequence <= s.sequence <= r.sequence + (if e.Trigger? then 1 else 0)
            && (signal.Requested? ==> r.sequence < signal.request == s.sequence)
  {
  }

  lemma OpenAppend(signals: seq<Signal>, signal: Signal)
    ensures Open(signals + [signal]) == OpenAfter(Open(signals), signal)
  {
    assert (signals + [signal])[..|signals|] == signals;
  }

  lemma AboveAppend(signals: seq<Signal>, signal: Signal, request: nat, later: nat)
    requires Above(signals, request) && request <= later && (signal.Requested? ==> signal.request < later)
    ensures Above(signals + [signal], later)
  {
  }

  lemma StepConsistent(r: Reader, signals: seq<Signal>, e: Event)
    requires Consistent(r, signals)
    ensures var (s, signal) := Step(r, e);
            && Consistent(s, signals + [signal])
            && s.sequence <= r.sequence + if e.Trigger? then 1 else 0
  {
    StepSignal(r, e);
    var (s, signal) := Step(r, e);
    OpenAppend(signals, signal);
    DisciplinedAppend(signals, signal);
    if signal.Requested? {
      assert Above(signals, signal.request);
    }
    IncreasingAppend(signals, signal);
    AboveAppend(signals, signal, r.sequence + 1, s.sequence + 1);
  }

  lemma {:induction false} RunInvariant(es: seq<Event>)
    ensures Consistent(Run(es).0, Run(es).1)
    ensures Run(es).0.sequence <= 1 + Triggers(es)
  {
    if es != [] {
      var front := es[..|es| - 1];
      RunInvariant(front);
      StepConsistent(Run(front).0, Run(front).1, es[|es| - 1]);
    }
  }

  /** Conservation: every request sent has been completed, has failed or timed out, was superseded
      by a later one, or is the one still open. */
  lemma {:induction false} Conservation(es: seq<Event>)
    ensures var (r, signals) := Run(es);
            var t := TallyOf(signals);
            t.requested == t.completed + t.failed + t.superseded + if r.request.Some? then 1 else 0
  {
    if es != [] {
      var front := es[..|es| - 1];
      Conservation(front);
      RunInvariant(front);
      RunInvariant(es);
      var (before, signals) := Run(front);
      var (after, signal) := Step(before, es[|es| - 1]);
      assert (signals + [signal])[..|signals|] == signals;
    }
  }

  /** The open request is the latest one sent. */
  lemma {:induction false} OpenIsLatest(signals: seq<Signal>) returns (k: nat)
    requires Open(signals).Some?
    ensures k < |signals| && signals[k] == Requested(Open(signals).value)
    ensures forall m :: k < m < |signals| ==> !signals[m].Requested?
  {
    var n := |signals| - 1;
    if signals[n].Requested? {
      k := n;
    } else {
      k := OpenIsLatest(signals[..n]);
      assert signals[..n][k] == signals[k];
      forall m | k < m < |signals| ensures !signals[m].Requested? {
        if m < n {
          assert signals[..n][m] == signals[m];
        }
      }
    }
  }

  lemma IncreasingAt(signals: seq<Signal>, i: nat, k: nat)
    requires Increasing(signals) && i < k < |signals|
    requires signals[i].Requested? && signals[k].Requested?
    ensures signals[i].request < signals[k].request
  {
    assert Above(signals[..k], signals[k].request) && signals[..k][i] == signals[i];
  }

  lemma WireIsExact(request: nat)
    requires request < SEQUENCES
    ensures Wire(request) == request
  {
  }

  /** Stale replies are never handed on: while fewer than 2^32 - 1 requests have been tried, a message
      handed on with the wire number of a request that was sent belongs to the latest one sent. */
  lemma NoStaleReplies(es: seq<Event>, i: nat, j: nat)
    requires Triggers(es) < SEQUENCES - 1
    requires var signals := Run(es).1;
             && i < j < |signals|
             && signals[i].Requested? && signals[j].HandedOver?
             && signals[j].sequence == Wire(signals[i].request)
    ensures var signals := Run(es).1;
            && signals[j].request == signals[i].request
            && forall k :: i < k < j ==> !signals[k].Requested?
  {
    RunInvariant(es);
    var signals := Run(es).1;
    var before := signals[..j];
    assert SignalFits(signals[j], Open(before));
    var k := OpenIsLatest(before);
    assert signals[k] == before[k] == Requested(signals[j].request);
    assert before[i] == signals[i];
    assert i <= k;
    assert i < k ==> signals[i].request < signals[k].request by {
      if i < k {
        IncreasingAt(signals, i, k);
      }
    }
    WireIsExact(signals[i].request);
    WireIsExact(signals[k].request);
    assert signals[i].request == signals[k].request;
    forall m | i < m < j ensures !signals[m].Requested? {
      assert before[m] == signals[m];
    }
  }

  /** The requests that got as far as the socket. */
  function Tried(es: seq<Event>): nat {
    if es == [] then 0 else
      var last := es[|es| - 1];
      Tried(es[..|es| - 1]) + if last.Trigger? && !last.outcome.InvalidSocket? then 1 else 0
  }

  /** Each of them spends one number, whether it could be sent or not. */
  lemma {:induction false} NumbersSpent(es: seq<Event>)
    ensures Run(es).0.sequence == 1 + Tried(es)
  {
    if es != [] {
      NumbersSpent(es[..|es| - 1]);
    }
  }

  /** A request that cannot be sent leaves the open one open, and gives it five more seconds. */
  lemma FailedTrigger(r: Reader, outcome: SendOutcome)
    requires !outcome.Issued?
    ensures var (s, signal) := Step(r, Trigger(outcome));
            signal.Quiet? && s.request == r.request && s.timeout == 5
  {
  }

  /** A reply has an effect exactly if it carries the number of the open request and is an item, an end or an
      error; the last two close the request. */
  lemma ReplyEffect(r: Reader, reply: Reply)
    ensures var (s, signal) := Step(r, Receive(reply));
            var answers := r.request.Some? && reply.sequence == Wire(r.request.value);
            && (signal.HandedOver? <==> answers && reply.kind.Item?)
            && (signal.Completed? <==> answers && reply.kind.Done?)
            && (signal.Failed? <==> answers && reply.kind.Error?)
            && (signal.Completed? || signal.Failed? ==> s.request.None? && s.timeout == -1)
            && (!signal.Completed? && !signal.Failed? ==> s == r)
            && s.sequence == r.sequence
  {
  }

  // ---------- The timeout ----------

  function RunFrom(r: Reader, es: seq<Event>): Reader
    decreases |es|
  {
    if es == [] then r else RunFrom(Step(r, es[0]).0, es[1..])
  }

  function Seconds(es: seq<Event>): nat {
    if es == [] then 0 else (if es[0].Tick? then es[0].seconds else 0) + Seconds(es[1..])
  }

  /** No later trigger, and no reply that ends the request; messages it asked for may arrive. */
  predicate Unanswered(e: Event, request: nat) {
    match e
    case Trigger(_) => false
    case Tick(_) => true
    case Receive(reply) => reply.sequence == Wire(request) ==> reply.kind.Item? || reply.kind.Other?
  }

  /** An unanswered request stays open while the seconds ticked are fewer than what its timeout has
      left, and the first tick that reaches it reports the failure: five seconds after the request,
      however many messages were handed on in between. */
  lemma {:induction false} TimesOutExactly(r: Reader, es: seq<Event>, d: nat)
    requires r.request.Some?
    requires forall e <- es :: Unanswered(e, r.request.value)
    requires Seconds(es) < r.timeout
    ensures RunFrom(r, es) == r.(timeout := r.timeout - Seconds(es))
    ensures TickState(RunFrom(r, es), d).1.Failed? <==> Seconds(es) + d >= r.timeout
    decreases |es|
  {
    if es != [] {
      assert Unanswered(es[0], r.request.value);
      TimesOutExactly(Step(r, es[0]).0, es[1..], d);
    }
  }

  /** The five seconds start at every successful request. */
  lemma RequestStartsTimeout(r: Reader, es: seq<Event>, d: nat)
    requires forall e <- es :: Unanswered(e, r.sequence + 1)
    requires Seconds(es) < DUMP_READ_TIMEOUT
    ensures var sent := TriggerState(r, Issued).0;
            && RunFrom(sent, es).request == Some(r.sequence + 1)
            && (TickState(RunFrom(sent, es), d).1 == Failed(r.sequence + 1) <==> Seconds(es) + d >= DUMP_READ_TIMEOUT)
  {
    TimesOutExactly(TriggerState(r, Issued).0, es, d);
  }

  // ---------- The object ----------

  /** `netlink::DeviceReader` and `netlink::IpReader`. A callback is returned as the signal. */
  class DumpReaderObject {
    var sequence: nat
    var dumpRequest: Option<nat>
    var dumpReadTimeout: int

    ghost function State(): Reader
      reads this
    {
      Reader(sequence, dumpRequest, dumpReadTimeout)
    }

    constructor ()
      ensures State() == NEW_READER
    {
      sequence, dumpRequest, dumpReadTimeout := 1, None, -1;
    }

    method ResetDumpAttempt()
      modifies this
      ensures State() == Closed(old(State()))
    {
      dumpReadTimeout := -1;
      dumpRequest := None;
    }

    /** The delta is cast to a signed 32-bit integer. */
    method Tick(d: nat) returns (signal: Signal)
      requires d <= INT_MAX
      modifies this
      ensures (State(), signal) == TickState(old(State()), d)
    {
      signal := Quiet;
      if dumpRequest.Some? {
        if dumpReadTimeout > d {
          dumpReadTimeout := dumpReadTimeout - d;
        } else {
          dumpReadTimeout := 0;
          signal := Failed(dumpRequest.value);
          ResetDumpAttempt();
        }
      }
    }

    method TriggerDump(outcome: SendOutcome) returns (signal: Signal)
      modifies this
      ensures (State(), signal) == TriggerState(old(State()), outcome)
    {
      dumpReadTimeout := DUMP_READ_TIMEOUT;
      if outcome.InvalidSocket? {
        return Quiet;
      }
      sequence := sequence + 1;
      if outcome.SendFailed? {
        return Quiet;
      }
      dumpRequest := Some(sequence);
      return Requested(sequence);
    }

    method HandleNetlinkPacket(reply: Reply) returns (signal: Signal)
      modifies this
      ensures (State(), signal) == ReceiveState(old(State()), reply)
    {
      if dumpRequest.None? {
        return Quiet;
      }
      if reply.sequence != Wire(dumpRequest.value) {
        return Quiet;
      }
      var request := dumpRequest.value;
      match reply.kind
      case Item => return HandedOver(request, reply.sequence);
      case Done =>
        ResetDumpAttempt();
        return Completed(request);
      case Error =>
        ResetDumpAttempt();
        return Failed(request);
      case Other => return Quiet;
    }
  }
}
