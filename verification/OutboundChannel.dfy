/**
 The agent's outbound frame path (src/Networker.Agent/RawWebSocketClient.cs): a
 bounded channel with three send tiers, drained by one pump. Senders, pump,
 socket and teardown interleave one atomic operation at a time.
 */
module OutboundChannel {
  import opened Counting

  const CAPACITY := 4096
  const HIGH_WATER := CAPACITY / 2

  datatype Tier = Log | Normal | Critical

  datatype Frame = Frame(tier: Tier, id: nat)

  datatype EndReason = Drained | SocketNotOpen | SendFailed | Cancelled

  datatype Pump = Idle | Holding(frame: Frame) | Ended(reason: EndReason)

  type Sender = nat

  /** Send calls made, the sink's two drop counters, critical sends that gave up, and messages that could not be encoded. */
  datatype Books = Books(offered: nat, drops: nat, logDrops: nat, undelivered: nat, unencoded: nat)

  /**
   `accepted`, `sent` and `dropped` are the history: frames for which a send
   reported success, frames handed to the socket, and the frame the pump took
   from the channel but gave up on. `disturbed` records that the socket closed,
   a send failed, the drain grace expired or the process is shutting down.
   */
  datatype State = State(
    queue: seq<Frame>, completed: bool,
    passed: set<Sender>, waiting: map<Sender, Frame>,
    pump: Pump, socketOpen: bool, cancelled: bool, disturbed: bool,
    accepted: seq<Frame>, sent: seq<Frame>, dropped: seq<Frame>, books: Books)

  const START := State([], false, {}, map[], Idle, true, false, false, [], [], [], Books(0, 0, 0, 0, 0))

  datatype Step =
    | Write(frame: Frame)                      // TrySend
    | CheckBacklog(sender: Sender)             // TrySendLowPriority, first half
    | WriteLog(sender: Sender, id: nat)        // TrySendLowPriority, second half
    | FailEncode                               // TrySend or TrySendCriticalAsync of a message that cannot be encoded
    | FailEncodeLog(sender: Sender)            // the same in TrySendLowPriority, after its check
    | WriteCritical(sender: Sender, frame: Frame)  // TrySendCriticalAsync: the fast path, else start waiting
    | AdmitWaiting(sender: Sender)
    | StopWaiting(sender: Sender)              // timeout, or the channel was completed
    | Dequeue
    | Send                                     // the socket takes the frame
    | FindSocketClosed
    | FailSend
    | Drain                                    // channel completed and empty
    | StopOnCancel
    | CloseSocket
    | Complete                                 // first act of teardown
    | Cancel(graceExpired: bool)               // teardown, after the drain window
    | ShutDown                                 // the caller's own token

  predicate Accepts(queue: seq<Frame>, completed: bool) {
    !completed && |queue| < CAPACITY
  }

  predicate CanWrite(s: State) {
    Accepts(s.queue, s.completed)
  }

  /** `w` bounds how many low-priority sends run at the same time. */
  predicate Enabled(w: nat, s: State, step: Step) {
    match step
    case Write(f) => f.tier == Normal
    case CheckBacklog(x) => x < w && x !in s.passed
    case WriteLog(x, _) => x in s.passed
    case FailEncode => true
    case FailEncodeLog(x) => x in s.passed
    case WriteCritical(x, f) => x !in s.waiting && f.tier == Critical
    case AdmitWaiting(x) => x in s.waiting && CanWrite(s)
    case StopWaiting(x) => x in s.waiting
    case Dequeue => s.pump == Idle && s.queue != []
    case Send => s.pump.Holding? && s.socketOpen
    case FindSocketClosed => s.pump.Holding? && !s.socketOpen
    case FailSend => s.pump.Holding?
    case Drain => s.pump == Idle && s.queue == [] && s.completed
    case StopOnCancel => !s.pump.Ended? && s.cancelled
    case CloseSocket => true
    case Complete => true
    case Cancel(grace) => s.completed && (s.pump.Ended? || grace)
    case ShutDown => true
  }

  function Enqueue(s: State, f: Frame): State {
    s.(queue := s.queue + [f], accepted := s.accepted + [f])
  }

  function TryWrite(s: State, f: Frame): State {
    if CanWrite(s) then Enqueue(s, f) else s
  }

  function Abandon(s: State, reason: EndReason): State {
    s.(pump := Ended(reason), dropped := if s.pump.Holding? then [s.pump.frame] else s.dropped)
  }

  function Moved(w: nat, s: State, step: Step): State
    requires Enabled(w, s, step)
  {
    match step
    case Write(f) => TryWrite(s, f)
    case CheckBacklog(x) => if |s.queue| >= HIGH_WATER then s else s.(passed := s.passed + {x})
    case WriteLog(x, id) => TryWrite(s.(passed := s.passed - {x}), Frame(Log, id))
    case FailEncode => s
    case FailEncodeLog(x) => s.(passed := s.passed - {x})
    case WriteCritical(x, f) => if CanWrite(s) then Enqueue(s, f) else s.(waiting := s.waiting[x := f])
    case AdmitWaiting(x) => Enqueue(s.(waiting := s.waiting - {x}), s.waiting[x])
    case StopWaiting(x) => s.(waiting := s.waiting - {x})
    case Dequeue => s.(queue := s.queue[1..], pump := Holding(s.queue[0]))
    case Send => s.(pump := Idle, sent := s.sent + [s.pump.frame])
    case FindSocketClosed => Abandon(s, SocketNotOpen)
    case FailSend => Abandon(s, SendFailed).(disturbed := true)
    case Drain => s.(pump := Ended(Drained))
    case StopOnCancel => Abandon(s, Cancelled)
    case CloseSocket => s.(socketOpen := false, disturbed := true)
    case Complete => s.(completed := true)
    case Cancel(grace) => s.(cancelled := true, disturbed := s.disturbed || !s.pump.Ended?)
    case ShutDown => s.(cancelled := true, disturbed := true)
  }

  /** A call begins at its first operation; a refusal is counted where the sink counts it. */
  function Booked(s: State, step: Step): Books {
    var b := s.books;
    match step
    case Write(_) => if CanWrite(s) then b.(offered := b.offered + 1) else b.(offered := b.offered + 1, drops := b.drops + 1)
    case CheckBacklog(_) =>
      if |s.queue| >= HIGH_WATER then b.(offered := b.offered + 1, logDrops := b.logDrops + 1) else b.(offered := b.offered + 1)
    case WriteLog(_, _) => if CanWrite(s) then b else b.(drops := b.drops + 1)
    case FailEncode => b.(offered := b.offered + 1, unencoded := b.unencoded + 1)
    case FailEncodeLog(_) => b.(unencoded := b.unencoded + 1)
    case WriteCritical(_, _) => b.(offered := b.offered + 1)
    case StopWaiting(_) => b.(undelivered := b.undelivered + 1)
    case _ => b
  }

  function Apply(w: nat, s: State, step: Step): State
    requires Enabled(w, s, step)
  {
    Moved(w, s, step).(books := Booked(s, step))
  }

  // ---------- The sink, called without interference ----------

  /** The three send tiers of ChannelFrameSink as one caller sees them when nobody interferes. */
  class ChannelFrameSink {
    var queue: seq<Frame>
    var completed: bool
    var drops: nat
    var logDrops: nat

    constructor ()
      ensures queue == [] && !completed && drops == logDrops == 0
    {
      queue, completed, drops, logDrops := [], false, 0, 0;
    }

    /** A message that cannot be encoded is refused without being counted as a drop. */
    method TrySend(f: Frame, encodes: bool) returns (sent: bool)
      modifies this
      ensures sent <==> encodes && Accepts(old(queue), completed)
      ensures queue == if sent then old(queue) + [f] else old(queue)
      ensures drops == old(drops) + if encodes && !sent then 1 else 0
      ensures completed == old(completed) && logDrops == old(logDrops)
    {
      if !encodes {
        return false;
      }
      if completed || |queue| >= CAPACITY {
        drops := drops + 1;
        return false;
      }
      queue := queue + [f];
      return true;
    }

    /** Refused at half capacity, so that only higher tiers can fill the rest. */
    method TrySendLowPriority(f: Frame, encodes: bool) returns (sent: bool)
      modifies this
      ensures sent <==> encodes && Accepts(old(queue), completed) && |old(queue)| < HIGH_WATER
      ensures queue == if sent then old(queue) + [f] else old(queue)
      ensures logDrops == old(logDrops) + if |old(queue)| >= HIGH_WATER then 1 else 0
      ensures drops == old(drops) + if encodes && !sent && |old(queue)| < HIGH_WATER then 1 else 0
      ensures completed == old(completed)
    {
      var backlog := |queue|;
      if backlog >= HIGH_WATER {
        logDrops := logDrops + 1;
        return false;
      }
      sent := TrySend(f, encodes);
    }
  }

  // ---------- Runs ----------

  predicate Legal(w: nat, steps: seq<Step>)
    decreases |steps|, 0
  {
    steps == [] ||
    var n := |steps| - 1;
    Legal(w, steps[..n]) && Enabled(w, Play(w, steps[..n]), steps[n])
  }

  function Play(w: nat, steps: seq<Step>): State
    requires Legal(w, steps)
    decreases |steps|, 1
  {
    if steps == [] then START
    else Apply(w, Play(w, steps[..|steps| - 1]), steps[|steps| - 1])
  }

  ghost predicate Reachable(w: nat, s: State) {
    exists steps: seq<Step> :: Legal(w, steps) && Play(w, steps) == s
  }

  lemma ReachesNext(w: nat, s: State, step: Step)
    requires Reachable(w, s) && Enabled(w, s, step)
    ensures Reachable(w, Apply(w, s, step))
  {
    var steps :| Legal(w, steps) && Play(w, steps) == s;
    assert (steps + [step])[..|steps|] == steps;
    assert Legal(w, steps + [step]);
    assert Play(w, steps + [step]) == Apply(w, s, step);
  }

  // ---------- Invariants ----------

  function InHand(s: State): seq<Frame> {
    if s.pump.Holding? then [s.pump.frame] else s.dropped
  }

  function Logs(q: seq<Frame>): nat {
    if q == [] then 0 else Logs(q[..|q| - 1]) + if q[|q| - 1].tier == Log then 1 else 0
  }

  ghost predicate InOrder(s: State) {
    && s.accepted == s.sent + InHand(s) + s.queue
    && (!s.pump.Ended? ==> s.dropped == [])
    && |s.dropped| <= 1
  }

  ghost predicate EndsCleanly(s: State) {
    && (s.pump == Ended(Drained) ==> s.completed && s.queue == [] && s.dropped == [])
    && (!s.disturbed ==> s.socketOpen && (s.cancelled ==> s.pump.Ended?))
    && (!s.disturbed && s.pump.Ended? ==> s.pump == Ended(Drained))
  }

  ghost predicate Reserve(w: nat, s: State) {
    && |s.queue| <= CAPACITY
    && Logs(s.queue) + |s.passed| <= HIGH_WATER - 1 + w
  }

  ghost predicate KnownSenders(w: nat, s: State) {
    && (forall x | x in s.passed :: x < w)
    && (forall x | x in s.waiting :: s.waiting[x].tier == Critical)
  }

  /** Every send call is accounted for: accepted, dropped, undelivered, not encodable, or still under way. */
  ghost predicate Balanced(s: State) {
    s.books.offered == |s.accepted| + s.books.drops + s.books.logDrops + s.books.undelivered + s.books.unencoded + |s.passed| + |s.waiting|
  }

  lemma {:induction false} LogsOfTail(q: seq<Frame>)
    requires q != []
    ensures Logs(q[1..]) == Logs(q) - if q[0].tier == Log then 1 else 0
  {
    if |q| > 1 {
      LogsOfTail(q[..|q| - 1]);
      assert q[1..][..|q| - 2] == q[..|q| - 1][1..];
    }
  }

  lemma LogsOfAppend(q: seq<Frame>, f: Frame)
    ensures Logs(q + [f]) == Logs(q) + if f.tier == Log then 1 else 0
  {
    assert (q + [f])[..|q|] == q;
  }

  lemma {:induction false} LogsAtMostAll(q: seq<Frame>)
    ensures Logs(q) <= |q|
  {
    if q != [] {
      LogsAtMostAll(q[..|q| - 1]);
    }
  }

  lemma {:induction false} BoundedIds(xs: set<Sender>, w: nat)
    requires forall x | x in xs :: x < w
    ensures |xs| <= w
  {
    if w == 0 {
      assert xs == {};
    } else {
      BoundedIds(xs - {w - 1}, w - 1);
    }
  }

  lemma EnqueueInOrder(s: State, f: Frame)
    requires InOrder(s)
    ensures InOrder(Enqueue(s, f))
  {
    assert s.sent + InHand(s) + (s.queue + [f]) == (s.sent + InHand(s) + s.queue) + [f];
  }

  lemma DequeueInOrder(s: State)
    requires InOrder(s) && s.pump == Idle && s.queue != []
    ensures InOrder(s.(queue := s.queue[1..], pump := Holding(s.queue[0])))
  {
    assert s.queue == [s.queue[0]] + s.queue[1..];
    assert s.sent + [] + s.queue == s.sent + [s.queue[0]] + s.queue[1..];
  }

  lemma SendInOrder(s: State)
    requires InOrder(s) && s.pump.Holding?
    ensures InOrder(s.(pump := Idle, sent := s.sent + [s.pump.frame]))
  {
    assert s.sent + [s.pump.frame] + s.queue == (s.sent + [s.pump.frame]) + [] + s.queue;
  }

  lemma AbandonInOrder(s: State, reason: EndReason)
    requires InOrder(s)
    ensures InOrder(Abandon(s, reason))
  {
  }

  /** What the order law looks at. */
  lemma OrderLawReads(s: State, t: State)
    requires InOrder(s)
    requires t.accepted == s.accepted && t.sent == s.sent && t.pump == s.pump && t.dropped == s.dropped && t.queue == s.queue
    ensures InOrder(t)
  {
  }

  lemma WriteInOrder(s: State, f: Frame)
    requires InOrder(s)
    ensures InOrder(TryWrite(s, f))
  {
    hide InOrder;
    EnqueueInOrder(s, f);
  }

  lemma InOrderStep(w: nat, s: State, step: Step)
    requires InOrder(s) && Enabled(w, s, step)
    ensures InOrder(Apply(w, s, step))
  {
    hide Booked, InOrder, TryWrite, Enqueue, Abandon;
    MovedInOrder(w, s, step);
    OrderLawReads(Moved(w, s, step), Apply(w, s, step));
  }

  lemma MovedInOrder(w: nat, s: State, step: Step)
    requires InOrder(s) && Enabled(w, s, step)
    ensures InOrder(Moved(w, s, step))
  {
    hide InOrder, TryWrite, Enqueue, Abandon;
    match step
    case Write(f) => WriteInOrder(s, f);
    case CheckBacklog(x) => OrderLawReads(s, Moved(w, s, step));
    case WriteLog(x, id) =>
      OrderLawReads(s, s.(passed := s.passed - {x}));
      WriteInOrder(s.(passed := s.passed - {x}), Frame(Log, id));
    case WriteCritical(x, f) =>
      EnqueueInOrder(s, f);
      OrderLawReads(s, s.(waiting := s.waiting[x := f]));
    case AdmitWaiting(x) =>
      OrderLawReads(s, s.(waiting := s.waiting - {x}));
      EnqueueInOrder(s.(waiting := s.waiting - {x}), s.waiting[x]);
    case FailEncode => OrderLawReads(s, Moved(w, s, step));
    case FailEncodeLog(x) => OrderLawReads(s, Moved(w, s, step));
    case StopWaiting(x) => OrderLawReads(s, Moved(w, s, step));
    case Dequeue => DequeueInOrder(s);
    case Send => SendInOrder(s);
    case FindSocketClosed => AbandonInOrder(s, SocketNotOpen);
    case FailSend =>
      AbandonInOrder(s, SendFailed);
      OrderLawReads(Abandon(s, SendFailed), Moved(w, s, step));
    case Drain => DrainInOrder(s);
    case StopOnCancel => AbandonInOrder(s, Cancelled);
    case CloseSocket => OrderLawReads(s, Moved(w, s, step));
    case Complete => OrderLawReads(s, Moved(w, s, step));
    case Cancel(_) => OrderLawReads(s, Moved(w, s, step));
    case ShutDown => OrderLawReads(s, Moved(w, s, step));
  }

  lemma DrainInOrder(s: State)
    requires InOrder(s) && s.pump == Idle
    ensures InOrder(s.(pump := Ended(Drained)))
  {
  }

  lemma EndsCleanlyStep(w: nat, s: State, step: Step)
    requires InOrder(s) && EndsCleanly(s) && Enabled(w, s, step)
    ensures EndsCleanly(Apply(w, s, step))
  {
    hide Booked;
  }

  lemma KnownSendersStep(w: nat, s: State, step: Step)
    requires KnownSenders(w, s) && Enabled(w, s, step)
    ensures KnownSenders(w, Apply(w, s, step))
  {
    hide Booked;
  }

  lemma RemoveOne<T>(xs: set<T>, x: T)
    requires x in xs
    ensures |xs - {x}| == |xs| - 1
  {
  }

  lemma RemoveKey<K, V>(m: map<K, V>, k: K)
    requires k in m
    ensures |m - {k}| == |m| - 1
  {
    assert m == (m - {k})[k := m[k]];
  }

  predicate Enqueues(s: State, step: Step) {
    step.AdmitWaiting? || (CanWrite(s) && (step.Write? || step.WriteLog? || step.WriteCritical?))
  }

  lemma AcceptedGrows(w: nat, s: State, step: Step)
    requires Enabled(w, s, step)
    ensures |Moved(w, s, step).accepted| == |s.accepted| + One(Enqueues(s, step))
  {
  }

  lemma PassedChanges(w: nat, s: State, step: Step)
    requires Enabled(w, s, step)
    ensures |Moved(w, s, step).passed|
         == |s.passed| + One(step.CheckBacklog? && |s.queue| < HIGH_WATER) - One(step.WriteLog? || step.FailEncodeLog?)
  {
    if step.WriteLog? || step.FailEncodeLog? {
      RemoveOne(s.passed, step.sender);
    }
  }

  lemma WaitingChanges(w: nat, s: State, step: Step)
    requires Enabled(w, s, step)
    ensures |Moved(w, s, step).waiting|
         == |s.waiting| + One(step.WriteCritical? && !CanWrite(s)) - One(step.AdmitWaiting? || step.StopWaiting?)
  {
    if step.AdmitWaiting? || step.StopWaiting? {
      RemoveKey(s.waiting, step.sender);
    }
  }

  lemma QueueChanges(w: nat, s: State, step: Step)
    requires |s.queue| <= CAPACITY && KnownSenders(w, s) && Enabled(w, s, step)
    ensures |Moved(w, s, step).queue| <= CAPACITY
    ensures Logs(Moved(w, s, step).queue) <= Logs(s.queue) + One(step.WriteLog?)
  {
    hide Logs;
    match step
    case Write(f) => LogsOfAppend(s.queue, f);
    case WriteCritical(x, f) => LogsOfAppend(s.queue, f);
    case WriteLog(x, id) => LogsOfAppend(s.queue, Frame(Log, id));
    case AdmitWaiting(x) => LogsOfAppend(s.queue, s.waiting[x]);
    case Dequeue => LogsOfTail(s.queue);
    case _ =>
  }

  /** A passing check leaves room: at most `w` have passed, and below the mark everything queued fits. */
  lemma PassedTogether(w: nat, s: State, x: Sender)
    requires KnownSenders(w, s) && x < w && x !in s.passed && |s.queue| < HIGH_WATER
    ensures Logs(s.queue) + |s.passed| + 1 <= HIGH_WATER - 1 + w
  {
    LogsAtMostAll(s.queue);
    BoundedIds(s.passed + {x}, w);
  }

  lemma ReserveStep(w: nat, s: State, step: Step)
    requires Reserve(w, s) && KnownSenders(w, s) && Enabled(w, s, step)
    ensures Reserve(w, Apply(w, s, step))
  {
    QueueChanges(w, s, step);
    PassedChanges(w, s, step);
    if step.CheckBacklog? && |s.queue| < HIGH_WATER {
      PassedTogether(w, s, step.sender);
    }
    hide Moved, Logs, Booked, KnownSenders;
  }

  lemma BalancedStep(w: nat, s: State, step: Step)
    requires Balanced(s) && Enabled(w, s, step)
    ensures Balanced(Apply(w, s, step))
  {
    AcceptedGrows(w, s, step);
    PassedChanges(w, s, step);
    WaitingChanges(w, s, step);
    hide Moved, Accepts;
  }

  lemma {:induction false} RunKeeps(w: nat, steps: seq<Step>)
    requires Legal(w, steps)
    ensures InOrder(Play(w, steps)) && EndsCleanly(Play(w, steps)) && Reserve(w, Play(w, steps))
    ensures KnownSenders(w, Play(w, steps)) && Balanced(Play(w, steps))
    decreases |steps|
  {
    if steps != [] {
      var n := |steps| - 1;
      RunKeeps(w, steps[..n]);
      InOrderStep(w, Play(w, steps[..n]), steps[n]);
      EndsCleanlyStep(w, Play(w, steps[..n]), steps[n]);
      ReserveStep(w, Play(w, steps[..n]), steps[n]);
      KnownSendersStep(w, Play(w, steps[..n]), steps[n]);
      BalancedStep(w, Play(w, steps[..n]), steps[n]);
    }
  }

  // ---------- Main results ----------

  /** The socket sees a prefix of the accepted order; at most one accepted frame is in neither. */
  lemma SentIsPrefixOfAccepted(w: nat, s: State)
    requires Reachable(w, s)
    ensures s.accepted == s.sent + InHand(s) + s.queue && |InHand(s)| <= 1
    ensures s.sent <= s.accepted
  {
    var steps :| Legal(w, steps) && Play(w, steps) == s;
    RunKeeps(w, steps);
  }

  /**
   A pump that ends by draining has sent every accepted frame, critical ones
   included; and draining is the only way it ends unless the socket failed, the
   drain window ran out or the process is shutting down.
   */
  lemma DrainedPumpSentEverything(w: nat, s: State)
    requires Reachable(w, s) && s.pump.Ended?
    ensures !s.disturbed ==> s.pump == Ended(Drained)
    ensures s.pump == Ended(Drained) ==> s.sent == s.accepted
  {
    var steps :| Legal(w, steps) && Play(w, steps) == s;
    RunKeeps(w, steps);
  }

  /** No frame disappears uncounted: calls made are frames accepted, drops counted, senders told, or calls under way. */
  lemma EverySendIsAccountedFor(w: nat, s: State)
    requires Reachable(w, s)
    ensures s.books.offered == |s.accepted| + s.books.drops + s.books.logDrops + s.books.undelivered + s.books.unencoded + |s.passed| + |s.waiting|
  {
    var steps :| Legal(w, steps) && Play(w, steps) == s;
    RunKeeps(w, steps);
  }

  /** With `w` concurrent low-priority senders, queued log frames stay below the mark plus `w`. */
  lemma LogFramesAreBounded(w: nat, s: State)
    requires Reachable(w, s)
    ensures Logs(s.queue) <= HIGH_WATER - 1 + w
  {
    var steps :| Legal(w, steps) && Play(w, steps) == s;
    RunKeeps(w, steps);
  }

  /** On an open channel a frame is refused only if that many non-log frames are queued already. */
  lemma RefusedOnlyForPayload(w: nat, s: State)
    requires Reachable(w, s) && !s.completed && !CanWrite(s)
    ensures |s.queue| - Logs(s.queue) >= CAPACITY - HIGH_WATER + 1 - w
  {
    var steps :| Legal(w, steps) && Play(w, steps) == s;
    RunKeeps(w, steps);
  }

  // ---------- The bound on log frames is attained ----------

  function LogFrames(n: nat): (q: seq<Frame>)
    ensures |q| == n
  {
    if n == 0 then [] else LogFrames(n - 1) + [Frame(Log, 0)]
  }

  function Filled(n: nat, passed: set<Sender>, offered: nat): State {
    START.(queue := LogFrames(n), accepted := LogFrames(n), passed := passed, books := Books(offered, 0, 0, 0, 0))
  }

  function Below(n: nat): (xs: set<Sender>)
    ensures forall x: nat :: x in xs <==> x < n
  {
    if n == 0 then {} else Below(n - 1) + {n - 1}
  }

  lemma {:induction false} CanFill(w: nat, n: nat)
    requires w >= 1 && n < HIGH_WATER
    ensures Reachable(w, Filled(n, {}, n))
    decreases n
  {
    if n == 0 {
      assert Play(w, []) == START;
    } else {
      CanFill(w, n - 1);
      var s := Filled(n - 1, {}, n - 1);
      ReachesNext(w, s, CheckBacklog(0));
      var t := Apply(w, s, CheckBacklog(0));
      ReachesNext(w, t, WriteLog(0, 0));
      assert t.passed - {0} == {};
    }
  }

  lemma {:induction false} CanPassTogether(w: nat, k: nat)
    requires 1 <= w && k <= w
    ensures Reachable(w, Filled(HIGH_WATER - 1, Below(k), HIGH_WATER - 1 + k))
    decreases k
  {
    hide LogFrames, Below, Reachable;
    if k == 0 {
      CanFill(w, HIGH_WATER - 1);
      assert Below(0) == {};
    } else {
      var s := Filled(HIGH_WATER - 1, Below(k - 1), HIGH_WATER - 1 + k - 1);
      CanPassTogether(w, k - 1);
      ReachesNext(w, s, CheckBacklog(k - 1));
      assert Below(k - 1) + {k - 1} == Below(k);
      assert Apply(w, s, CheckBacklog(k - 1)) == Filled(HIGH_WATER - 1, Below(k), HIGH_WATER - 1 + k);
    }
  }

  lemma {:induction false} CanWriteTogether(w: nat, k: nat)
    requires 1 <= w <= HIGH_WATER && k <= w
    ensures Reachable(w, Filled(HIGH_WATER - 1 + w - k, Below(k), HIGH_WATER - 1 + w))
    decreases w - k
  {
    if k == w {
      CanPassTogether(w, w);
    } else {
      CanWriteTogether(w, k + 1);
      ReachesNext(w, Filled(HIGH_WATER - 1 + w - (k + 1), Below(k + 1), HIGH_WATER - 1 + w), WriteLog(k, 0));
      assert Below(k + 1) - {k} == Below(k);
    }
  }

  lemma {:induction false} LogsOfLogFrames(n: nat)
    ensures Logs(LogFrames(n)) == n
  {
    if n > 0 {
      LogsOfLogFrames(n - 1);
      LogsOfAppend(LogFrames(n - 1), Frame(Log, 0));
    }
  }

  /** Because check and write are two operations, `w` senders really exceed the mark by `w - 1`. */
  lemma LogBoundIsAttained(w: nat) returns (s: State)
    requires 1 <= w <= HIGH_WATER
    ensures Reachable(w, s) && Logs(s.queue) == HIGH_WATER - 1 + w
  {
    hide LogFrames, Below, Logs, Reachable;
    CanWriteTogether(w, 0);
    s := Filled(HIGH_WATER - 1 + w, Below(0), HIGH_WATER - 1 + w);
    LogsOfLogFrames(HIGH_WATER - 1 + w);
  }
}
