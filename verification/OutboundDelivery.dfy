/** What becomes of each send call and of the pump: one outcome per call, true end reasons, and a way to the end. */
module OutboundDelivery {
  import opened Counting
  import opened OutboundChannel

  // ---------- One outcome per call ----------

  /** The books of `t`, if one call more ended in the way the flags say. */
  predicate Counted(s: State, t: State, drops: bool, logDrops: bool, undelivered: bool, unencoded: bool) {
    && t.books.drops == s.books.drops + One(drops)
    && t.books.logDrops == s.books.logDrops + One(logDrops)
    && t.books.undelivered == s.books.undelivered + One(undelivered)
    && t.books.unencoded == s.books.unencoded + One(unencoded)
  }

  /** A normal send appends its frame, or is counted as a drop: exactly if the channel is completed or holds 4096 frames. */
  lemma NormalSend(w: nat, s: State, f: Frame)
    requires Enabled(w, s, Write(f))
    ensures var t, refused := Apply(w, s, Write(f)), s.completed || |s.queue| >= 4096;
            && t.accepted == s.accepted + (if refused then [] else [f])
            && t.queue == s.queue + (if refused then [] else [f])
            && Counted(s, t, refused, false, false, false)
  {
  }

  /**
   A low-priority send is counted apart exactly if 2048 frames are queued at its
   check; past it, it appends its frame or is counted like a normal one.
   */
  lemma LowPrioritySend(w: nat, s: State, x: Sender, id: nat)
    ensures Enabled(w, s, CheckBacklog(x)) ==>
              var t := Apply(w, s, CheckBacklog(x));
              && (x in t.passed <==> |s.queue| < 2048) && t.accepted == s.accepted
              && Counted(s, t, false, |s.queue| >= 2048, false, false)
    ensures Enabled(w, s, WriteLog(x, id)) ==>
              var t, refused := Apply(w, s, WriteLog(x, id)), s.completed || |s.queue| >= 4096;
              && x !in t.passed && t.accepted == s.accepted + (if refused then [] else [Frame(Log, id)])
              && Counted(s, t, refused, false, false, false)
  {
  }

  /** A critical send is never dropped: its frame is appended, or it waits with it. */
  lemma CriticalSend(w: nat, s: State, x: Sender, f: Frame)
    requires Enabled(w, s, WriteCritical(x, f))
    ensures var t, full := Apply(w, s, WriteCritical(x, f)), s.completed || |s.queue| >= 4096;
            && t.accepted == s.accepted + (if full then [] else [f])
            && (x in t.waiting <==> full) && (full ==> t.waiting[x] == f)
            && Counted(s, t, false, false, false, false)
  {
  }

  /** A waiting sender keeps its place until its frame is appended, as soon as there is room, or it gives up, which is counted. */
  lemma WaitingEndsOneWay(w: nat, s: State, step: Step, x: Sender)
    requires Enabled(w, s, step) && x in s.waiting
    ensures var t := Apply(w, s, step);
            if step == AdmitWaiting(x) then x !in t.waiting && t.accepted == s.accepted + [s.waiting[x]]
            else if step == StopWaiting(x) then x !in t.waiting && Counted(s, t, false, false, true, false) && t.accepted == s.accepted
            else x in t.waiting && t.waiting[x] == s.waiting[x]
    ensures Enabled(w, s, AdmitWaiting(x)) <==> !s.completed && |s.queue| < 4096
  {
  }

  /** A message that cannot be encoded leaves channel and queue alone and is counted as that. */
  lemma UnencodedSend(w: nat, s: State, x: Sender)
    ensures var t := Apply(w, s, FailEncode);
            Counted(s, t, false, false, false, true) && t.(books := s.books) == s
    ensures Enabled(w, s, FailEncodeLog(x)) ==>
              var t := Apply(w, s, FailEncodeLog(x));
              Counted(s, t, false, false, false, true) && t.(books := s.books, passed := s.passed) == s && x !in t.passed
  {
  }

  /** Every other operation is no send call: it changes no books and accepts nothing. */
  lemma NoCall(w: nat, s: State, step: Step)
    requires Enabled(w, s, step)
    requires !step.Write? && !step.CheckBacklog? && !step.WriteLog? && !step.FailEncode? && !step.FailEncodeLog?
    requires !step.WriteCritical? && !step.AdmitWaiting? && !step.StopWaiting?
    ensures Apply(w, s, step).books == s.books && Apply(w, s, step).accepted == s.accepted
  {
  }

  // ---------- What the flags remember ----------

  predicate Cancels(step: Step) {
    step.Cancel? || step == ShutDown
  }

  lemma FlagsNow(w: nat, s: State, step: Step)
    requires Enabled(w, s, step)
    ensures var t := Apply(w, s, step);
            && (t.socketOpen <==> s.socketOpen && step != CloseSocket)
            && (t.completed <==> s.completed || step == Complete)
            && (t.cancelled <==> s.cancelled || Cancels(step))
  {
    SocketMoved(w, s, step);
    TokenMoved(w, s, step);
    hide Booked, Moved, Enabled, Cancels;
  }

  lemma SocketMoved(w: nat, s: State, step: Step)
    requires Enabled(w, s, step)
    ensures Moved(w, s, step).socketOpen <==> s.socketOpen && step != CloseSocket
    ensures Moved(w, s, step).completed <==> s.completed || step == Complete
  {
    hide Accepts;
  }

  lemma TokenMoved(w: nat, s: State, step: Step)
    requires Enabled(w, s, step)
    ensures Moved(w, s, step).cancelled <==> s.cancelled || Cancels(step)
  {
    hide Accepts;
  }

  predicate SomeCancels(steps: seq<Step>) {
    exists i :: 0 <= i < |steps| && Cancels(steps[i])
  }

  lemma SomeCancelsSnoc(steps: seq<Step>)
    requires steps != []
    ensures SomeCancels(steps) <==> SomeCancels(steps[..|steps| - 1]) || Cancels(steps[|steps| - 1])
    ensures forall x :: x in steps <==> x in steps[..|steps| - 1] || x == steps[|steps| - 1]
  {
    var n := |steps| - 1;
    if i :| 0 <= i < n && Cancels(steps[..n][i]) {
      assert Cancels(steps[i]);
    }
    if i :| 0 <= i <= n && Cancels(steps[i]) {
      assert i < n ==> Cancels(steps[..n][i]);
    }
    assert steps == steps[..n] + [steps[n]];
  }

  /**
   The socket is open until it closes, the channel takes frames until teardown,
   and the token fires with the teardown or with the process's own.
   */
  lemma {:induction false} FlagsIff(w: nat, steps: seq<Step>)
    requires Legal(w, steps)
    ensures var s := Play(w, steps);
            && (s.socketOpen <==> CloseSocket !in steps)
            && (s.completed <==> Complete in steps)
            && (s.cancelled <==> SomeCancels(steps))
    decreases |steps|
  {
    if steps != [] {
      hide Apply, Enabled, SomeCancels, Cancels;
      var n := |steps| - 1;
      FlagsIff(w, steps[..n]);
      FlagsNow(w, Play(w, steps[..n]), steps[n]);
      SomeCancelsSnoc(steps);
    }
  }

  // ---------- How the pump ends ----------

  ghost predicate TrueReason(s: State) {
    && (s.pump == Ended(Drained) ==> s.completed && s.queue == [])
    && (s.pump == Ended(SocketNotOpen) ==> !s.socketOpen && s.dropped != [])
    && (s.pump == Ended(Cancelled) ==> s.cancelled)
    && (s.pump == Ended(SendFailed) ==> s.disturbed && s.dropped != [])
  }

  lemma TrueReasonStep(w: nat, s: State, step: Step)
    requires TrueReason(s) && Enabled(w, s, step)
    ensures TrueReason(Apply(w, s, step))
  {
    hide Booked;
  }

  lemma {:induction false} RunKeepsReason(w: nat, steps: seq<Step>)
    requires Legal(w, steps)
    ensures TrueReason(Play(w, steps))
    decreases |steps|
  {
    if steps != [] {
      hide TrueReason, Apply, Enabled;
      RunKeepsReason(w, steps[..|steps| - 1]);
      TrueReasonStep(w, Play(w, steps[..|steps| - 1]), steps[|steps| - 1]);
    } else {
      assert TrueReason(START);
    }
  }

  /**
   The reason a pump ends for is true: the channel is completed and empty, the
   socket closed or failed under a frame, or the token fired.
   */
  lemma EndReasonsAreTrue(w: nat, s: State)
    requires Reachable(w, s)
    ensures s.pump == Ended(Drained) ==> s.completed && s.queue == []
    ensures s.pump == Ended(SocketNotOpen) ==> !s.socketOpen && s.dropped != []
    ensures s.pump == Ended(Cancelled) ==> s.cancelled
    ensures s.pump == Ended(SendFailed) ==> s.disturbed && s.dropped != []
  {
    var steps :| Legal(w, steps) && Play(w, steps) == s;
    RunKeepsReason(w, steps);
  }

  /** Trouble: a closed socket, a failed send, the process's own token, or a drain window that ran out before the pump's end. */
  predicate Disturbs(s: State, step: Step) {
    step == CloseSocket || step == FailSend || step == ShutDown || (step.Cancel? && !s.pump.Ended?)
  }

  lemma DisturbedNow(w: nat, s: State, step: Step)
    requires Enabled(w, s, step)
    ensures Apply(w, s, step).disturbed <==> s.disturbed || Disturbs(s, step)
  {
    hide Booked, Accepts;
  }

  /** The pump's own steps on an open socket. */
  function PumpStep(s: State): Step {
    if s.pump.Holding? then Send else if s.queue != [] then Dequeue else Drain
  }

  lemma PumpMoves(w: nat, s: State)
    requires InOrder(s) && s.completed && s.socketOpen && !s.pump.Ended?
    ensures Enabled(w, s, PumpStep(s))
    ensures var t := Apply(w, s, PumpStep(s));
            && t.accepted == s.accepted && t.completed && t.socketOpen && t.disturbed == s.disturbed
            && (t.pump == Ended(Drained) || (!t.pump.Ended? && 2 * |t.queue| + |InHand(t)| < 2 * |s.queue| + |InHand(s)|))
  {
    hide Booked;
  }

  lemma OrderHolds(w: nat, s: State)
    requires Reachable(w, s)
    ensures InOrder(s)
  {
    var steps :| Legal(w, steps) && Play(w, steps) == s;
    RunKeeps(w, steps);
  }

  /** From every state of teardown with an open socket, the pump alone can send all that was accepted, and then it drains. */
  lemma {:induction false} CanDrain(w: nat, s: State) returns (t: State)
    requires Reachable(w, s) && s.completed && s.socketOpen && !s.pump.Ended?
    ensures Reachable(w, t) && t.pump == Ended(Drained) && t.sent == t.accepted == s.accepted
    decreases 2 * |s.queue| + |InHand(s)|
  {
    OrderHolds(w, s);
    PumpMoves(w, s);
    t := Apply(w, s, PumpStep(s));
    ReachesNext(w, s, PumpStep(s));
    hide Apply, Enabled;
    if t.pump.Ended? {
      DrainedPumpSentEverything(w, t);
    } else {
      t := CanDrain(w, t);
    }
  }

  /** Teardown ends the pump, whatever state it finds: complete, let the drain window run out, cancel. */
  lemma TeardownEndsThePump(w: nat, s: State) returns (t: State)
    requires Reachable(w, s) && !s.pump.Ended?
    ensures Reachable(w, t) && t.pump == Ended(Cancelled) && t.accepted == s.accepted
    ensures t.dropped == InHand(s) && t.queue == s.queue && t.sent == s.sent
  {
    hide Booked;
    var s1 := Apply(w, s, Complete);
    var s2 := Apply(w, s1, Cancel(true));
    t := Apply(w, s2, StopOnCancel);
    ReachesNext(w, s, Complete);
    ReachesNext(w, s1, Cancel(true));
    ReachesNext(w, s2, StopOnCancel);
  }

  /**
   A pump with a frame in hand sends it exactly if the socket is open; an idle one
   takes the next frame, or drains once the channel is completed and empty, and
   else waits. Closing, completing and shutting down may come at any time, the
   teardown's cancellation only after completion and the end of the drain window.
   */
  lemma WhatCanHappen(w: nat, s: State, grace: bool)
    ensures Enabled(w, s, Send) <==> s.pump.Holding? && s.socketOpen
    ensures Enabled(w, s, FindSocketClosed) <==> s.pump.Holding? && !s.socketOpen
    ensures Enabled(w, s, Dequeue) <==> s.pump == Idle && s.queue != []
    ensures Enabled(w, s, Drain) <==> s.pump == Idle && s.queue == [] && s.completed
    ensures Enabled(w, s, CloseSocket) && Enabled(w, s, Complete) && Enabled(w, s, ShutDown) && Enabled(w, s, FailEncode)
    ensures Enabled(w, s, Step.Cancel(grace)) <==> s.completed && (s.pump.Ended? || grace)
    ensures Enabled(w, s, StopOnCancel) <==> s.cancelled && !s.pump.Ended?
  {
  }
}
