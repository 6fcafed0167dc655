/**
 The tester lock (benchmarks/orchestrator/src/tester_state.rs): one database row
 changed by conditional UPDATEs. Any number of clients race for it, each with an
 UPDATE and, if that misses, a separate SELECT, while power changes, upgrades,
 deletion and forced releases come in between.
 */
module TesterLock {
  import opened Options

  type ConfigId = nat
  const NIL: ConfigId := 0

  datatype Power = Running | Stopped | Starting | Stopping | Provisioning | Failed | OtherPower(code: nat)

  datatype Allocation = Idle | Locked | Upgrading

  datatype Row = Row(power: Power, allocation: Allocation, locker: Option<ConfigId>)

  datatype Outcome =
    | Acquired
    | NeedsStart
    | Transient(power: Power)
    | UpgradingNow
    | AlreadyLockedBy(config: ConfigId)
    | Errored
    | NotIdle(state: Power, allocation: Allocation)
    | Gone

  /** Table constraints lock_holder_implies_locked and lock_requires_running_vm. */
  predicate Checks(r: Row) {
    && (r.allocation == Locked <==> r.locker.Some?)
    && (r.allocation == Locked ==> r.power == Running)
  }

  // ---------- The statements ----------

  predicate Matches(row: Option<Row>) {
    row.Some? && row.value.power == Running && row.value.allocation == Idle && row.value.locker == None
  }

  function Taken(row: Option<Row>, config: ConfigId): Option<Row>
    requires Matches(row)
  {
    Some(row.value.(allocation := Locked, locker := Some(config)))
  }

  function Classified(row: Option<Row>): Outcome {
    match row
    case None => Gone
    case Some(r) =>
      match (r.power, r.allocation)
      case (Stopped, _) => NeedsStart
      case (Starting, _) => Transient(r.power)
      case (Stopping, _) => Transient(r.power)
      case (Provisioning, _) => Transient(r.power)
      case (Running, Locked) => AlreadyLockedBy(if r.locker.Some? then r.locker.value else NIL)
      case (Running, Upgrading) => UpgradingNow
      case (Failed, _) => Errored
      case _ => NotIdle(r.power, r.allocation)
  }

  function Released(row: Option<Row>, config: ConfigId): Option<Row> {
    if row.Some? && row.value.locker == Some(config) then Some(row.value.(allocation := Idle, locker := None)) else row
  }

  function ForceReleased(row: Option<Row>): Option<Row> {
    if row.Some? then Some(row.value.(allocation := Idle, locker := None)) else row
  }

  /** A statement that would break a table constraint fails and changes nothing. */
  function PowerMoved(row: Option<Row>, expected: Power, next: Power): Option<Row> {
    if row.Some? && row.value.power == expected && Checks(row.value.(power := next)) then Some(row.value.(power := next)) else row
  }

  datatype Transition = Moved(changed: bool) | Refused

  /** The row as the statements see it. */
  class Tester {
    var row: Option<Row>

    method TryLock(config: ConfigId) returns (locked: bool)
      modifies this
      ensures locked <==> Matches(old(row))
      ensures locked <==> old(row) == Some(Row(Running, Idle, None))
      ensures row == if locked then Some(Row(Running, Locked, Some(config))) else old(row)
    {
      locked := false;
      if row.Some? && row.value.power == Running && row.value.allocation == Idle && row.value.locker == None {
        row := Some(Row(row.value.power, Locked, Some(config)));
        locked := true;
      }
    }

    method Classify() returns (o: Outcome)
      ensures o == Classified(row)
    {
      if row.None? {
        return Gone;
      }
      var power, allocation := row.value.power, row.value.allocation;
      if power == Stopped {
        o := NeedsStart;
      } else if power in {Starting, Stopping, Provisioning} {
        o := Transient(power);
      } else if power == Running && allocation == Locked {
        o := AlreadyLockedBy(if row.value.locker.Some? then row.value.locker.value else NIL);
      } else if power == Running && allocation == Upgrading {
        o := UpgradingNow;
      } else if power == Failed {
        o := Errored;
      } else {
        o := NotIdle(power, allocation);
      }
    }

    method Release(config: ConfigId)
      modifies this
      ensures row == Released(old(row), config)
    {
      if row.Some? && row.value.locker == Some(config) {
        row := Some(Row(row.value.power, Idle, None));
      }
    }

    method TryPowerTransition(expected: Power, next: Power) returns (t: Transition)
      modifies this
      ensures row == PowerMoved(old(row), expected, next)
      ensures t == Moved(true) ==> old(row).Some? && old(row).value.power == expected && row == Some(old(row).value.(power := next))
      ensures t == Moved(false) <==> old(row).None? || old(row).value.power != expected
      ensures t != Moved(true) ==> row == old(row)
    {
      if row.None? || row.value.power != expected {
        return Moved(false);
      }
      var changed := row.value.(power := next);
      if Checks(changed) {
        row := Some(changed);
        t := Moved(true);
      } else {
        t := Refused;
      }
    }
  }

  // ---------- Clients racing for the row ----------

  type ClientId = nat

  datatype Client =
    | Missed(config: ConfigId)                    // the UPDATE matched no row, the SELECT is to come
    | Answered(config: ConfigId, outcome: Outcome)
    | Holding(config: ConfigId)                   // from Acquired to its release
    | Finished(config: ConfigId)

  /** `forced` records that a forced release took a lock from a holder. */
  datatype State = State(row: Option<Row>, clients: map<ClientId, Client>, forced: bool)

  datatype Step =
    | Update(client: ClientId, config: ConfigId)
    | Select(client: ClientId)
    | Release(client: ClientId)
    | LoseRelease(client: ClientId)     // the statement fails, or the process dies
    | Power(expected: Power, next: Power)
    | BeginUpgrade
    | EndUpgrade
    | Delete
    | ForceRelease

  predicate IsHolding(s: State, c: ClientId) {
    c in s.clients && s.clients[c].Holding?
  }

  predicate Enabled(s: State, step: Step) {
    match step
    case Update(c, _) => c !in s.clients || s.clients[c].Answered? || s.clients[c].Finished?
    case Select(c) => c in s.clients && s.clients[c].Missed?
    case Release(c) => IsHolding(s, c)
    case LoseRelease(c) => IsHolding(s, c)
    case Power(_, _) => true
    case BeginUpgrade => s.row.Some? && s.row.value.allocation == Idle
    case EndUpgrade => s.row.Some? && s.row.value.allocation == Upgrading
    case Delete => true
    case ForceRelease => true
  }

  function Put(s: State, c: ClientId, client: Client): State {
    s.(clients := s.clients[c := client])
  }

  function Apply(s: State, step: Step): State
    requires Enabled(s, step)
  {
    match step
    case Update(c, config) =>
      if Matches(s.row) then Put(s, c, Holding(config)).(row := Taken(s.row, config)) else Put(s, c, Missed(config))
    case Select(c) => Put(s, c, Answered(s.clients[c].config, Classified(s.row)))
    case Release(c) => Put(s, c, Finished(s.clients[c].config)).(row := Released(s.row, s.clients[c].config))
    case LoseRelease(c) => Put(s, c, Finished(s.clients[c].config))
    case Power(expected, next) => s.(row := PowerMoved(s.row, expected, next))
    case BeginUpgrade => s.(row := Some(s.row.value.(allocation := Upgrading)))
    case EndUpgrade => s.(row := Some(s.row.value.(allocation := Idle)))
    case Delete => s.(row := None)
    case ForceRelease =>
      s.(row := ForceReleased(s.row), forced := s.forced || (s.row.Some? && s.row.value.locker.Some?))
  }

  function Start(power: Power): State {
    State(Some(Row(power, Idle, None)), map[], false)
  }

  // ---------- Runs ----------

  predicate Legal(power: Power, steps: seq<Step>)
    decreases |steps|, 0
  {
    steps == [] ||
    var n := |steps| - 1;
    Legal(power, steps[..n]) && Enabled(Play(power, steps[..n]), steps[n])
  }

  function Play(power: Power, steps: seq<Step>): State
    requires Legal(power, steps)
    decreases |steps|, 1
  {
    if steps == [] then Start(power)
    else Apply(Play(power, steps[..|steps| - 1]), steps[|steps| - 1])
  }

  ghost predicate Reachable(s: State) {
    exists power: Power, steps: seq<Step> :: Legal(power, steps) && Play(power, steps) == s
  }

  lemma ReachesNext(s: State, step: Step)
    requires Reachable(s) && Enabled(s, step)
    ensures Reachable(Apply(s, step))
  {
    hide Enabled, Apply;
    var power, steps :| Legal(power, steps) && Play(power, steps) == s;
    assert (steps + [step])[..|steps|] == steps;
    assert Legal(power, steps + [step]) && Play(power, steps + [step]) == Apply(s, step);
  }

  // ---------- What every run keeps ----------

  ghost predicate RowIsSound(s: State) {
    s.row.Some? ==> Checks(s.row.value)
  }

  /** Until a lock is forced away the one holder is the one the row names. */
  ghost predicate HolderIsNamed(s: State) {
    !s.forced ==>
      && (forall c | IsHolding(s, c) && s.row.Some? :: s.row.value.locker == Some(s.clients[c].config))
      && (forall c, d | IsHolding(s, c) && IsHolding(s, d) :: c == d)
  }

  lemma KeptByStep(s: State, step: Step)
    requires RowIsSound(s) && HolderIsNamed(s) && Enabled(s, step)
    ensures RowIsSound(Apply(s, step)) && HolderIsNamed(Apply(s, step))
  {
    var t := Apply(s, step);
    forall c | IsHolding(t, c)
      ensures IsHolding(s, c) || (step.Update? && c == step.client && Matches(s.row))
    {
    }
  }

  lemma {:induction false} RunKeeps(power: Power, steps: seq<Step>)
    requires Legal(power, steps)
    ensures RowIsSound(Play(power, steps)) && HolderIsNamed(Play(power, steps))
    decreases |steps|
  {
    if steps != [] {
      hide RowIsSound, HolderIsNamed, Apply, Enabled;
      var n := |steps| - 1;
      RunKeeps(power, steps[..n]);
      KeptByStep(Play(power, steps[..n]), steps[n]);
    }
  }

  // ---------- Main results ----------

  /** In every run, forced releases included, the row is locked exactly when a locker is recorded, and then it runs. */
  lemma LockedIffLockerRecorded(s: State)
    requires Reachable(s) && s.row.Some?
    ensures s.row.value.allocation == Locked <==> s.row.value.locker.Some?
    ensures s.row.value.allocation == Locked ==> s.row.value.power == Running
  {
    var power, steps :| Legal(power, steps) && Play(power, steps) == s;
    RunKeeps(power, steps);
  }

  /** Without a forced release there is at most one holder between Acquired and its release, and the row names it. */
  lemma AtMostOneHolder(s: State, c: ClientId, d: ClientId)
    requires Reachable(s) && !s.forced && IsHolding(s, c) && IsHolding(s, d)
    ensures c == d
    ensures s.row.Some? ==> s.row.value.locker == Some(s.clients[c].config)
  {
    var power, steps :| Legal(power, steps) && Play(power, steps) == s;
    RunKeeps(power, steps);
  }

  /** A release changes the row if and only if the row names its config, and then it frees the tester. */
  lemma ReleaseOnlyOwnLock(s: State, config: ConfigId)
    requires Reachable(s)
    ensures Released(s.row, config) != s.row <==> s.row.Some? && s.row.value.locker == Some(config)
    ensures s.row.Some? && s.row.value.locker == Some(config) ==> Matches(Released(s.row, config))
  {
    var power, steps :| Legal(power, steps) && Play(power, steps) == s;
    RunKeeps(power, steps);
  }

  /** An answer naming a locker names the one recorded when the SELECT ran; the nil fallback is never used. */
  lemma AnswerNamesTheLocker(s: State, c: ClientId, x: ConfigId)
    requires Reachable(s) && Enabled(s, Select(c))
    ensures Apply(s, Select(c)).clients[c].outcome == AlreadyLockedBy(x)
       <==> s.row.Some? && s.row.value.locker == Some(x)
  {
    var power, steps :| Legal(power, steps) && Play(power, steps) == s;
    RunKeeps(power, steps);
  }

  /** NotIdle(running, idle) is what a client is told exactly if the tester is free again by the time of the SELECT. */
  lemma NotIdleOnAFreeTesterIff(s: State, c: ClientId)
    requires Reachable(s) && Enabled(s, Select(c))
    ensures Apply(s, Select(c)).clients[c].outcome == NotIdle(Running, Idle) <==> Matches(s.row)
  {
    var power, steps :| Legal(power, steps) && Play(power, steps) == s;
    RunKeeps(power, steps);
  }

  /**
   If nothing comes between UPDATE and SELECT the answer explains the miss: it is
   NotIdle only for a power state the classifier does not know.
   */
  lemma ImmediateAnswerExplains(s: State, c: ClientId, config: ConfigId)
    requires Reachable(s) && Enabled(s, Update(c, config)) && !Matches(s.row)
    ensures var missed := Apply(s, Update(c, config));
            && Enabled(missed, Select(c))
            && var o := Apply(missed, Select(c)).clients[c].outcome;
               && o != Acquired
               && (o.NotIdle? ==> s.row.Some? && s.row.value.power.OtherPower?)
  {
    var power, steps :| Legal(power, steps) && Play(power, steps) == s;
    RunKeeps(power, steps);
  }

  /** A racing release really produces that answer. */
  lemma RacingReleaseMisleads(c: ClientId, d: ClientId, mine: ConfigId, theirs: ConfigId) returns (s: State)
    requires c != d
    ensures Reachable(s) && Matches(s.row)
    ensures c in s.clients && s.clients[c] == Answered(mine, NotIdle(Running, Idle))
  {
    assert Legal(Running, []) && Play(Running, []) == Start(Running);
    var s1 := Apply(Start(Running), Update(d, theirs));
    var s2 := Apply(s1, Update(c, mine));
    var s3 := Apply(s2, Release(d));
    s := Apply(s3, Select(c));
    ReachesNext(Start(Running), Update(d, theirs));
    ReachesNext(s1, Update(c, mine));
    ReachesNext(s2, Release(d));
    ReachesNext(s3, Select(c));
  }

  /** A forced release under a holder lets any other client in beside it, and the first one's own release then changes nothing. */
  lemma ForcedReleaseAdmitsASecondHolder(s: State, c: ClientId, d: ClientId, theirs: ConfigId) returns (after: State)
    requires Reachable(s) && !s.forced && IsHolding(s, c) && s.row.Some?
    requires d != c && Enabled(s, Update(d, theirs)) && theirs != s.clients[c].config
    ensures Reachable(after) && IsHolding(after, c) && IsHolding(after, d)
    ensures Released(after.row, after.clients[c].config) == after.row
  {
    AtMostOneHolder(s, c, c);
    LockedIffLockerRecorded(s);
    var s1 := Apply(s, ForceRelease);
    after := Apply(s1, Update(d, theirs));
    ReachesNext(s, ForceRelease);
    ReachesNext(s1, Update(d, theirs));
  }

  /** What each answer says about the row, and that no answer leaves a row unexplained. */
  lemma AnswersIff(row: Option<Row>)
    ensures var o := Classified(row);
            && (o == Gone <==> row == None)
            && (o == NeedsStart <==> row.Some? && row.value.power == Stopped)
            && (o == Errored <==> row.Some? && row.value.power == Power.Failed)
            && (o == UpgradingNow <==> row.Some? && row.value.power == Running && row.value.allocation == Upgrading)
            && (o.AlreadyLockedBy? <==> row.Some? && row.value.power == Running && row.value.allocation == Locked)
            && (o.Transient? <==> row.Some? && row.value.power in {Starting, Stopping, Provisioning})
            && (o.Transient? ==> o.power == row.value.power)
            && (o.NotIdle? <==> row.Some? && (row.value.power.OtherPower? || (row.value.power == Running && row.value.allocation == Idle)))
            && (o.NotIdle? ==> o.state == row.value.power && o.allocation == row.value.allocation)
  {
  }

  /** An UPDATE makes its client the holder exactly if the tester could be taken, and then the row names its config. */
  lemma LockWonIff(s: State, c: ClientId, config: ConfigId)
    requires Reachable(s) && Enabled(s, Update(c, config))
    ensures var after := Apply(s, Update(c, config));
            && (IsHolding(after, c) <==> s.row.Some? && s.row.value.power == Running && s.row.value.allocation == Idle)
            && (IsHolding(after, c) ==> after.row == Some(Row(Running, Locked, Some(config))) && after.clients[c].config == config)
            && (!IsHolding(after, c) ==> after.row == s.row)
  {
    var power, steps :| Legal(power, steps) && Play(power, steps) == s;
    RunKeeps(power, steps);
  }

  /** The holder's release frees the tester, and whoever tries next gets it. */
  lemma ReleaseFreesTheTester(s: State, c: ClientId, d: ClientId, config: ConfigId)
    requires Reachable(s) && !s.forced && IsHolding(s, c) && s.row.Some?
    ensures var freed := Apply(s, Step.Release(c));
            && freed.row == Some(Row(Running, Idle, None)) && !IsHolding(freed, c)
            && (Enabled(freed, Update(d, config)) ==> IsHolding(Apply(freed, Update(d, config)), d))
  {
    var power, steps :| Legal(power, steps) && Play(power, steps) == s;
    RunKeeps(power, steps);
  }

  /** A power change happens exactly from the expected state, and never takes the power from a locked tester. */
  lemma PowerMovesIff(s: State, expected: Power, next: Power)
    requires Reachable(s) && s.row.Some? && expected != next
    ensures var after := Apply(s, Step.Power(expected, next)).row;
            && after.Some? && after.value.allocation == s.row.value.allocation && after.value.locker == s.row.value.locker
            && (after.value.power == next <==>
                  s.row.value.power == next || (s.row.value.power == expected && s.row.value.allocation != Locked))
            && (after.value.power != next ==> after == s.row)
  {
    var power, steps :| Legal(power, steps) && Play(power, steps) == s;
    RunKeeps(power, steps);
  }

  /** An upgrade keeps clients out and lets them in again at its end; a deleted tester is reported gone. */
  lemma UpgradesAndDeletions(s: State)
    requires Reachable(s)
    ensures Enabled(s, BeginUpgrade) ==> !Matches(Apply(s, BeginUpgrade).row)
    ensures Enabled(s, EndUpgrade) ==> (Matches(Apply(s, EndUpgrade).row) <==> s.row.value.power == Running)
    ensures Classified(Apply(s, Delete).row) == Gone
    ensures Apply(s, ForceRelease).row.Some? && s.row.value.power == Running ==> Matches(Apply(s, ForceRelease).row)
  {
    var power, steps :| Legal(power, steps) && Play(power, steps) == s;
    RunKeeps(power, steps);
  }

  /** The excuse of `AtMostOneHolder`: at first no lock was forced away, and only a forced release of a locked tester does that. */
  lemma ForcedIff(s: State, step: Step, atFirst: Power)
    requires Reachable(s) && Enabled(s, step)
    ensures !Start(atFirst).forced
    ensures Apply(s, step).forced <==> s.forced || (step == ForceRelease && s.row.Some? && s.row.value.allocation == Locked)
  {
    var power, steps :| Legal(power, steps) && Play(power, steps) == s;
    RunKeeps(power, steps);
  }

  /** A holder whose release is lost holds no more, but the row still names its config. */
  lemma LostReleaseKeepsTheLock(s: State, c: ClientId)
    requires Reachable(s) && !s.forced && IsHolding(s, c) && s.row.Some?
    ensures Enabled(s, LoseRelease(c)) && Enabled(s, Step.Release(c))
    ensures var lost := Apply(s, LoseRelease(c));
            !IsHolding(lost, c) && lost.row == s.row && lost.row.value.locker == Some(s.clients[c].config) && !Matches(lost.row)
  {
    var power, steps :| Legal(power, steps) && Play(power, steps) == s;
    RunKeeps(power, steps);
  }

  /** What may happen at any time, and what only to a row or client that is in the right state. */
  lemma WhatCanHappen(s: State, c: ClientId, config: ConfigId, p: Power, q: Power)
    ensures Enabled(s, Step.Power(p, q)) && Enabled(s, Delete) && Enabled(s, ForceRelease)
    ensures Enabled(s, BeginUpgrade) <==> s.row.Some? && s.row.value.allocation == Idle
    ensures Enabled(s, EndUpgrade) <==> s.row.Some? && s.row.value.allocation == Upgrading
    ensures Enabled(s, Update(c, config)) || Enabled(s, Select(c)) || Enabled(s, Step.Release(c))
    ensures Enabled(s, Select(c)) <==> c in s.clients && s.clients[c].Missed?
  {
  }
}
