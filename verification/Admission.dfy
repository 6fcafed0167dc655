/**
 Admission of requests by the Go SDK handler (sdk/go/laghound.go, routes.go):
 two atomic counters used as concurrency gates, and the byte budget behind the
 transfer gate. Any number of requests interleave, one atomic operation at a time.
 */
module Admission {
  import opened ByteBudget
  import opened Counting
  import opened Products

  datatype Config = Config(
    maxConcurrent: int, maxTransfers: int,
    downloadCap: int, uploadCap: int,
    bytes: int, window: int)

  /** What `New` makes of its limits unless they do not fit the handler's 32 bits, or the window does not fit 64. */
  predicate Usable(c: Config) {
    && c.maxConcurrent >= 1 && c.maxTransfers >= 1
    && c.downloadCap >= 1 && c.uploadCap >= 1
    && c.bytes >= 1 && c.window >= 1
  }

  /** Where an active request stands between two of its atomic operations. */
  datatype Phase =
    | OverGate      // counted by the first gate, refused, undo pending
    | Inside        // holds an in-flight slot
    | OverTransfer  // also counted by the transfer gate, refused, undo pending
    | Transferring  // holds an in-flight slot and a transfer slot
    | Draining      // an upload the budget let through, not yet charged
    | Done          // transfer over; both deferred decrements pending
    | Leaving       // the in-flight decrement is pending

  type Id = nat

  datatype State = State(inflight: int, transfers: int, budget: BudgetState, active: map<Id, Phase>)

  datatype Step =
    | Arrive(id: Id)
    | UndoArrive(id: Id)
    | Acquire(id: Id)
    | UndoAcquire(id: Id)
    | TakeDownload(id: Id, n: int, now: int)
    | TakeUpload(id: Id, now: int)
    | Charge(id: Id, n: int)
    | Abort(id: Id)            // error, refusal, early return or recovered panic
    | ReleaseTransfer(id: Id)
    | Leave(id: Id)

  function Start(now: int): State {
    State(0, 0, BudgetState(now, 0), map[])
  }

  predicate At(s: State, id: Id, p: Phase) {
    id in s.active && s.active[id] == p
  }

  predicate Enabled(c: Config, s: State, step: Step) {
    match step
    case Arrive(id) => id !in s.active
    case UndoArrive(id) => At(s, id, OverGate)
    case Acquire(id) => At(s, id, Inside)
    case UndoAcquire(id) => At(s, id, OverTransfer)
    case TakeDownload(id, n, _) => At(s, id, Transferring) && 0 <= n <= c.downloadCap
    case TakeUpload(id, _) => At(s, id, Transferring)
    case Charge(id, n) => At(s, id, Draining) && 0 <= n <= c.uploadCap
    case Abort(id) => At(s, id, Inside) || At(s, id, Transferring) || At(s, id, Draining)
    case ReleaseTransfer(id) => At(s, id, Done)
    case Leave(id) => At(s, id, Leaving)
  }

  function Moved(s: State, id: Id, p: Phase): State {
    s.(active := s.active[id := p])
  }

  function Apply(c: Config, s: State, step: Step): State
    requires Enabled(c, s, step)
  {
    match step
    case Arrive(id) =>
      var n := s.inflight + 1;
      Moved(s, id, if n > c.maxConcurrent then OverGate else Inside).(inflight := n)
    case UndoArrive(id) => s.(inflight := s.inflight - 1, active := s.active - {id})
    case Acquire(id) =>
      var n := s.transfers + 1;
      Moved(s, id, if n > c.maxTransfers then OverTransfer else Transferring).(transfers := n)
    case UndoAcquire(id) => Moved(s, id, Leaving).(transfers := s.transfers - 1)
    case TakeDownload(id, n, now) =>
      Moved(s, id, Done).(budget := Taken(c.bytes, c.window, s.budget, n, now))
    case TakeUpload(id, now) =>
      Moved(s, id, if Accepts(c.bytes, c.window, s.budget, now) then Draining else Done)
      .(budget := Taken(c.bytes, c.window, s.budget, 0, now))
    case Charge(id, n) =>
      Moved(s, id, Done).(budget := s.budget.(used := s.budget.used + n))
    case Abort(id) => Moved(s, id, if s.active[id] == Inside then Leaving else Done)
    case ReleaseTransfer(id) => Moved(s, id, Leaving).(transfers := s.transfers - 1)
    case Leave(id) => s.(inflight := s.inflight - 1, active := s.active - {id})
  }

  // ---------- Runs ----------

  predicate Legal(c: Config, s: State, steps: seq<Step>)
    decreases |steps|, 0
  {
    steps == [] ||
    var n := |steps| - 1;
    Legal(c, s, steps[..n]) && Enabled(c, Play(c, s, steps[..n]), steps[n])
  }

  function Play(c: Config, s: State, steps: seq<Step>): State
    requires Legal(c, s, steps)
    decreases |steps|, 1
  {
    if steps == [] then s
    else Apply(c, Play(c, s, steps[..|steps| - 1]), steps[|steps| - 1])
  }

  ghost predicate Reachable(c: Config, s: State) {
    exists now: int, steps: seq<Step> :: Legal(c, Start(now), steps) && Play(c, Start(now), steps) == s
  }

  lemma ReachesNext(c: Config, s: State, step: Step)
    requires Reachable(c, s) && Enabled(c, s, step)
    ensures Reachable(c, Apply(c, s, step))
  {
    var now, steps :| Legal(c, Start(now), steps) && Play(c, Start(now), steps) == s;
    assert (steps + [step])[..|steps|] == steps;
    assert Legal(c, Start(now), steps + [step]);
    assert Play(c, Start(now), steps + [step]) == Apply(c, s, step);
  }

  // ---------- Counting requests ----------

  predicate Admitted(p: Phase) { p != OverGate }

  predicate HoldsTransfer(p: Phase) { p == Transferring || p == Draining || p == Done }

  predicate CountedTransfer(p: Phase) { HoldsTransfer(p) || p == OverTransfer }

  predicate IsDraining(p: Phase) { p == Draining }

  function Cap(c: Config): int {
    if c.downloadCap >= c.uploadCap then c.downloadCap else c.uploadCap
  }

  /** How many transfers the two gates together let run at once. */
  function Slots(c: Config): int {
    if c.maxTransfers <= c.maxConcurrent then c.maxTransfers else c.maxConcurrent
  }

  // ---------- What every interleaving keeps ----------

  ghost predicate Gates(c: Config, s: State) {
    && s.inflight == |s.active|
    && Count(s.active, Admitted) <= c.maxConcurrent
    && s.transfers == Count(s.active, CountedTransfer)
    && Count(s.active, HoldsTransfer) <= c.maxTransfers
  }

  /** The bytes used, with `weight` for each upload that is still draining, stay within `bound`. */
  ghost predicate Within(s: State, weight: int, bound: int) {
    s.budget.used + Count(s.active, IsDraining) * weight <= bound
  }

  /** A bound that leaves room for the last transfer the budget lets through and all that may drain beside it. */
  predicate Roomy(c: Config, weight: int, bound: int) {
    && weight >= c.uploadCap
    && bound >= c.bytes - 1 + Slots(c) * weight
    && bound >= c.bytes - 1 + c.downloadCap + (Slots(c) - 1) * weight
  }

  /** How one step changes a head count. */
  lemma CountStep(c: Config, s: State, step: Step, f: Phase -> bool)
    requires Enabled(c, s, step)
    ensures var t := Apply(c, s, step);
            Count(t.active, f) == Count(s.active, f)
              - One(step.id in s.active && f(s.active[step.id]))
              + One(step.id in t.active && f(t.active[step.id]))
  {
    if step.UndoArrive? || step.Leave? {
      CountDrop(s.active, step.id, f);
    } else {
      CountPut(s.active, step.id, Apply(c, s, step).active[step.id], f);
    }
  }

  lemma InflightStep(c: Config, s: State, step: Step)
    requires s.inflight == |s.active| && Enabled(c, s, step)
    ensures Apply(c, s, step).inflight == |Apply(c, s, step).active|
  {
    var all := (p: Phase) => true;
    CountAll(s.active);
    CountAll(Apply(c, s, step).active);
    CountStep(c, s, step, all);
    hide Count;
  }

  lemma AdmittedStep(c: Config, s: State, step: Step)
    requires Usable(c) && Gates(c, s) && Enabled(c, s, step)
    ensures Count(Apply(c, s, step).active, Admitted) <= c.maxConcurrent
  {
    CountStep(c, s, step, Admitted);
    CountAll(s.active);
    CountSubset(s.active, Admitted, (p: Phase) => true);
    hide Count;
  }

  lemma CountedStep(c: Config, s: State, step: Step)
    requires Gates(c, s) && Enabled(c, s, step)
    ensures Apply(c, s, step).transfers == Count(Apply(c, s, step).active, CountedTransfer)
  {
    CountStep(c, s, step, CountedTransfer);
    hide Count;
  }

  lemma HoldersStep(c: Config, s: State, step: Step)
    requires Usable(c) && Gates(c, s) && Enabled(c, s, step)
    ensures Count(Apply(c, s, step).active, HoldsTransfer) <= c.maxTransfers
  {
    CountStep(c, s, step, HoldsTransfer);
    CountSubset(s.active, HoldsTransfer, CountedTransfer);
    hide Count;
  }

  lemma GatesStep(c: Config, s: State, step: Step)
    requires Usable(c) && Gates(c, s) && Enabled(c, s, step)
    ensures Gates(c, Apply(c, s, step))
  {
    InflightStep(c, s, step);
    AdmittedStep(c, s, step);
    CountedStep(c, s, step);
    HoldersStep(c, s, step);
    hide Apply, Enabled, Count;
  }

  /** A request about to ask the budget holds a slot that no draining upload holds. */
  lemma DrainersHoldOtherSlots(c: Config, s: State, id: Id)
    requires Gates(c, s) && At(s, id, Transferring)
    ensures Count(s.active, IsDraining) + 1 <= Slots(c)
  {
    var t := s.active[id := Draining];
    CountPut(s.active, id, Draining, IsDraining);
    CountPut(s.active, id, Draining, HoldsTransfer);
    CountPut(s.active, id, Draining, Admitted);
    CountSubset(t, IsDraining, HoldsTransfer);
    CountSubset(t, HoldsTransfer, Admitted);
  }

  /** Whoever the budget lets through found it below its size. */
  lemma TakenFrom(c: Config, b: BudgetState, n: int, now: int)
    requires Usable(c) && n >= 0
    ensures Accepts(c.bytes, c.window, b, now) ==> Taken(c.bytes, c.window, b, n, now).used <= c.bytes - 1 + n
    ensures !Accepts(c.bytes, c.window, b, now) ==> Taken(c.bytes, c.window, b, n, now) == b
  {
  }

  lemma DrainersAfter(c: Config, s: State, step: Step)
    requires Enabled(c, s, step)
    ensures Count(Apply(c, s, step).active, IsDraining) == Count(s.active, IsDraining)
              - One(step.Charge? || (step.Abort? && At(s, step.id, Draining)))
              + One(step.TakeUpload? && Accepts(c.bytes, c.window, s.budget, step.now))
  {
    CountStep(c, s, step, IsDraining);
  }

  lemma TakeStep(c: Config, s: State, step: Step, weight: int, bound: int)
    requires Usable(c) && Roomy(c, weight, bound) && Gates(c, s) && Within(s, weight, bound) && Enabled(c, s, step)
    requires step.TakeDownload? || step.TakeUpload?
    ensures Within(Apply(c, s, step), weight, bound)
  {
    var d := Count(s.active, IsDraining);
    DrainersHoldOtherSlots(c, s, step.id);
    DrainersAfter(c, s, step);
    TakenFrom(c, s.budget, if step.TakeDownload? then step.n else 0, step.now);
    Scaled(d, Slots(c) - 1, weight);
    OneMore(d, weight);
    OneMore(Slots(c), weight);
    hide Count, Gates, Slots, Accepts, Taken;
  }

  lemma BudgetStep(c: Config, s: State, step: Step, weight: int, bound: int)
    requires Usable(c) && Roomy(c, weight, bound) && Gates(c, s) && Within(s, weight, bound) && Enabled(c, s, step)
    ensures Within(Apply(c, s, step), weight, bound)
  {
    if step.TakeDownload? || step.TakeUpload? {
      TakeStep(c, s, step, weight, bound);
    } else {
      DrainersAfter(c, s, step);
      OneMore(Count(s.active, IsDraining), weight);
      hide Count, Gates, Slots;
    }
  }

  lemma {:induction false} RunKeeps(c: Config, now: int, steps: seq<Step>, weight: int, bound: int)
    requires Usable(c) && Roomy(c, weight, bound) && Legal(c, Start(now), steps)
    ensures Gates(c, Play(c, Start(now), steps)) && Within(Play(c, Start(now), steps), weight, bound)
    decreases |steps|
  {
    if steps == [] {
      StartIsWithin(c, now, weight, bound);
    } else {
      hide Gates, Within, Roomy, Apply, Enabled;
      var n := |steps| - 1;
      RunKeeps(c, now, steps[..n], weight, bound);
      GatesStep(c, Play(c, Start(now), steps[..n]), steps[n]);
      BudgetStep(c, Play(c, Start(now), steps[..n]), steps[n], weight, bound);
    }
  }

  lemma StartIsWithin(c: Config, now: int, weight: int, bound: int)
    requires Usable(c) && Roomy(c, weight, bound)
    ensures Gates(c, Start(now)) && Within(Start(now), weight, bound)
  {
    CountNone<Id, Phase>(IsDraining);
    CountNone<Id, Phase>(Admitted);
    CountNone<Id, Phase>(CountedTransfer);
    CountNone<Id, Phase>(HoldsTransfer);
    Scaled(0, Slots(c), weight);
  }

  /** The most a window can be charged. */
  function MostUsed(c: Config): int {
    c.bytes - 1 + Cap(c) + (Slots(c) - 1) * c.uploadCap
  }

  lemma BoundsAreRoomy(c: Config)
    requires Usable(c)
    ensures Roomy(c, Cap(c), c.bytes - 1 + c.maxTransfers * Cap(c))
    ensures Roomy(c, c.uploadCap, MostUsed(c))
  {
    Scaled(Slots(c), c.maxTransfers, Cap(c));
    OneMore(Slots(c), Cap(c));
    OneMore(Slots(c), c.uploadCap);
  }

  /**
   Over every interleaving, panics included: each counter is its holders plus
   its pending undos, holders never exceed the limits, and with no request
   active both counters are back at zero.
   */
  lemma ConcurrencyLimits(c: Config, s: State)
    requires Usable(c) && Reachable(c, s)
    ensures Count(s.active, Admitted) <= c.maxConcurrent
    ensures Count(s.active, HoldsTransfer) <= c.maxTransfers
    ensures s.inflight == Count(s.active, Admitted) + Count(s.active, p => p == OverGate)
    ensures s.transfers == Count(s.active, HoldsTransfer) + Count(s.active, p => p == OverTransfer)
    ensures s.active == map[] ==> s.inflight == 0 && s.transfers == 0
  {
    var now, steps :| Legal(c, Start(now), steps) && Play(c, Start(now), steps) == s;
    BoundsAreRoomy(c);
    RunKeeps(c, now, steps, c.uploadCap, MostUsed(c));
    CountAll(s.active);
    CountSplit(s.active, (p: Phase) => true, Admitted, p => p == OverGate);
    CountSplit(s.active, CountedTransfer, HoldsTransfer, p => p == OverTransfer);
  }

  /**
   The budget over every interleaving: no window is charged maxTransfers * cap
   or more beyond the budget, counting what the uploads still draining may add.
   */
  lemma BudgetOvershoot(c: Config, s: State)
    requires Usable(c) && Reachable(c, s)
    ensures s.budget.used + Count(s.active, IsDraining) * Cap(c) < c.bytes + c.maxTransfers * Cap(c)
    ensures s.budget.used < c.bytes + c.maxTransfers * Cap(c)
  {
    var now, steps :| Legal(c, Start(now), steps) && Play(c, Start(now), steps) == s;
    BoundsAreRoomy(c);
    RunKeeps(c, now, steps, Cap(c), c.bytes - 1 + c.maxTransfers * Cap(c));
    Scaled(0, Count(s.active, IsDraining), Cap(c));
  }

  /**
   The exact maximum, for every configuration: the last transfer let through may
   be the larger kind, all others that can run beside it are uploads.
   */
  lemma BudgetNeverExceeds(c: Config, s: State)
    requires Usable(c) && Reachable(c, s)
    ensures s.budget.used + Count(s.active, IsDraining) * c.uploadCap <= MostUsed(c)
    ensures s.budget.used <= MostUsed(c)
  {
    var now, steps :| Legal(c, Start(now), steps) && Play(c, Start(now), steps) == s;
    BoundsAreRoomy(c);
    RunKeeps(c, now, steps, c.uploadCap, MostUsed(c));
    Scaled(0, Count(s.active, IsDraining), c.uploadCap);
  }

  // ---------- The maximum is attained ----------

  /** `n` bytes charged in the first window by finished downloads, nobody active. */
  function Spent(n: int): State {
    State(0, 0, BudgetState(0, n), map[])
  }

  lemma {:induction false} CanSpend(c: Config, n: int)
    requires Usable(c) && 0 <= n < c.bytes
    ensures Reachable(c, Spent(n))
    decreases n
  {
    if n == 0 {
      assert Play(c, Start(0), []) == Spent(0);
    } else {
      var piece := if n < c.downloadCap then n else c.downloadCap;
      CanSpend(c, n - piece);
      CanDownload(c, Spent(n - piece), 0, piece);
      assert Downloaded(Spent(n - piece), piece) == Spent(n);
    }
  }

  /** `s` after one more download of `n` bytes has come and gone. */
  function Downloaded(s: State, n: int): State {
    s.(budget := s.budget.(used := s.budget.used + n))
  }

  lemma CanDownload(c: Config, s: State, id: Id, n: int)
    requires Usable(c) && Reachable(c, s) && id !in s.active && 0 <= n <= c.downloadCap
    requires s.inflight < c.maxConcurrent && s.transfers < c.maxTransfers
    requires s.budget.windowStart == 0 && s.budget.used < c.bytes
    ensures Reachable(c, Downloaded(s, n))
  {
    hide Reachable;
    var s1 := CanAcquire(c, s, id);
    var s2 := Apply(c, s1, TakeDownload(id, n, 0));
    ReachesNext(c, s1, TakeDownload(id, n, 0));
    var s3 := Apply(c, s2, ReleaseTransfer(id));
    ReachesNext(c, s2, ReleaseTransfer(id));
    ReachesNext(c, s3, Leave(id));
    assert Apply(c, s3, Leave(id)).active == s.active;
    assert Apply(c, s3, Leave(id)) == Downloaded(s, n);
  }

  lemma CanAcquire(c: Config, s: State, id: Id) returns (t: State)
    requires Usable(c) && Reachable(c, s) && id !in s.active
    requires s.inflight < c.maxConcurrent && s.transfers < c.maxTransfers
    ensures Reachable(c, t)
    ensures t == State(s.inflight + 1, s.transfers + 1, s.budget, s.active[id := Transferring])
  {
    hide Reachable;
    var s1 := Apply(c, s, Arrive(id));
    ReachesNext(c, s, Arrive(id));
    ReachesNext(c, s1, Acquire(id));
    t := Apply(c, s1, Acquire(id));
  }

  /** Uploads `0..k`, of which the first `charged` have been charged their cap on top of `base`. */
  function Uploads(c: Config, k: nat, charged: nat, base: int): State {
    State(k, k, BudgetState(0, base + charged * c.uploadCap),
          map id: nat | 0 <= id < k :: UploadPhase(id, charged))
  }

  function UploadPhase(id: nat, charged: nat): Phase {
    if id < charged then Done else Draining
  }

  lemma {:induction false} CanOpenUploads(c: Config, k: nat)
    requires Usable(c) && k <= Slots(c)
    ensures Reachable(c, Uploads(c, k, 0, c.bytes - 1))
  {
    hide Reachable;
    if k == 0 {
      CanSpend(c, c.bytes - 1);
      assert Uploads(c, 0, 0, c.bytes - 1) == Spent(c.bytes - 1);
    } else {
      CanOpenUploads(c, k - 1);
      var s := CanAcquire(c, Uploads(c, k - 1, 0, c.bytes - 1), k - 1);
      ReachesNext(c, s, TakeUpload(k - 1, 0));
      assert Apply(c, s, TakeUpload(k - 1, 0)) == Uploads(c, k, 0, c.bytes - 1);
    }
  }

  lemma {:induction false} CanChargeUploads(c: Config, k: nat, charged: nat, base: int)
    requires Usable(c) && charged <= k && Reachable(c, Uploads(c, k, 0, base))
    ensures Reachable(c, Uploads(c, k, charged, base))
  {
    hide Reachable;
    if charged > 0 {
      CanChargeUploads(c, k, charged - 1, base);
      var s := Uploads(c, k, charged - 1, base);
      ReachesNext(c, s, Charge(charged - 1, c.uploadCap));
      OneMore(charged - 1, c.uploadCap);
      assert Apply(c, s, Charge(charged - 1, c.uploadCap)) == Uploads(c, k, charged, base);
    }
  }

  /** For every configuration a run reaches the maximum. */
  lemma OvershootIsAttained(c: Config) returns (s: State)
    requires Usable(c)
    ensures Reachable(c, s)
    ensures s.budget.used == MostUsed(c)
  {
    hide Reachable;
    var m: nat := Slots(c);
    OneMore(m, c.uploadCap);
    if c.downloadCap >= c.uploadCap {
      CanOpenUploads(c, m - 1);
      CanDownload(c, Uploads(c, m - 1, 0, c.bytes - 1), m - 1, c.downloadCap);
      var base := c.bytes - 1 + c.downloadCap;
      assert Downloaded(Uploads(c, m - 1, 0, c.bytes - 1), c.downloadCap) == Uploads(c, m - 1, 0, base);
      CanChargeUploads(c, m - 1, m - 1, base);
      s := Uploads(c, m - 1, m - 1, base);
    } else {
      CanOpenUploads(c, m);
      CanChargeUploads(c, m, m, c.bytes - 1);
      s := Uploads(c, m, m, c.bytes - 1);
    }
  }
}
