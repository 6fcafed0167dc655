/**
 Whole runs of the per-client limiter: what eviction changes and what it does
 not, compared with a limiter whose table never forgets.
 */
module LimiterRuns {
  import opened Counting
  import opened TokenBucket
  import opened IpLimiter

  datatype Request = Request(ip: Ip, now: real)

  function Last<T>(s: seq<T>): T
    requires s != []
  {
    s[|s| - 1]
  }

  function Init<T>(s: seq<T>): (i: seq<T>)
    requires s != []
    ensures |i| == |s| - 1
  {
    s[..|s| - 1]
  }

  // ---------- The two limiters ----------

  function Replay(r: Rate, max: int, trace: seq<Request>): Table {
    if trace == [] then []
    else Touch(r, max, Replay(r, max, Init(trace)), Last(trace).ip, Last(trace).now)
  }

  /** The decision on the last request of a trace. */
  predicate LastAllowed(r: Rate, max: int, trace: seq<Request>)
    requires trace != []
  {
    Allows(r, Replay(r, max, Init(trace)), Last(trace).ip, Last(trace).now)
  }

  function GrantsTo(r: Rate, max: int, trace: seq<Request>, ip: Ip): nat {
    if trace == [] then 0
    else GrantsTo(r, max, Init(trace), ip)
         + if Last(trace).ip == ip && LastAllowed(r, max, trace) then 1 else 0
  }

  /** The reference: one bucket per address, never evicted. */
  function Remembered(r: Rate, m: map<Ip, BucketState>, q: Request): BucketState {
    if q.ip in m then m[q.ip] else Full(r, q.now)
  }

  function ReplayUnbounded(r: Rate, trace: seq<Request>): map<Ip, BucketState> {
    if trace == [] then map[]
    else
      var m := ReplayUnbounded(r, Init(trace));
      m[Last(trace).ip := Next(r, Remembered(r, m, Last(trace)), Last(trace).now)]
  }

  predicate LastAllowedUnbounded(r: Rate, trace: seq<Request>)
    requires trace != []
  {
    Granted(r, Remembered(r, ReplayUnbounded(r, Init(trace)), Last(trace)), Last(trace).now)
  }

  function GrantsToUnbounded(r: Rate, trace: seq<Request>, ip: Ip): nat {
    if trace == [] then 0
    else GrantsToUnbounded(r, Init(trace), ip)
         + if Last(trace).ip == ip && LastAllowedUnbounded(r, trace) then 1 else 0
  }

  // ---------- One step of the evicting table ----------

  ghost predicate Holds(t: Table, ip: Ip, b: BucketState) {
    exists i :: 0 <= i < |t| && t[i] == Entry(ip, b)
  }

  lemma HoldsIsIndex(t: Table, ip: Ip, b: BucketState)
    requires Unique(t) && Holds(t, ip, b)
    ensures Has(t, ip) && t[Index(t, ip)].b == b
  {
    var i :| 0 <= i < |t| && t[i] == Entry(ip, b);
    IndexIsUnique(t, ip, i);
  }

  /** A step gives the caller its charged bucket and can only drop others. */
  lemma TouchHolds(r: Rate, max: int, t: Table, q: Request, ip: Ip, b: BucketState)
    requires Unique(t) && Holds(Touch(r, max, t, q.ip, q.now), ip, b)
    ensures if ip == q.ip then b == Next(r, BucketFor(r, t, q.ip, q.now), q.now) else Holds(t, ip, b)
  {
    hide Index;
    var u := Touch(r, max, t, q.ip, q.now);
    TouchKeepsUnique(r, max, t, q.ip, q.now);
    var i :| 0 <= i < |u| && u[i] == Entry(ip, b);
    if ip == q.ip {
      assert u[0].ip == u[i].ip;
    } else {
      var others := Others(max, t, q.ip);
      assert u[i] == others[i - 1];
      if Has(t, q.ip) {
        var k := Index(t, q.ip);
        assert others[i - 1] == t[if i - 1 < k then i - 1 else i];
      }
    }
  }

  lemma {:induction false} ReplayIsUnique(r: Rate, max: int, trace: seq<Request>)
    ensures Unique(Replay(r, max, trace))
    decreases |trace|
  {
    if trace != [] {
      ReplayIsUnique(r, max, Init(trace));
      TouchKeepsUnique(r, max, Replay(r, max, Init(trace)), Last(trace).ip, Last(trace).now);
    }
  }

  /** The table never outgrows its capacity (a capacity below one still keeps the caller). */
  lemma {:induction false} ReplayIsBounded(r: Rate, max: int, trace: seq<Request>)
    ensures |Replay(r, max, trace)| <= if max >= 1 then max else 1
    decreases |trace|
  {
    if trace != [] {
      ReplayIsUnique(r, max, Init(trace));
      ReplayIsBounded(r, max, Init(trace));
      TouchKeepsUnique(r, max, Replay(r, max, Init(trace)), Last(trace).ip, Last(trace).now);
    }
  }

  // ---------- Eviction never makes the limiter stricter ----------

  /** `a` is `lead` grants ahead of `b` and could still pay for everything `b` can pay for. */
  ghost predicate Ahead(r: Rate, a: BucketState, b: BucketState, lead: int) {
    && lead >= 0
    && WithinBurst(r, a) && WithinBurst(r, b)
    && a.last <= b.last
    && a.tokens + lead as real >= b.tokens
  }

  lemma AheadStep(r: Rate, a: BucketState, b: BucketState, lead: int, now: real)
    requires Usable(r) && Ahead(r, a, b, lead)
    ensures Ahead(r, Next(r, a, now), Next(r, b, now), lead + One(Granted(r, a, now)) - One(Granted(r, b, now)))
  {
    hide Earned;
    EarnedIsLinear(r, now - b.last, b.last - a.last);
    assert (now - b.last) + (b.last - a.last) == now - a.last;
    RefillWithinBurst(r, a, now);
    RefillWithinBurst(r, b, now);
    EarnedIsLinear(r, now - a.last, 0.0);
  }

  ghost predicate Dominates(r: Rate, max: int, trace: seq<Request>, ip: Ip) {
    var m := ReplayUnbounded(r, trace);
    var lead := GrantsTo(r, max, trace, ip) - GrantsToUnbounded(r, trace, ip);
    && lead >= 0
    && (ip in m ==> WithinBurst(r, m[ip]))
    && forall b | Holds(Replay(r, max, trace), ip, b) :: ip in m && Ahead(r, b, m[ip], lead)
  }

  lemma {:induction false} DominatesAlways(r: Rate, max: int, trace: seq<Request>, ip: Ip)
    requires Usable(r)
    ensures Dominates(r, max, trace, ip)
    decreases |trace|
  {
    if trace != [] {
      var q, m, t := Last(trace), ReplayUnbounded(r, Init(trace)), Replay(r, max, Init(trace));
      DominatesAlways(r, max, Init(trace), ip);
      ReplayIsUnique(r, max, Init(trace));
      var lead := GrantsTo(r, max, Init(trace), ip) - GrantsToUnbounded(r, Init(trace), ip);
      if q.ip == ip {
        var a, b := BucketFor(r, t, ip, q.now), Remembered(r, m, q);
        if Has(t, ip) {
          assert Holds(t, ip, a);
        }
        DominatedStep(r, a, b, lead, q.now, Has(t, ip), ip in m);
      }
      forall b | Holds(Replay(r, max, trace), ip, b)
        ensures ip in ReplayUnbounded(r, trace)
        ensures Ahead(r, b, ReplayUnbounded(r, trace)[ip],
                      GrantsTo(r, max, trace, ip) - GrantsToUnbounded(r, trace, ip))
      {
        TouchHolds(r, max, t, q, ip, b);
      }
    }
  }

  /** One request, for an address the evicting table may have forgotten. */
  lemma DominatedStep(r: Rate, a: BucketState, b: BucketState, lead: int, now: real, held: bool, known: bool)
    requires Usable(r) && lead >= 0
    requires if held then known && Ahead(r, a, b, lead) else a == Full(r, now)
    requires if known then WithinBurst(r, b) else b == Full(r, now)
    ensures Ahead(r, Next(r, a, now), Next(r, b, now), lead + One(Granted(r, a, now)) - One(Granted(r, b, now)))
  {
    if held || b.last >= now {
      AheadStep(r, a, b, lead, now);
    } else {
      // A fresh bucket starts at `now`; the remembered one is refilled to `now` first.
      hide Earned;
      RefillWithinBurst(r, b, now);
      AheadStep(r, a, Refill(r, b, now), lead, now);
      assert Refill(r, Refill(r, b, now), now) == Refill(r, b, now);
    }
  }

  /**
   On every trace, whatever the timestamps and the capacity, each client has at
   every prefix been granted at least as many requests as without eviction.
   */
  lemma EvictionNeverStricter(r: Rate, max: int, trace: seq<Request>, k: nat, ip: Ip)
    requires Usable(r) && k <= |trace|
    ensures GrantsTo(r, max, trace[..k], ip) >= GrantsToUnbounded(r, trace[..k], ip)
  {
    DominatesAlways(r, max, trace[..k], ip);
  }

  // ---------- With few clients eviction never shows ----------

  function Clients(trace: seq<Request>): set<Ip> {
    set q | q in trace :: q.ip
  }

  function Listed(t: Table): set<Ip> {
    set e | e in t :: e.ip
  }

  lemma {:induction false} AsManyListed(t: Table)
    requires Unique(t)
    ensures |Listed(t)| == |t|
  {
    if t != [] {
      AsManyListed(t[1..]);
      assert t == [t[0]] + t[1..];
      assert Listed(t) == {t[0].ip} + Listed(t[1..]);
    }
  }

  lemma SubsetIsSmaller<T>(a: set<T>, b: set<T>)
    requires a <= b
    ensures |a| <= |b|
  {
    if a != {} {
      var x :| x in a;
      SubsetIsSmaller(a - {x}, b - {x});
    }
  }

  /** The table holds exactly what the unbounded map remembers. */
  ghost predicate Agrees(t: Table, m: map<Ip, BucketState>) {
    && (forall ip :: ip in m ==> Holds(t, ip, m[ip]))
    && (forall i | 0 <= i < |t| :: t[i].ip in m && t[i].b == m[t[i].ip])
  }

  /** Without eviction a step keeps every other client's bucket. */
  lemma TouchKeeps(r: Rate, max: int, t: Table, q: Request, ip: Ip, b: BucketState)
    requires Unique(t) && Holds(t, ip, b) && ip != q.ip
    requires Has(t, q.ip) || |t| < max
    ensures Holds(Touch(r, max, t, q.ip, q.now), ip, b)
  {
    hide Index;
    var u := Touch(r, max, t, q.ip, q.now);
    var i :| 0 <= i < |t| && t[i] == Entry(ip, b);
    var at := if Has(t, q.ip) && Index(t, q.ip) < i then i else i + 1;
    assert u[at] == Entry(ip, b);
  }

  lemma TouchAgrees(r: Rate, max: int, t: Table, m: map<Ip, BucketState>, q: Request)
    requires Unique(t) && Agrees(t, m)
    requires Has(t, q.ip) || |t| < max
    ensures BucketFor(r, t, q.ip, q.now) == Remembered(r, m, q)
    ensures Agrees(Touch(r, max, t, q.ip, q.now), m[q.ip := Next(r, Remembered(r, m, q), q.now)])
  {
    hide Index;
    if q.ip in m {
      HoldsIsIndex(t, q.ip, m[q.ip]);
    }
    var u, n := Touch(r, max, t, q.ip, q.now), m[q.ip := Next(r, Remembered(r, m, q), q.now)];
    assert u[0] == Entry(q.ip, n[q.ip]);
    hide Touch, Has;
    forall ip | ip in n
      ensures Holds(u, ip, n[ip])
    {
      if ip != q.ip {
        TouchKeeps(r, max, t, q, ip, m[ip]);
      }
    }
    forall i | 0 <= i < |u|
      ensures u[i].ip in n && u[i].b == n[u[i].ip]
    {
      assert Holds(u, u[i].ip, u[i].b);
      TouchHolds(r, max, t, q, u[i].ip, u[i].b);
    }
  }

  lemma AgreesCounts(t: Table, m: map<Ip, BucketState>)
    requires Unique(t) && Agrees(t, m)
    ensures |t| == |m.Keys|
    ensures forall ip :: Has(t, ip) <==> ip in m
  {
    AsManyListed(t);
    forall ip
      ensures ip in Listed(t) <==> ip in m
      ensures Has(t, ip) <==> ip in m
    {
      if ip in m {
        var i :| 0 <= i < |t| && t[i] == Entry(ip, m[ip]);
        assert t[i].ip == ip;
      }
    }
    assert Listed(t) == m.Keys;
  }

  lemma {:induction false} AgreesAlways(r: Rate, max: int, trace: seq<Request>)
    requires |Clients(trace)| <= max
    ensures Agrees(Replay(r, max, trace), ReplayUnbounded(r, trace))
    ensures ReplayUnbounded(r, trace).Keys == Clients(trace)
    ensures trace != [] ==> (LastAllowed(r, max, trace) <==> LastAllowedUnbounded(r, trace))
    decreases |trace|
  {
    if trace != [] {
      var q, t, m := Last(trace), Replay(r, max, Init(trace)), ReplayUnbounded(r, Init(trace));
      assert trace == Init(trace) + [q];
      assert Clients(trace) == Clients(Init(trace)) + {q.ip};
      SubsetIsSmaller(Clients(Init(trace)), Clients(trace));
      AgreesAlways(r, max, Init(trace));
      ReplayIsUnique(r, max, Init(trace));
      AgreesCounts(t, m);
      hide Agrees, Touch, Has, Unique;
      TouchAgrees(r, max, t, m, q);
    }
  }

  /** As long as at most `max` clients show up, every decision is the unbounded limiter's. */
  lemma SameDecisionsWithFewClients(r: Rate, max: int, trace: seq<Request>, k: nat)
    requires |Clients(trace)| <= max
    requires k < |trace|
    ensures LastAllowed(r, max, trace[..k + 1]) <==> LastAllowedUnbounded(r, trace[..k + 1])
  {
    SubsetIsSmaller(Clients(trace[..k + 1]), Clients(trace));
    AgreesAlways(r, max, trace[..k + 1]);
  }

  // ---------- The table is the list of most recent clients ----------

  /** All clients so far, most recent first. */
  function Recent(trace: seq<Request>): seq<Ip> {
    if trace == [] then []
    else [Last(trace).ip] + Remove(Recent(Init(trace)), Last(trace).ip)
  }

  function Take<T>(s: seq<T>, n: nat): seq<T> {
    if |s| <= n then s else s[..n]
  }

  lemma DistinctCons(x: Ip, s: seq<Ip>)
    requires Distinct(s) && x !in s
    ensures Distinct([x] + s)
  {
  }

  lemma {:induction false} RemoveKeeps(s: seq<Ip>, ip: Ip)
    requires Distinct(s)
    ensures var rest := Remove(s, ip);
            && Distinct(rest)
            && (forall x :: x in rest <==> x in s && x != ip)
            && |rest| == |s| - if ip in s then 1 else 0
  {
    if s != [] {
      assert s == [s[0]] + s[1..] && s[0] !in s[1..];
      if s[0] != ip {
        RemoveKeeps(s[1..], ip);
        DistinctCons(s[0], Remove(s[1..], ip));
      }
    }
  }

  lemma {:induction false} RemoveAbsent(s: seq<Ip>, ip: Ip)
    requires ip !in s
    ensures Remove(s, ip) == s
  {
    if s != [] {
      RemoveAbsent(s[1..], ip);
    }
  }

  lemma {:induction false} RecentIsDistinct(trace: seq<Request>)
    ensures Distinct(Recent(trace))
    decreases |trace|
  {
    if trace != [] {
      RecentIsDistinct(Init(trace));
      RemoveKeeps(Recent(Init(trace)), Last(trace).ip);
    }
  }

  /** Moving a client to the front commutes with forgetting all but the first `n`. */
  lemma TakeOfRemove(s: seq<Ip>, ip: Ip, n: nat)
    requires Distinct(s) && n >= 1
    ensures Take(Remove(s, ip), n - 1)
            == if ip in Take(s, n) then Remove(Take(s, n), ip) else Take(s, n - 1)
  {
    hide Remove;
    var head := Take(s, n);
    if ip !in s {
      RemoveAbsent(s, ip);
    } else {
      var i :| 0 <= i < |s| && s[i] == ip;
      RemoveAt(s, i);
      if i < |head| {
        assert head[i] == ip;
        RemoveAt(head, i);
        assert Take(s[..i] + s[i + 1..], n - 1) == head[..i] + head[i + 1..];
      } else {
        assert Take(s[..i] + s[i + 1..], n - 1) == Take(s, n - 1);
      }
    }
  }

  lemma IpsOfConcat(a: Table, b: Table)
    ensures Ips(a + b) == Ips(a) + Ips(b)
  {
    hide Ips;
  }

  lemma OthersIps(max: int, t: Table, ip: Ip)
    requires Unique(t) && |t| <= if max >= 1 then max else 1
    ensures Ips(Others(max, t, ip))
            == if ip in Ips(t) then Remove(Ips(t), ip) else Take(Ips(t), if max >= 1 then max - 1 else 0)
  {
    hide Index, Ips, Remove;
    var ips := Ips(t);
    if Has(t, ip) {
      var k := Index(t, ip);
      assert ips[k] == ip;
      RemoveAt(ips, k);
      hide Unique, Distinct;
      assert Ips(t[..k] + t[k + 1..]) == ips[..k] + ips[k + 1..];
    } else {
      assert ip !in ips;
      hide Unique;
      assert Ips(Evict(max, t)) == Take(ips, if max >= 1 then max - 1 else 0);
    }
  }

  lemma TouchedIps(r: Rate, max: int, t: Table, q: Request)
    requires Unique(t) && |t| <= if max >= 1 then max else 1
    ensures Ips(Touch(r, max, t, q.ip, q.now))
            == [q.ip] + if q.ip in Ips(t) then Remove(Ips(t), q.ip)
                        else Take(Ips(t), if max >= 1 then max - 1 else 0)
  {
    hide Index, Ips, Remove, Others, Unique;
    OthersIps(max, t, q.ip);
    var front := [Entry(q.ip, Next(r, BucketFor(r, t, q.ip, q.now), q.now))];
    IpsOfConcat(front, Others(max, t, q.ip));
    assert Ips(front) == [q.ip];
  }

  lemma RecencyStep(all: seq<Ip>, ip: Ip, n: nat)
    requires Distinct(all) && n >= 1
    ensures Take([ip] + Remove(all, ip), n)
            == [ip] + if ip in Take(all, n) then Remove(Take(all, n), ip) else Take(Take(all, n), n - 1)
  {
    hide Remove, Distinct;
    TakeOfRemove(all, ip, n);
    assert Take(Take(all, n), n - 1) == Take(all, n - 1);
    assert Take([ip] + Remove(all, ip), n) == [ip] + Take(Remove(all, ip), n - 1);
  }

  /** The table lists the most recent clients, most recent first, and nothing else. */
  lemma {:induction false} TableIsMostRecent(r: Rate, max: int, trace: seq<Request>)
    ensures Ips(Replay(r, max, trace)) == Take(Recent(trace), if max >= 1 then max else 1)
    decreases |trace|
  {
    if trace != [] {
      var q, t, all := Last(trace), Replay(r, max, Init(trace)), Recent(Init(trace));
      TableIsMostRecent(r, max, Init(trace));
      ReplayIsUnique(r, max, Init(trace));
      ReplayIsBounded(r, max, Init(trace));
      RecentIsDistinct(Init(trace));
      hide Ips, Remove, Touch, Unique, Distinct, Take;
      TouchedIps(r, max, t, q);
      RecencyStep(all, q.ip, if max >= 1 then max else 1);
    } else {
      assert Take<Ip>([], if max >= 1 then max else 1) == [];
    }
  }

  // ---------- A client that keeps the sustained rate ----------

  /** Any two requests of the client are in order and at least 1/rps apart. */
  ghost predicate ClientSpaced(r: Rate, trace: seq<Request>, ip: Ip)
    requires r.rps > 0.0
  {
    forall i, j | 0 <= i < j < |trace| && trace[i].ip == ip && trace[j].ip == ip ::
      trace[j].now - trace[i].now >= 1.0 / r.rps
  }

  /** A bucket's clock is never ahead of the client's own requests. */
  lemma {:induction false} ClockFromRequests(r: Rate, max: int, trace: seq<Request>, ip: Ip, b: BucketState)
    requires Usable(r) && Holds(Replay(r, max, trace), ip, b)
    ensures WithinBurst(r, b)
    ensures exists j :: 0 <= j < |trace| && trace[j].ip == ip && b.last <= trace[j].now
    decreases |trace|
  {
    var q, t := Last(trace), Replay(r, max, Init(trace));
    ReplayIsUnique(r, max, Init(trace));
    TouchHolds(r, max, t, q, ip, b);
    assert trace[|trace| - 1] == q;
    if ip == q.ip {
      var a := BucketFor(r, t, ip, q.now);
      if Has(t, ip) {
        assert Holds(t, ip, a);
        ClockFromRequests(r, max, Init(trace), ip, a);
        var j :| 0 <= j < |Init(trace)| && Init(trace)[j].ip == ip && a.last <= Init(trace)[j].now;
        assert trace[j] == Init(trace)[j];
      }
      RefillWithinBurst(r, a, q.now);
    } else {
      ClockFromRequests(r, max, Init(trace), ip, b);
      var j :| 0 <= j < |Init(trace)| && Init(trace)[j].ip == ip && b.last <= Init(trace)[j].now;
      assert trace[j] == Init(trace)[j];
    }
  }

  /** No traffic of other clients, and no eviction, makes the limiter deny such a client. */
  lemma SpacedClientAlwaysAllowed(r: Rate, max: int, trace: seq<Request>, ip: Ip, k: nat)
    requires Usable(r) && ClientSpaced(r, trace, ip)
    requires k < |trace| && trace[k].ip == ip
    ensures LastAllowed(r, max, trace[..k + 1])
  {
    var now := trace[k].now;
    assert Init(trace[..k + 1]) == trace[..k];
    var t := Replay(r, max, trace[..k]);
    var b := BucketFor(r, t, ip, now);
    if Has(t, ip) {
      assert Holds(t, ip, b);
      ClockFromRequests(r, max, trace[..k], ip, b);
      var j :| 0 <= j < k && trace[j].ip == ip && b.last <= trace[j].now;
    }
    OneIntervalRefillsAToken(r, b, now);
  }
}
