/**
 The per-client rate limiter of the Go SDK (sdk/go/limits.go): one token bucket
 per address, kept in a table with least-recently-used eviction.
 */
module IpLimiter {
  import opened TokenBucket

  // ---------- The table as a value: front = most recently used ----------

  /** Client addresses; the table only ever compares them. */
  type Ip = nat

  datatype Entry = Entry(ip: Ip, b: BucketState)

  type Table = seq<Entry>

  function Ips(t: Table): (ips: seq<Ip>)
    ensures |ips| == |t| && forall i | 0 <= i < |t| :: ips[i] == t[i].ip
  {
    if t == [] then [] else [t[0].ip] + Ips(t[1..])
  }

  ghost predicate Distinct<T>(s: seq<T>) {
    forall i, j | 0 <= i < j < |s| :: s[i] != s[j]
  }

  ghost predicate Unique(t: Table) {
    forall i, j | 0 <= i < j < |t| :: t[i].ip != t[j].ip
  }

  predicate Has(t: Table, ip: Ip) {
    exists i | 0 <= i < |t| :: t[i].ip == ip
  }

  function Index(t: Table, ip: Ip): (i: nat)
    requires Has(t, ip)
    ensures i < |t| && t[i].ip == ip
  {
    if t[0].ip == ip then 0 else
      assert Has(t[1..], ip) by {
        var i :| 0 <= i < |t| && t[i].ip == ip;
        assert t[1..][i - 1].ip == ip;
      }
      1 + Index(t[1..], ip)
  }

  function Evict(max: int, t: Table): Table {
    if |t| < max then t else t[..if max >= 1 then max - 1 else 0]
  }

  /** The bucket an address is charged against: its own, or a full one. */
  function BucketFor(r: Rate, t: Table, ip: Ip, now: real): BucketState {
    if Has(t, ip) then t[Index(t, ip)].b else Full(r, now)
  }

  function Others(max: int, t: Table, ip: Ip): Table {
    if Has(t, ip) then var i := Index(t, ip); t[..i] + t[i + 1..] else Evict(max, t)
  }

  function Touch(r: Rate, max: int, t: Table, ip: Ip, now: real): Table {
    [Entry(ip, Next(r, BucketFor(r, t, ip, now), now))] + Others(max, t, ip)
  }

  predicate Allows(r: Rate, t: Table, ip: Ip, now: real) {
    Granted(r, BucketFor(r, t, ip, now), now)
  }

  lemma IndexIsUnique(t: Table, ip: Ip, i: nat)
    requires Unique(t) && i < |t| && t[i].ip == ip
    ensures Has(t, ip) && Index(t, ip) == i
  {
  }

  lemma TouchKeepsUnique(r: Rate, max: int, t: Table, ip: Ip, now: real)
    requires Unique(t)
    ensures Unique(Touch(r, max, t, ip, now))
    ensures max >= 1 && |t| <= max ==> |Touch(r, max, t, ip, now)| <= max
    ensures max < 1 && |t| <= 1 ==> |Touch(r, max, t, ip, now)| <= 1
  {
  }

  // ---------- The limiter as the program keeps it ----------

  function Keys(lru: seq<Ip>): set<Ip> {
    set ip | ip in lru
  }

  /** The addresses in list order, each with its bucket. */
  function Combine(lru: seq<Ip>, entries: map<Ip, BucketState>): (t: Table)
    requires forall ip | ip in lru :: ip in entries
    ensures |t| == |lru| && forall i | 0 <= i < |lru| :: t[i] == Entry(lru[i], entries[lru[i]])
  {
    if lru == [] then [] else [Entry(lru[0], entries[lru[0]])] + Combine(lru[1..], entries)
  }

  function Remove(s: seq<Ip>, ip: Ip): seq<Ip> {
    if s == [] then [] else if s[0] == ip then s[1..] else [s[0]] + Remove(s[1..], ip)
  }

  lemma {:induction false} RemoveAt(s: seq<Ip>, i: nat)
    requires i < |s| && Distinct(s)
    ensures Remove(s, s[i]) == s[..i] + s[i + 1..]
  {
    if i > 0 {
      RemoveAt(s[1..], i - 1);
      assert s[..i] == [s[0]] + s[1..][..i - 1];
      assert s[i + 1..] == s[1..][i..];
    }
  }

  /** Map and list are in bijection. */
  ghost predicate Linked(lru: seq<Ip>, entries: map<Ip, BucketState>) {
    Distinct(lru) && entries.Keys == Keys(lru)
  }

  lemma LinkedEntries(lru: seq<Ip>, entries: map<Ip, BucketState>)
    requires Linked(lru, entries)
    ensures |entries| == |lru|
    ensures forall ip :: ip in entries <==> Has(Combine(lru, entries), ip)
  {
    AsManyKeysAsElements(lru);
    assert |entries| == |entries.Keys|;
    var t := Combine(lru, entries);
    forall ip
      ensures ip in entries <==> Has(t, ip)
    {
      if ip in entries {
        assert ip in Keys(lru);
        var i :| 0 <= i < |lru| && lru[i] == ip;
        assert t[i].ip == ip;
      }
    }
  }

  lemma EvictOne(lru: seq<Ip>, entries: map<Ip, BucketState>)
    requires Linked(lru, entries) && |lru| > 0
    ensures var n := |lru| - 1;
            && Linked(lru[..n], entries - {lru[n]})
            && Combine(lru[..n], entries - {lru[n]}) == Combine(lru, entries)[..n]
  {
    hide Combine, Remove, Index;
    var n := |lru| - 1;
    var rest := entries - {lru[n]};
    assert rest.Keys == entries.Keys - {lru[n]};
    assert lru == lru[..n] + [lru[n]];
    assert forall x :: x in lru[..n] <==> x in lru && x != lru[n];
    assert rest.Keys == Keys(lru[..n]);
  }

  lemma CombineIsUnique(lru: seq<Ip>, entries: map<Ip, BucketState>)
    requires Linked(lru, entries)
    ensures Unique(Combine(lru, entries))
  {
    hide Combine;
  }

  lemma MoveToFront(lru: seq<Ip>, entries: map<Ip, BucketState>, ip: Ip)
    requires Linked(lru, entries) && ip in entries
    ensures var t, f := Combine(lru, entries), [ip] + Remove(lru, ip);
            && Linked(f, entries)
            && Has(t, ip)
            && Combine(f, entries) == [t[Index(t, ip)]] + t[..Index(t, ip)] + t[Index(t, ip) + 1..]
            && t[Index(t, ip)].b == entries[ip]
  {
    var i := PositionOf(lru, entries, ip);
    EntryAt(lru, entries, i);
    hide *;
    var t := Combine(lru, entries);
    CombineIsUnique(lru, entries);
    IndexIsUnique(t, ip, i);
    RemoveAt(lru, i);
    RotateKeepsLinked(lru, entries, i);
  }

  lemma EntryAt(lru: seq<Ip>, entries: map<Ip, BucketState>, i: nat)
    requires Linked(lru, entries) && i < |lru|
    ensures forall ip | ip in lru :: ip in entries
    ensures Combine(lru, entries)[i] == Entry(lru[i], entries[lru[i]])
  {
    hide Combine, Distinct;
    assert forall ip | ip in lru :: ip in Keys(lru);
  }

  lemma PositionOf(lru: seq<Ip>, entries: map<Ip, BucketState>, ip: Ip) returns (i: nat)
    requires Linked(lru, entries) && ip in entries
    ensures i < |lru| && lru[i] == ip && Distinct(lru)
  {
    hide Distinct;
    assert ip in Keys(lru);
    i :| i < |lru| && lru[i] == ip;
  }

  lemma RotateIsPermutation(lru: seq<Ip>, i: nat)
    requires Distinct(lru) && i < |lru|
    ensures Distinct([lru[i]] + (lru[..i] + lru[i + 1..]))
    ensures Keys([lru[i]] + (lru[..i] + lru[i + 1..])) == Keys(lru)
  {
    var f := [lru[i]] + (lru[..i] + lru[i + 1..]);
    assert forall k | 0 < k < |f| :: f[k] == lru[if k <= i then k - 1 else k];
    hide Distinct;
    assert lru == lru[..i] + ([lru[i]] + lru[i + 1..]);
    assert forall x :: x in f <==> x in lru;
  }

  lemma RotateCombined(lru: seq<Ip>, entries: map<Ip, BucketState>, i: nat)
    requires i < |lru| && forall ip | ip in lru :: ip in entries
    ensures var f := [lru[i]] + (lru[..i] + lru[i + 1..]);
            && (forall ip | ip in f :: ip in entries)
            && var t := Combine(lru, entries);
               Combine(f, entries) == [t[i]] + t[..i] + t[i + 1..]
  {
    hide Combine;
    var f := [lru[i]] + (lru[..i] + lru[i + 1..]);
    forall k | 0 <= k < |f|
      ensures f[k] == lru[Rotated(i, k)]
    {
    }
    RotatedEntries(lru, f, entries, i);
  }

  /** Where the element at `k` stood before the one at `i` moved to the front. */
  function Rotated(i: nat, k: nat): nat {
    if k == 0 then i else if k <= i then k - 1 else k
  }

  lemma RotatedEntries(lru: seq<Ip>, f: seq<Ip>, entries: map<Ip, BucketState>, i: nat)
    requires i < |lru| == |f| && forall ip | ip in lru :: ip in entries
    requires forall k | 0 <= k < |f| :: f[k] == lru[Rotated(i, k)]
    ensures forall ip | ip in f :: ip in entries
    ensures var t := Combine(lru, entries); Combine(f, entries) == [t[i]] + t[..i] + t[i + 1..]
  {
    hide Combine;
    forall ip | ip in f
      ensures ip in entries
    {
      var k :| 0 <= k < |f| && f[k] == ip;
      assert lru[Rotated(i, k)] in lru;
    }
    var t, g := Combine(lru, entries), Combine(f, entries);
    forall k | 0 <= k < |f|
      ensures g[k] == t[Rotated(i, k)]
    {
      assert lru[Rotated(i, k)] == f[k];
    }
    RotatedSequence(t, g, i);
  }

  lemma RotatedSequence(t: Table, g: Table, i: nat)
    requires i < |t| == |g| && forall k | 0 <= k < |g| :: g[k] == t[Rotated(i, k)]
    ensures g == [t[i]] + t[..i] + t[i + 1..]
  {
  }

  lemma RotateKeepsLinked(lru: seq<Ip>, entries: map<Ip, BucketState>, i: nat)
    requires Linked(lru, entries) && i < |lru|
    ensures var t, f := Combine(lru, entries), [lru[i]] + (lru[..i] + lru[i + 1..]);
            Linked(f, entries) && Combine(f, entries) == [t[i]] + t[..i] + t[i + 1..]
  {
    RotateIsPermutation(lru, i);
    assert forall ip | ip in lru :: ip in Keys(lru);
    hide Combine, Distinct, Keys;
    RotateCombined(lru, entries, i);
  }

  lemma KnownClient(r: Rate, max: int, t: Table, ip: Ip, now: real)
    requires Has(t, ip)
    ensures BucketFor(r, t, ip, now) == t[Index(t, ip)].b
    ensures Others(max, t, ip) == t[..Index(t, ip)] + t[Index(t, ip) + 1..]
  {
  }

  lemma NewClient(r: Rate, max: int, t: Table, ip: Ip, now: real)
    requires !Has(t, ip)
    ensures BucketFor(r, t, ip, now) == Full(r, now) && Others(max, t, ip) == Evict(max, t)
  {
  }

  lemma PushFront(lru: seq<Ip>, entries: map<Ip, BucketState>, ip: Ip, b: BucketState)
    requires Linked(lru, entries) && ip !in entries
    ensures Linked([ip] + lru, entries[ip := b])
    ensures Combine([ip] + lru, entries[ip := b]) == [Entry(ip, b)] + Combine(lru, entries)
  {
    hide Combine, Remove, Index;
    assert forall x | x in lru :: x in Keys(lru);
    assert Keys([ip] + lru) == Keys(lru) + {ip};
  }

  lemma UpdateFront(lru: seq<Ip>, entries: map<Ip, BucketState>, b: BucketState)
    requires Linked(lru, entries) && lru != []
    ensures Linked(lru, entries[lru[0] := b])
    ensures Combine(lru, entries[lru[0] := b]) == [Entry(lru[0], b)] + Combine(lru, entries)[1..]
  {
    hide Combine, Remove, Index;
    assert lru[0] in Keys(lru);
    assert entries[lru[0] := b].Keys == entries.Keys;
  }

  lemma {:induction false} AsManyKeysAsElements(s: seq<Ip>)
    requires Distinct(s)
    ensures |Keys(s)| == |s|
  {
    if s != [] {
      AsManyKeysAsElements(s[1..]);
      assert Keys(s) == {s[0]} + Keys(s[1..]);
    }
  }

  class Limiter {
    const rate: Rate
    const maxEntries: int
    var entries: map<Ip, BucketState>
    var lru: seq<Ip>

    ghost predicate Valid()
      reads this
    {
      Linked(lru, entries)
    }

    ghost function Contents(): Table
      reads this
      requires Valid()
    {
      Combine(lru, entries)
    }

    constructor (rate: Rate, maxEntries: int)
      ensures Valid() && Contents() == [] && this.rate == rate && this.maxEntries == maxEntries
    {
      this.rate := rate;
      this.maxEntries := maxEntries;
      entries := map[];
      lru := [];
    }

    method Allow(ip: Ip, now: real) returns (ok: bool)
      requires Valid()
      modifies this
      ensures Valid()
      ensures ok == Allows(rate, old(Contents()), ip, now)
      ensures Contents() == Touch(rate, maxEntries, old(Contents()), ip, now)
    {
      Bring(ip, now);
      hide Others, Linked, Combine, Index, BucketFor;
      var b := entries[ip];
      UpdateFront(lru, entries, Next(rate, b, now));
      ok := Granted(rate, b, now);
      entries := entries[ip := Next(rate, b, now)];
    }

    /** Find the client's element and move it to the front, or evict and insert one. */
    method Bring(ip: Ip, now: real)
      requires Valid()
      modifies this
      ensures Valid() && lru != [] && lru[0] == ip && ip in entries
      ensures entries[ip] == BucketFor(rate, old(Contents()), ip, now)
      ensures Contents() == [Entry(ip, entries[ip])] + Others(maxEntries, old(Contents()), ip)
    {
      hide Linked, Combine, Remove, Index, Has, BucketFor, Others, Evict, Keys, Distinct;
      LinkedEntries(lru, entries);
      if ip in entries {
        MoveUp(ip, now);
      } else {
        Insert(ip, now);
      }
    }

    method MoveUp(ip: Ip, now: real)
      requires Valid() && ip in entries && Has(Contents(), ip)
      modifies `lru
      ensures Valid() && lru != [] && lru[0] == ip
      ensures entries[ip] == BucketFor(rate, old(Contents()), ip, now)
      ensures Contents() == [Entry(ip, entries[ip])] + Others(maxEntries, old(Contents()), ip)
    {
      hide Linked, Combine, Remove, Index, Has, BucketFor, Others, Evict, Keys, Distinct;
      KnownClient(rate, maxEntries, Contents(), ip, now);
      MoveToFront(lru, entries, ip);
      lru := [ip] + Remove(lru, ip);
    }

    method Insert(ip: Ip, now: real)
      requires Valid() && !Has(Contents(), ip) && ip !in entries
      modifies this
      ensures Valid() && lru != [] && lru[0] == ip && ip in entries
      ensures entries[ip] == BucketFor(rate, old(Contents()), ip, now)
      ensures Contents() == [Entry(ip, entries[ip])] + Others(maxEntries, old(Contents()), ip)
    {
      hide Linked, Combine, Remove, Index, Has, BucketFor, Others, Evict, Keys, Distinct;
      NewClient(rate, maxEntries, Contents(), ip, now);
      EvictOldest();
      PushFront(lru, entries, ip, Full(rate, now));
      lru := [ip] + lru;
      entries := entries[ip := Full(rate, now)];
    }

    method EvictOldest()
      requires Valid()
      modifies this
      ensures Valid() && entries.Keys <= old(entries.Keys)
      ensures Contents() == Evict(maxEntries, old(Contents()))
    {
      hide Linked, Combine, Index, Has;
      ghost var before := Contents();
      LinkedEntries(lru, entries);
      while |entries| >= maxEntries
        invariant Valid() && entries.Keys <= old(entries.Keys) && |entries| == |lru|
        invariant |lru| <= |before| && Contents() == before[..|lru|]
        invariant |before| < maxEntries ==> |lru| == |before|
        invariant |before| >= maxEntries >= 1 ==> |lru| >= maxEntries - 1
        decreases |lru|
      {
        if |lru| == 0 {
          break;
        }
        EvictOne(lru, entries);
        var oldest := lru[|lru| - 1];
        entries := entries - {oldest};
        lru := lru[..|lru| - 1];
        LinkedEntries(lru, entries);
      }
    }
  }
}
