/**
 The agent's memory of recently finished runs (RecentRunSet in
 src/Networker.Agent/AgentWorker.cs): a queue with first-in-first-out eviction
 beside a hash set of its members.
 */
module RecentRuns {

  type RunId = nat

  /** The last `k` elements of `s`. */
  function Last(s: seq<RunId>, k: nat): (r: seq<RunId>)
    ensures |r| <= k && |r| <= |s|
  {
    if |s| <= k then s else s[|s| - k..]
  }

  /** The additions that took effect: a repeat of a remembered id does not. */
  function Effective(k: nat, adds: seq<RunId>): seq<RunId> {
    if adds == [] then []
    else
      var before := Effective(k, adds[..|adds| - 1]);
      Inserted(k, before, adds[|adds| - 1])
  }

  function Inserted(k: nat, effective: seq<RunId>, id: RunId): seq<RunId> {
    if id in Last(effective, k) then effective else effective + [id]
  }

  /** Queue and set hold the same ids, each queued once. */
  ghost predicate Agree(order: seq<RunId>, members: set<RunId>) {
    && (forall i, j :: 0 <= i < j < |order| ==> order[i] != order[j])
    && (forall id :: id in members <==> id in order)
  }

  class RecentRunSet {
    const capacity: nat
    var order: seq<RunId>
    var members: set<RunId>
    ghost var adds: seq<RunId>  // every id ever passed to Add

    ghost predicate Valid()
      reads this
    {
      && order == Last(Effective(capacity, adds), capacity)
      && Agree(order, members)
    }

    constructor (capacity: nat)
      ensures Valid() && this.capacity == capacity && adds == []
    {
      this.capacity := capacity;
      order, members, adds := [], {}, [];
    }

    method Contains(id: RunId) returns (known: bool)
      requires Valid()
      ensures known <==> id in Last(Effective(capacity, adds), capacity)
    {
      known := id in members;
    }

    method Add(id: RunId)
      requires Valid()
      modifies this
      ensures Valid() && adds == old(adds) + [id]
      ensures id in old(order) ==> order == old(order)
    {
      ghost var before := Effective(capacity, adds);
      EffectiveOfAppend(capacity, adds, id);
      hide Effective, Last, Agree;
      AgreeOn(order, members, id);
      adds := adds + [id];
      if id in members {
        return;
      }
      LastOfAppend(before, id, capacity);
      AgreeOnAppend(order, members, id);
      members := members + {id};
      order := order + [id];
      while |order| > capacity
        invariant Last(order, capacity) == Last(before + [id], capacity)
        invariant Agree(order, members) && adds == old(adds) + [id]
      {
        LastOfTail(order, capacity);
        AgreeOnTail(order, members);
        members := members - {order[0]};
        order := order[1..];
      }
      LastOfShort(order, capacity);
    }
  }

  lemma EffectiveOfAppend(k: nat, adds: seq<RunId>, id: RunId)
    ensures Effective(k, adds + [id]) == Inserted(k, Effective(k, adds), id)
  {
    assert (adds + [id])[..|adds|] == adds;
  }

  lemma AgreeOn(order: seq<RunId>, members: set<RunId>, id: RunId)
    requires Agree(order, members)
    ensures id in members <==> id in order
  {
  }

  lemma AgreeOnAppend(order: seq<RunId>, members: set<RunId>, id: RunId)
    requires Agree(order, members) && id !in members
    ensures Agree(order + [id], members + {id})
  {
  }

  lemma AgreeOnTail(order: seq<RunId>, members: set<RunId>)
    requires Agree(order, members) && order != []
    ensures Agree(order[1..], members - {order[0]})
  {
  }

  lemma LastOfShort(s: seq<RunId>, k: nat)
    requires |s| <= k
    ensures Last(s, k) == s
  {
  }

  lemma LastOfAppend(s: seq<RunId>, id: RunId, k: nat)
    ensures Last(Last(s, k) + [id], k) == Last(s + [id], k)
  {
  }

  lemma LastOfTail(s: seq<RunId>, k: nat)
    requires |s| > k
    ensures Last(s[1..], k) == Last(s, k)
  {
  }

  /** Positions decide what is remembered: an id is, iff one of its insertions is among the last `k`. */
  lemma RememberedIffRecent(s: seq<RunId>, k: nat, id: RunId)
    ensures id in Last(s, k) <==> exists p :: 0 <= p < |s| && |s| - k <= p && s[p] == id
  {
    if id in Last(s, k) {
      var i :| 0 <= i < |Last(s, k)| && Last(s, k)[i] == id;
      assert s[|s| - |Last(s, k)| + i] == id;
    }
    if p :| 0 <= p < |s| && |s| - k <= p && s[p] == id {
      assert Last(s, k)[p - (|s| - |Last(s, k)|)] == id;
    }
  }

  /** Two effective insertions of one id are more than `k` insertions apart: a repeat keeps its slot. */
  lemma {:induction false} RepeatsAreFarApart(k: nat, adds: seq<RunId>, p: nat, q: nat)
    requires p < q < |Effective(k, adds)| && Effective(k, adds)[p] == Effective(k, adds)[q]
    ensures p + k < q
  {
    var before := Effective(k, adds[..|adds| - 1]);
    if q < |before| {
      RepeatsAreFarApart(k, adds[..|adds| - 1], p, q);
    } else {
      RememberedIffRecent(before, k, adds[|adds| - 1]);
    }
  }

  /** After an addition the id is remembered, whatever came before. */
  lemma AddedIsRemembered(k: nat, effective: seq<RunId>, id: RunId)
    requires k > 0
    ensures id in Last(Inserted(k, effective, id), k)
  {
    RememberedIffRecent(effective + [id], k, id);
    if id !in Last(effective, k) {
      assert (effective + [id])[|effective|] == id;
    }
  }

  lemma OthersStayForgotten(k: nat, effective: seq<RunId>, id: RunId, added: RunId)
    requires id !in Last(effective, k) && id != added
    ensures id !in Last(Inserted(k, effective, added), k)
  {
    LastOfAppend(effective, added, k);
    assert id !in Last(effective, k) + [added];
  }
}
