/** The arithmetic of a stable counting sort: where the item with a given key goes. */
module Counting {

  /** How many of the first k keys are v. */
  ghost function Count(ks: seq<nat>, v: nat, k: nat): (r: nat)
    requires k <= |ks|
    ensures r <= k
  {
    if k == 0 then 0 else Count(ks, v, k - 1) + (if ks[k - 1] == v then 1 else 0)
  }

  /** How many of the first k keys are below v. */
  ghost function Below(ks: seq<nat>, v: nat, k: nat): (r: nat)
    requires k <= |ks|
    ensures r <= k
  {
    if k == 0 then 0 else Below(ks, v, k - 1) + (if ks[k - 1] < v then 1 else 0)
  }

  /** The slot that the counting sort gives to item p. */
  ghost function Slot(ks: seq<nat>, p: nat): nat
    requires p < |ks|
  {
    Below(ks, ks[p], |ks|) + Count(ks, ks[p], p)
  }

  lemma {:induction false} BelowNext(ks: seq<nat>, v: nat, k: nat)
    requires k <= |ks|
    ensures Below(ks, v + 1, k) == Below(ks, v, k) + Count(ks, v, k)
    ensures Below(ks, 0, k) == 0
  {
    if k > 0 {
      BelowNext(ks, v, k - 1);
    }
  }

  /** All the keys are below a bound. */
  lemma {:induction false} BelowAll(ks: seq<nat>, v: nat, k: nat)
    requires k <= |ks| && forall i | 0 <= i < k :: ks[i] < v
    ensures Below(ks, v, k) == k
  {
    if k > 0 {
      BelowAll(ks, v, k - 1);
    }
  }

  lemma {:induction false} BelowMonotone(ks: seq<nat>, v: nat, w: nat)
    requires v <= w
    ensures Below(ks, v, |ks|) <= Below(ks, w, |ks|)
    decreases w
  {
    if v < w {
      BelowMonotone(ks, v, w - 1);
      BelowNext(ks, w - 1, |ks|);
    }
  }

  lemma {:induction false} CountMonotone(ks: seq<nat>, v: nat, j: nat, k: nat)
    requires j <= k <= |ks|
    ensures Count(ks, v, j) <= Count(ks, v, k)
    decreases k
  {
    if j < k {
      CountMonotone(ks, v, j, k - 1);
    }
  }

  /** Slots of one key fill one stretch. */
  lemma {:induction false} SlotBounds(ks: seq<nat>, p: nat)
    requires p < |ks|
    ensures Below(ks, ks[p], |ks|) <= Slot(ks, p) < Below(ks, ks[p] + 1, |ks|) <= |ks|
  {
    CountMonotone(ks, ks[p], p + 1, |ks|);
    BelowNext(ks, ks[p], |ks|);
  }

  /** Larger keys go to later slots, equal keys keep their order. */
  lemma {:induction false} SlotOrder(ks: seq<nat>, p: nat, q: nat)
    requires p < |ks| && q < |ks|
    ensures ks[p] < ks[q] ==>
              Slot(ks, p) < Slot(ks, q) && Slot(ks, p) < Below(ks, ks[q], |ks|) &&
              Below(ks, ks[p], |ks|) < Below(ks, ks[q], |ks|)
    ensures ks[p] == ks[q] && p < q ==> Slot(ks, p) < Slot(ks, q)
  {
    SlotBounds(ks, p);
    SlotBounds(ks, q);
    if ks[p] < ks[q] {
      BelowMonotone(ks, ks[p] + 1, ks[q]);
    } else if ks[p] == ks[q] && p < q {
      CountMonotone(ks, ks[p], p + 1, q);
    }
  }

  /** No two items share a slot. */
  lemma {:induction false} SlotFresh(ks: seq<nat>, i: nat)
    requires i < |ks|
    ensures Slot(ks, i) < |ks|
    ensures forall p: nat | p < i :: Slot(ks, p) != Slot(ks, i)
  {
    SlotBounds(ks, i);
    forall p: nat | p < i
      ensures Slot(ks, p) != Slot(ks, i)
    {
      SlotOrder(ks, p, i);
      SlotOrder(ks, i, p);
    }
  }
}
