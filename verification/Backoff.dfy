/** Exponential reconnect backoff of the tray client. */
module Backoff {

  function Min(a: real, b: real): real {
    if a < b then a else b
  }

  function Pow2(k: nat): (p: real)
    ensures p >= 1.0
  {
    if k == 0 then 1.0 else 2.0 * Pow2(k - 1)
  }

  /** Closed form of the k-th interval handed out since the last reset. */
  function Delay(initial: real, cap: real, k: nat): real {
    if k == 0 then initial else Min(initial * Pow2(k), cap)
  }

  /** One doubling step moves from the k-th interval to the next one. */
  lemma {:induction false} DelayStep(initial: real, cap: real, k: nat)
    requires 0.0 <= initial <= cap
    ensures Min(Delay(initial, cap, k) * 2.0, cap) == Delay(initial, cap, k + 1)
  {
    assert initial * Pow2(k + 1) == (initial * Pow2(k)) * 2.0;
    assert initial * Pow2(0) == initial;
  }

  /** Intervals never shrink between resets, start at `initial` and never exceed `cap`. */
  lemma {:induction false} DelayMonotone(initial: real, cap: real, j: nat, k: nat)
    requires 0.0 <= initial <= cap && j <= k
    ensures initial <= Delay(initial, cap, j) <= Delay(initial, cap, k) <= cap
    decreases k
  {
    if j < k {
      DelayMonotone(initial, cap, j, k - 1);
      DelayStep(initial, cap, k - 1);
    } else if 0 < k {
      DelayMonotone(initial, cap, k - 1, k - 1);
      DelayStep(initial, cap, k - 1);
    }
  }

  class Backoff {
    const initial: real
    const cap: real
    var current: real

    constructor (initial: real := 1.0, cap: real := 10.0)
      ensures this.initial == initial && this.cap == cap && current == initial
    {
      this.initial := initial;
      this.cap := cap;
      current := initial;
    }

    /** Hands out the current interval and doubles it, up to the cap, for the next time. */
    method Next() returns (value: real)
      modifies this
      ensures value == old(current)
      ensures current == Min(old(current) * 2.0, cap)
      ensures forall k: nat :: 0.0 <= initial <= cap && old(current) == Delay(initial, cap, k)
                ==> current == Delay(initial, cap, k + 1)
    {
      value := current;
      current := Min(current * 2.0, cap);
      forall k: nat | 0.0 <= initial <= cap && old(current) == Delay(initial, cap, k)
        ensures current == Delay(initial, cap, k + 1)
      {
        DelayStep(initial, cap, k);
      }
    }

    method Reset()
      modifies this
      ensures current == initial == Delay(initial, cap, 0)
    {
      current := initial;
    }
  }
}
