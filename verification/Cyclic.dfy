/** Indices into a cyclic buffer of `n` slots. */
module Cyclic {

  /** The slot that entry `k` of an endless log goes to: `k` modulo `n`. */
  ghost function Slot(k: nat, n: nat): (r: nat)
    requires n > 0
    ensures r < n
    decreases k
  {
    if k < n then k else Slot(k - n, n)
  }

  lemma ModTwice(x: nat, n: nat)
    requires n > 0 && x < 2 * n
    ensures x % n == if x < n then x else x - n
  {
    if x >= n {
      assert x == 1 * n + (x - n);
      assert x / n == 1;
    }
  }

  /** Advancing the slot is advancing the entry. */
  lemma {:induction false} SlotPlus(k: nat, i: nat, n: nat)
    requires 0 < n && i <= n
    ensures (Slot(k, n) + i) % n == Slot(k + i, n)
    decreases k
  {
    if k >= n {
      SlotPlus(k - n, i, n);
    } else {
      if k + i < 2 * n { ModTwice(k + i, n); }
    }
  }

  /** Stepping back, with `n` added so that the subtraction stays positive. */
  lemma {:induction false} SlotMinus(k: nat, i: nat, n: nat)
    requires 0 < n && i <= n && i <= k
    ensures (Slot(k, n) - i + n) % n == Slot(k - i, n)
  {
    SlotPlus(k - i, i, n);
    var r := Slot(k - i, n);
    ModTwice(r + i, n);
    if r + i < n {
      ModTwice(r + n, n);
    } else {
      ModTwice(r, n);
    }
  }

  lemma {:induction false} SlotDistinct(a: nat, b: nat, n: nat)
    requires 0 < n && a < b < a + n
    ensures Slot(a, n) != Slot(b, n)
    decreases a
  {
    if a >= n {
      SlotDistinct(a - n, b - n, n);
    } else if b >= n {
      assert Slot(b, n) == b - n;
    }
  }

  /** The buffer holds the entries of the log from `from` on. */
  ghost predicate Holds<T>(buffer: seq<T>, log: seq<T>, from: int, n: nat) {
    |buffer| == n > 0 && 0 <= from <= |log| <= from + n &&
    forall k {:trigger log[k]} :: from <= k < |log| ==> buffer[Slot(k, n)] == log[k]
  }

  /** Storing the next entry in its slot keeps all entries but the one it replaces. */
  lemma PutHolds<T>(buffer: seq<T>, log: seq<T>, from: nat, x: T, n: nat)
    requires Holds(buffer, log, from, n)
    ensures Holds(buffer[Slot(|log|, n) := x], log + [x], if |log| - from < n then from else from + 1, n)
  {
    var slot, next := Slot(|log|, n), log + [x];
    var stored := buffer[slot := x];
    var start := if |log| - from < n then from else from + 1;
    forall k: nat | start <= k < |next| ensures stored[Slot(k, n)] == next[k] {
      if k < |log| {
        SlotDistinct(k, |log|, n);
        assert log[k] == next[k];
      }
    }
  }

  /** Reading `i` slots on from the first one held yields entry `from + i`. */
  lemma ReadHolds<T>(buffer: seq<T>, log: seq<T>, from: nat, i: nat, n: nat)
    requires Holds(buffer, log, from, n) && from + i < |log|
    ensures var idx := (Slot(from, n) + i) % n;
            0 <= idx < n && buffer[idx] == log[from + i]
  {
    SlotPlus(from, i, n);
    assert log[from + i] == buffer[Slot(from + i, n)];
  }
}
