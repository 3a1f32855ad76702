/**
 The 32-slot ring of action hashes and its period detector (belya_harness.c),
 against the full log of hashes since the turn began.
 */
module ActionRing {
  import opened Cyclic

  /** HARNESS_ACTION_HISTORY_SIZE. */
  const HISTORY: nat := 32

  /** The hash `j` actions before the last equals those `k` and `2k` before it. */
  predicate SameAt<H(==)>(hs: seq<H>, k: nat, j: nat)
    requires 3 * k <= |hs| && j < k
  {
    hs[|hs| - 1 - j] == hs[|hs| - 1 - j - k] == hs[|hs| - 1 - j - 2 * k]
  }

  /** The last `3k` hashes repeat with period `k`. */
  predicate Cycle<H(==)>(hs: seq<H>, k: nat) {
    3 * k <= |hs| && forall j :: 0 <= j < k ==> SameAt(hs, k, j)
  }

  /** A period of `k` is three consecutive copies of one block of `k` actions. */
  lemma CycleIsThreeCopies<H>(hs: seq<H>, k: nat, block: seq<H>)
    requires 3 * k <= |hs| && block == hs[|hs| - k..]
    ensures Cycle(hs, k) <==> hs[|hs| - 3 * k..] == block + block + block
  {
    var n := |hs|;
    var last := hs[n - 3 * k..];
    forall j | 0 <= j < k
      ensures SameAt(hs, k, j) <==> last[k - 1 - j] == last[2 * k - 1 - j] == block[k - 1 - j]
    {
      assert block[k - 1 - j] == hs[n - 1 - j];
    }
    if Cycle(hs, k) {
      forall i | 0 <= i < 3 * k ensures last[i] == (block + block + block)[i] {
        assert SameAt(hs, k, k - 1 - i % k) by { Remainder(i, k); }
        Remainder(i, k);
      }
    }
    if last == block + block + block {
      forall j | 0 <= j < k ensures SameAt(hs, k, j) {
        assert last[k - 1 - j] == block[k - 1 - j] && last[2 * k - 1 - j] == block[k - 1 - j];
      }
    }
  }

  lemma Remainder(i: nat, k: nat)
    requires i < 3 * k
    ensures i % k == if i < k then i else if i < 2 * k then i - k else i - 2 * k
  {
    if i < 2 * k { ModTwice(i, k); } else { assert i == 2 * k + (i - 2 * k); assert i / k == 2; }
  }

  /** The least period from 1 to 3, or 0. */
  function Period<H(==)>(hs: seq<H>): nat {
    if Cycle(hs, 1) then 1 else if Cycle(hs, 2) then 2 else if Cycle(hs, 3) then 3 else 0
  }

  /** The hashes end in three copies of the block of their last `k`. */
  ghost predicate ThreeCopies<H>(hs: seq<H>, k: nat) {
    && k > 0 && 3 * k <= |hs|
    && var block := hs[|hs| - k..]; hs[|hs| - 3 * k..] == block + block + block
  }

  lemma CopiesAre<H>(hs: seq<H>, k: nat)
    requires k > 0
    ensures Cycle(hs, k) <==> ThreeCopies(hs, k)
  {
    if 3 * k <= |hs| { CycleIsThreeCopies(hs, k, hs[|hs| - k..]); }
  }

  /** The least number of actions from 1 to 3 of which there are three copies at the end. */
  ghost predicate IsPeriod<H>(hs: seq<H>, k: nat) {
    1 <= k <= 3 && ThreeCopies(hs, k) && forall j: nat :: 1 <= j < k ==> !ThreeCopies(hs, j)
  }

  ghost predicate Loops<H>(hs: seq<H>) {
    ThreeCopies(hs, 1) || ThreeCopies(hs, 2) || ThreeCopies(hs, 3)
  }

  /** The detected period is that number, and 0 exactly when there is none. */
  lemma {:induction false} PeriodMeans<H>(hs: seq<H>)
    ensures Period(hs) == 0 <==> !Loops(hs)
    ensures forall k: nat :: k > 0 ==> (Period(hs) == k <==> IsPeriod(hs, k))
  {
    CopiesAre(hs, 1);
    CopiesAre(hs, 2);
    CopiesAre(hs, 3);
    forall k: nat | k > 0 ensures Period(hs) == k <==> IsPeriod(hs, k) {
      if k <= 3 { LeastOf(hs, k); }
    }
  }

  lemma LeastOf<H>(hs: seq<H>, k: nat)
    requires 1 <= k <= 3
    ensures IsPeriod(hs, k) <==>
            ThreeCopies(hs, k) && (k > 1 ==> !ThreeCopies(hs, 1)) && (k > 2 ==> !ThreeCopies(hs, 2))
  {
  }

  class Ring<H(==)> {
    const history: array<H>
    const zero: H
    var head: nat
    var count: nat
    /** Every hash recorded since the turn state was reset. */
    ghost var log: seq<H>

    ghost predicate Valid()
      reads this, history
    {
      && history.Length == HISTORY && count == (if |log| < HISTORY then |log| else HISTORY)
      && head == Slot(|log|, HISTORY)
      && forall k {:trigger log[k]} :: |log| - count <= k < |log| ==> history[Slot(k, HISTORY)] == log[k]
    }

    constructor (zero: H)
      ensures Valid() && log == [] && fresh(history)
    {
      history := new H[HISTORY](_ => zero);
      this.zero := zero;
      head, count, log := 0, 0, [];
    }

    /** Clearing the ring, as part of `belya_harness_reset_turn_state`. */
    method Reset()
      requires Valid()
      modifies this, history
      ensures Valid() && log == []
    {
      forall i | 0 <= i < history.Length { history[i] := zero; }
      head, count, log := 0, 0, [];
    }

    /** The write into the ring. */
    method Store(h: H)
      requires Valid()
      modifies this, history
      ensures Valid() && log == old(log) + [h]
    {
      PutHolds(history[..], log, |log| - count, h, HISTORY);
      SlotPlus(|log|, 1, HISTORY);
      history[head] := h;
      head := (head + 1) % HISTORY;
      if count < HISTORY { count := count + 1; }
      log := log + [h];
      assert Holds(history[..], log, |log| - count, HISTORY);
    }

    /** The hash recorded `j` actions ago. */
    method Back(j: nat) returns (h: H)
      requires Valid() && 1 <= j <= count
      ensures h == log[|log| - j]
    {
      SlotMinus(|log|, j, HISTORY);
      assert history[Slot(|log| - j, HISTORY)] == log[|log| - j];
      var idx := (head - j + HISTORY) % HISTORY;
      h := history[idx];
    }

    /** `belya_harness_detect_loop`: only the 32 slots are read, yet the answer is that
        of the full log. */
    method DetectLoop() returns (period: nat)
      requires Valid()
      ensures period == Period(log)
      ensures if period > 0 then IsPeriod(log, period) else !Loops(log)
    {
      period := LeastMatch();
      PeriodMeans(log);
    }

    /** The loop over the periods. */
    method LeastMatch() returns (period: nat)
      requires Valid()
      ensures period == Period(log)
    {
      if count < 3 { return 0; }
      var k := 1;
      while k <= 3
        invariant 1 <= k <= 4
        invariant forall j {:trigger Cycle(log, j)} :: 1 <= j < k ==> !Cycle(log, j)
      {
        if count >= 3 * k {
          var matched := CycleMatched(k);
          if matched { return k; }
        }
        k := k + 1;
      }
      return 0;
    }

    /** One comparison of the inner scan. */
    method MatchedAt(k: nat, i: nat) returns (same: bool)
      requires Valid() && i < k && 3 * k <= count
      ensures same <==> SameAt(log, k, i)
    {
      var cur := Back(1 + i);
      var prev1 := Back(1 + i + k);
      var prev2 := Back(1 + i + 2 * k);
      return cur == prev1 && cur == prev2;
    }

    /** The inner scan for one period. */
    method CycleMatched(k: nat) returns (matched: bool)
      requires Valid() && 1 <= k <= 3 && 3 * k <= count
      ensures matched <==> Cycle(log, k)
    {
      var i := 0;
      while i < k
        invariant 0 <= i <= k
        invariant forall j :: 0 <= j < i ==> SameAt(log, k, j)
      {
        var same := MatchedAt(k, i);
        if !same { return false; }
        i := i + 1;
      }
      return true;
    }
  }
}
