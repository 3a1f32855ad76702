/** The growable string of common.h: a NUL-terminated buffer that doubles. */
module DynStrings {
  import opened JsonText
  import opened Machine

  const INITIAL_CAP: nat := 1024
  const RESTART_CAP: nat := 512

  /** Doubling from `cap` until `need` fits, clamped to `need` where the next
      doubling would pass SIZE_MAX. */
  function GrowTo(cap: nat, need: nat): (r: nat)
    requires 0 < cap <= SIZE_MAX && need <= SIZE_MAX
    ensures need <= r <= SIZE_MAX && cap <= r
    decreases need - cap
  {
    if need <= cap then cap
    else if cap > SIZE_MAX / 2 then need
    else GrowTo(2 * cap, need)
  }

  /** Capacity after appending `n` characters to a string of length `len`. */
  function CapAfter(cap: nat, len: nat, n: nat): nat
    requires cap <= SIZE_MAX && len + n < SIZE_MAX
  {
    if n == 0 || len + n + 1 <= cap then cap
    else GrowTo(if cap == 0 then RESTART_CAP else cap, len + n + 1)
  }

  /** The doubling loop of `dyn_str_grow`. */
  method NewCap(cap: nat, need: nat) returns (newCap: nat)
    requires 0 < cap <= SIZE_MAX && need <= SIZE_MAX
    ensures newCap == GrowTo(cap, need)
  {
    newCap := cap;
    while need > newCap
      invariant 0 < newCap <= SIZE_MAX && GrowTo(newCap, need) == GrowTo(cap, need)
      decreases need - newCap
    {
      if newCap > SIZE_MAX / 2 { return need; }
      newCap := newCap * 2;
    }
  }

  class DynString {
    var data: array<char>
    var len: nat
    var cap: nat

    /** `cap == 0` is the freed state; otherwise there is room for a terminator. */
    ghost predicate Valid()
      reads this, data
    {
      data.Length == cap <= SIZE_MAX &&
      if cap == 0 then len == 0 else len < cap && data[len] == '\0'
    }

    ghost function Contents(): string
      reads this, data
      requires Valid()
    {
      data[..len]
    }

    /** `dyn_str_new`. */
    constructor ()
      ensures Valid() && Contents() == "" && cap == 1024 && fresh(data)
    {
      data := new char[INITIAL_CAP](_ => '\0');
      len, cap := 0, INITIAL_CAP;
    }

    /** `dyn_str_grow`; `aborted` stands for the call to `abort`. */
    method Grow(needed: nat) returns (aborted: bool)
      requires Valid() && needed > 0
      modifies this
      ensures Valid() && len == old(len) && Contents() == old(Contents())
      ensures data == old(data) || fresh(data)
      ensures aborted <==> needed > SIZE_MAX - len - 1
      ensures aborted ==> data == old(data) && cap == old(cap)
      ensures !aborted ==> len + needed + 1 <= cap && cap == CapAfter(old(cap), len, needed)
    {
      if needed > SIZE_MAX - len - 1 { return true; }
      if len + needed + 1 > cap {
        var newCap := NewCap(if cap != 0 then cap else RESTART_CAP, len + needed + 1);
        Reallocate(newCap);
      }
      return false;
    }

    /** The call to `realloc`. */
    method Reallocate(newCap: nat)
      requires Valid() && len < newCap && cap <= newCap <= SIZE_MAX
      modifies this`data, this`cap
      ensures Valid() && cap == newCap && fresh(data) && Contents() == old(Contents())
    {
      var newData := new char[newCap](_ => '\0');
      forall i | 0 <= i < data.Length {
        newData[i] := data[i];
      }
      assert newData[..len] == data[..len];
      data, cap := newData, newCap;
    }

    /** `dyn_str_append_len`, and `dyn_str_append` and `dyn_str_appendf` with the
        whole of a (formatted) text. */
    method AppendLen(str: string, slen: nat) returns (aborted: bool)
      requires Valid() && slen <= |str|
      modifies this, data
      ensures Valid() && (data == old(data) || fresh(data))
      ensures aborted <==> slen > 0 && slen > SIZE_MAX - old(len) - 1
      ensures Contents() == if aborted then old(Contents()) else old(Contents()) + str[..slen]
      ensures !aborted ==> cap == CapAfter(old(cap), old(len), slen)
    {
      if slen == 0 { return false; }
      if slen > SIZE_MAX - len - 1 { return true; }
      aborted := Grow(slen);
      Put(str, slen);
    }

    /** The `memcpy` behind the text, and the new terminator. */
    method Put(str: string, slen: nat)
      requires Valid() && slen <= |str| && len + slen < cap
      modifies this`len, data
      ensures Valid() && Contents() == old(Contents()) + str[..slen]
    {
      ghost var before := Contents();
      forall k | len <= k < len + slen {
        data[k] := str[k - len];
      }
      assert data[..len] == before;
      assert data[len..len + slen] == str[..slen];
      len := len + slen;
      data[len] := '\0';
      assert data[..len] == before + str[..slen];
    }

    method Append(str: string) returns (aborted: bool)
      requires Valid()
      modifies this, data
      ensures Valid() && (data == old(data) || fresh(data))
      ensures aborted <==> |str| > 0 && |str| > SIZE_MAX - old(len) - 1
      ensures Contents() == if aborted then old(Contents()) else old(Contents()) + str
      ensures !aborted ==> cap == CapAfter(old(cap), old(len), |str|)
    {
      aborted := AppendLen(str, |str|);
      assert str[..|str|] == str;
    }

    /** `dyn_str_append_escaped`. */
    method AppendEscaped(str: string) returns (aborted: bool)
      requires Valid()
      modifies this, data
      ensures Valid() && (data == old(data) || fresh(data))
      ensures aborted <==> Escape(str) != "" && |Escape(str)| > SIZE_MAX - old(len) - 1
      ensures !aborted ==> Contents() == old(Contents()) + Escape(str)
    {
      ghost var before, done := Contents(), "";
      var p := 0;
      while p < |str|
        invariant 0 <= p <= |str| && done == Escape(str[..p]) && |done| <= |Escape(str)|
        invariant Valid() && (data == old(data) || fresh(data))
        invariant Contents() == before + done && |before| + |done| < SIZE_MAX
      {
        EscapedStep(str, p);
        aborted := AppendEscapedAt(str[p], before, done);
        if aborted { return; }
        p, done := p + 1, done + EscapeChar(str[p]);
      }
      assert str[..p] == str;
      return false;
    }

    /** The switch for one character. */
    method AppendEscapedAt(c: char, ghost before: string, ghost done: string) returns (aborted: bool)
      requires Valid() && Contents() == before + done
      modifies this, data
      ensures Valid() && (data == old(data) || fresh(data))
      ensures aborted <==> |done + EscapeChar(c)| > SIZE_MAX - |before| - 1
      ensures !aborted ==> Contents() == before + (done + EscapeChar(c))
    {
      aborted := Append(EscapeChar(c));
      assert before + done + EscapeChar(c) == before + (done + EscapeChar(c));
    }

    /** `dyn_str_clear`. */
    method Clear()
      requires Valid()
      modifies this, data
      ensures Valid() && Contents() == "" && data == old(data) && cap == old(cap)
    {
      len := 0;
      if data.Length > 0 { data[0] := '\0'; }
    }

    /** `dyn_str_free`; a freed string may be appended to again. */
    method Free()
      requires Valid()
      modifies this
      ensures Valid() && Contents() == "" && cap == 0 && fresh(data)
    {
      data := new char[0];
      len, cap := 0, 0;
    }
  }

  lemma {:induction false} EscapedPrefix(s: string, p: nat)
    requires p <= |s|
    ensures |Escape(s[..p])| <= |Escape(s)|
    decreases |s| - p
  {
    if p == |s| {
      assert s[..p] == s;
    } else {
      EscapeSnoc(s[..p], s[p]);
      assert s[..p] + [s[p]] == s[..p + 1];
      EscapedPrefix(s, p + 1);
    }
  }

  lemma {:induction false} EscapedStep(s: string, p: nat)
    requires p < |s|
    ensures Escape(s[..p + 1]) == Escape(s[..p]) + EscapeChar(s[p])
    ensures |Escape(s[..p + 1])| <= |Escape(s)|
  {
    EscapeSnoc(s[..p], s[p]);
    assert s[..p] + [s[p]] == s[..p + 1];
    EscapedPrefix(s, p + 1);
  }

  // ---------- Amortised cost ----------

  function Doubled(cap: nat, k: nat): nat
    decreases k
  {
    if k == 0 then cap else Doubled(2 * cap, k - 1)
  }

  lemma {:induction false} GrowsTo(cap: nat, need: nat) returns (k: nat)
    requires 0 < cap <= SIZE_MAX && need <= SIZE_MAX
    ensures var d := Doubled(cap, k);
            && (k > 0 ==> Doubled(cap, k - 1) < need)
            && if d >= need then GrowTo(cap, need) == d else GrowTo(cap, need) == need && 2 * d > SIZE_MAX
    decreases need - cap
  {
    k := 0;
    if cap < need && cap <= SIZE_MAX / 2 {
      k := GrowsTo(2 * cap, need);
      k := k + 1;
    }
  }

  /** An append that does not fit doubles the capacity, 512 bytes when there was none, no
      more often than the text and its terminator need; where the next doubling would not
      fit a size, it takes just what is needed. */
  lemma {:induction false} CapacityIs(cap: nat, len: nat, n: nat) returns (k: nat)
    requires cap <= SIZE_MAX && len + n < SIZE_MAX
    ensures n == 0 || len + n < cap ==> CapAfter(cap, len, n) == cap
    ensures n > 0 && len + n >= cap ==>
              var start, need := if cap == 0 then 512 else cap, len + n + 1;
              && (k > 0 ==> Doubled(start, k - 1) < need)
              && (Doubled(start, k) < need ==> 2 * Doubled(start, k) > SIZE_MAX)
              && CapAfter(cap, len, n) == if Doubled(start, k) >= need then Doubled(start, k) else need
  {
    k := GrowsTo(if cap == 0 then 512 else cap, len + n + 1);
  }

  /** Capacity, length and the sum of all capacities allocated so far. */
  datatype Ledger = Ledger(cap: nat, len: nat, total: nat)

  function Charged(l: Ledger, n: nat): (r: Ledger)
    requires l.cap <= SIZE_MAX && l.len + n < SIZE_MAX
    ensures r.cap <= SIZE_MAX && r.len == l.len + n
  {
    var cap := CapAfter(l.cap, l.len, n);
    Ledger(cap, l.len + n, if cap == l.cap then l.total else l.total + cap)
  }

  /** A run of appends of the given lengths; each reallocation is charged in full. */
  function Charge(l: Ledger, appends: seq<nat>): Ledger
    requires l.cap <= SIZE_MAX && l.len + Sum(appends) < SIZE_MAX
    decreases |appends|
  {
    if appends == [] then l
    else Charge(Charged(l, appends[0]), appends[1..])
  }

  function Sum(ns: seq<nat>): nat {
    if ns == [] then 0 else ns[0] + Sum(ns[1..])
  }

  const HALF: nat := SIZE_MAX / 2 + 1

  /** Up to half the address range no clamp occurs: growth at least doubles, and
      does not double past twice the need. */
  lemma {:induction false} GrowDoubles(cap: nat, need: nat)
    requires 0 < cap < need <= HALF
    ensures 2 * cap <= GrowTo(cap, need) < 2 * need
    decreases need - cap
  {
    if 2 * cap < need { GrowDoubles(2 * cap, need); }
  }

  ghost predicate Amortised(l: Ledger) {
    l.cap <= SIZE_MAX && l.len < l.cap && l.total < 2 * l.cap &&
    (l.cap <= INITIAL_CAP || l.cap < 2 * (l.len + 1))
  }

  lemma OneAppend(l: Ledger, n: nat)
    requires Amortised(l) && l.len + n + 1 <= HALF
    ensures Amortised(Charged(l, n))
  {
    var need := l.len + n + 1;
    if n > 0 && need > l.cap { GrowDoubles(l.cap, need); }
  }

  /** Over any run of appends to a new string that stays within half the address
      range, the memory ever allocated is below twice the current capacity and
      linear in the length. */
  lemma {:induction false} AppendsAreAmortised(l: Ledger, appends: seq<nat>)
    requires Amortised(l) && l.len + Sum(appends) + 1 <= HALF
    ensures var r := Charge(l, appends);
            && Amortised(r) && r.len == l.len + Sum(appends)
            && (r.total < 2 * INITIAL_CAP || r.total < 4 * (r.len + 1))
    decreases |appends|
  {
    if appends != [] {
      OneAppend(l, appends[0]);
      AppendsAreAmortised(Charged(l, appends[0]), appends[1..]);
    }
  }
}
