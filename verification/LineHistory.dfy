/** The history list of linenoise.c: an array shifted in place when it is full. */
module LineHistory {

  function LastN<T>(s: seq<T>, n: nat): seq<T> {
    if |s| <= n then s else s[|s| - n..]
  }

  /** `linenoiseHistoryAdd` on values: the last entry is not repeated. */
  function Added(entries: seq<string>, line: string, max: nat): seq<string> {
    if entries != [] && entries[|entries| - 1] == line then entries else LastN(entries + [line], max)
  }

  class History {
    var slots: array<string>
    var count: nat
    var maxLen: nat

    ghost predicate Valid()
      reads this
    {
      slots.Length == maxLen && maxLen >= 1 && count <= maxLen
    }

    ghost function Entries(): seq<string>
      reads this, slots
      requires Valid()
    {
      slots[..count]
    }

    constructor (max: nat)
      requires max >= 1
      ensures Valid() && Entries() == [] && maxLen == max && fresh(slots)
    {
      slots := new string[max](_ => "");
      count, maxLen := 0, max;
    }

    /** The `memmove` over the oldest entry. */
    method DropOldest()
      requires Valid() && count > 0
      modifies this`count, slots
      ensures Valid() && Entries() == old(Entries())[1..]
    {
      forall i | 0 <= i < count - 1 {
        slots[i] := slots[i + 1];
      }
      count := count - 1;
    }

    /** `linenoiseHistoryAdd`. */
    method Add(line: string) returns (added: bool)
      requires Valid()
      modifies this`count, slots
      ensures Valid() && Entries() == Added(old(Entries()), line, maxLen)
      ensures added <==> old(Entries()) == [] || old(Entries())[|old(Entries())| - 1] != line
    {
      if count > 0 && slots[count - 1] == line { return false; }
      ghost var entries := Entries();
      if count == maxLen { DropOldest(); }
      slots[count] := line;
      count := count + 1;
      assert Entries() == LastN(entries + [line], maxLen);
      return true;
    }

    /** `linenoiseHistorySetMaxLen`. */
    method SetMaxLen(len: int) returns (ok: bool)
      requires Valid()
      modifies this
      ensures Valid() && (ok <==> len >= 1)
      ensures if ok then maxLen == len && Entries() == LastN(old(Entries()), len)
              else maxLen == old(maxLen) && Entries() == old(Entries())
    {
      if len < 1 { return false; }
      var tocopy := if len < count then len else count;
      ghost var kept := slots[count - tocopy..count];
      var resized := new string[len](_ => "");
      forall i | 0 <= i < tocopy {
        resized[i] := slots[count - tocopy + i];
      }
      assert resized[..tocopy] == kept;
      slots, maxLen := resized, len;
      if count > len { count := len; }
      return true;
    }
  }

  // ---------- Runs ----------

  /** A log of lines without immediate repetitions. */
  function Dedup(log: seq<string>): seq<string> {
    if |log| <= 1 then log
    else
      var rest := Dedup(log[..|log| - 1]);
      if log[|log| - 2] == log[|log| - 1] then rest else rest + [log[|log| - 1]]
  }

  /** It has the same lines and no two equal ones in a row. */
  lemma {:induction false} DedupIs(log: seq<string>)
    ensures forall x :: x in Dedup(log) <==> x in log
    ensures forall i :: 0 < i < |Dedup(log)| ==> Dedup(log)[i - 1] != Dedup(log)[i]
  {
    if |log| > 1 {
      var before := log[..|log| - 1];
      DedupIs(before);
      DedupKeepsLast(before);
      assert log == before + [log[|log| - 1]] && log[|log| - 2] in before;
    }
  }

  function AddAll(entries: seq<string>, lines: seq<string>, max: nat): seq<string> {
    if lines == [] then entries
    else Added(AddAll(entries, lines[..|lines| - 1], max), lines[|lines| - 1], max)
  }

  lemma {:induction false} DedupKeepsLast(log: seq<string>)
    ensures |Dedup(log)| <= |log| && (log != [] ==> Dedup(log) != [] && Dedup(log)[|Dedup(log)| - 1] == log[|log| - 1])
  {
    if |log| > 1 { DedupKeepsLast(log[..|log| - 1]); }
  }

  lemma LastNSnoc(s: seq<string>, x: string, max: nat)
    requires s != [] && max >= 1
    ensures LastN(s, max) != [] && LastN(s, max)[|LastN(s, max)| - 1] == s[|s| - 1]
    ensures LastN(LastN(s, max) + [x], max) == LastN(s + [x], max)
  {
  }

  lemma AddedRecent(d: seq<string>, x: string, max: nat)
    requires d != [] && max >= 1
    ensures Added(LastN(d, max), x, max) == LastN(if d[|d| - 1] == x then d else d + [x], max)
  {
    LastNSnoc(d, x, max);
  }

  /** After any run of additions the list holds the last `max` entries of the whole
      log, immediate repetitions counted once. */
  lemma {:induction false} HistoryIsRecentLog(log: seq<string>, max: nat)
    requires max >= 1
    ensures AddAll([], log, max) == LastN(Dedup(log), max)
    decreases |log|
  {
    if |log| == 1 {
      assert AddAll([], log[..0], max) == [] && [] + [log[0]] == log;
    } else if |log| > 1 {
      var before, x := log[..|log| - 1], log[|log| - 1];
      HistoryIsRecentLog(before, max);
      DedupKeepsLast(before);
      assert before[|before| - 1] == log[|log| - 2];
      AddedRecent(Dedup(before), x, max);
    }
  }
}
