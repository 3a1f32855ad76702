/** The folding of long tool output (belya_agent.c). */
module Folding {
  import opened Text
  import opened Decimal
  import opened Lines

  // ---------- Folding ----------

  const MAX_LINES: nat := 60
  const HEAD_LINES: nat := 15
  const TAIL_LINES: nat := 30

  /** TOOL_OUTPUT_LIMIT, when set to more than 500. */
  function LimitFromEnv(env: Option<int>): (limit: nat)
    ensures limit > 500
  {
    if env.Some? && env.value > 500 then env.value else 8000
  }

  /** The measurements the decision rests on: number of lines, end of the first 15,
      start of the last 30, total length. */
  datatype Shape = Shape(lines: nat, head: nat, tail: nat, total: nat)

  function Measure(s: string): Shape {
    var n := LineCount(s, 0);
    Shape(n, Skip(s, 0, HEAD_LINES), Skip(s, 0, if n > TAIL_LINES then n - TAIL_LINES else 0), |s|)
  }

  /** In a text of more than 60 lines the first 15 end before the last 30 begin. */
  ghost predicate Sane(m: Shape) {
    m.tail <= m.total && (m.lines > MAX_LINES ==> m.head < m.tail)
  }

  lemma {:induction false} MeasureIsSane(s: string)
    ensures Sane(Measure(s))
    ensures Measure(s).lines > MAX_LINES ==> LineCount(s, Measure(s).tail) == TAIL_LINES
  {
    var n := LineCount(s, 0);
    if n > MAX_LINES {
      SkipIncreases(s, HEAD_LINES, n - TAIL_LINES);
      SkipLeaves(s, 0, n - TAIL_LINES);
    }
  }

  predicate NeedsFolding(m: Shape, limit: nat) {
    m.lines > MAX_LINES || m.total > limit
  }

  /** Cutting behind line 15 and before the last 30 lines, unless that keeps too much. */
  predicate CutsByLines(m: Shape, limit: nat) {
    m.lines > MAX_LINES && m.head < m.tail && m.head + (m.total - m.tail) <= limit
  }

  /** The byte bounds are reached only by texts longer than the limit: a line cut
      that keeps too much cannot keep more than the text. */
  lemma {:induction false} ByteCutIsLong(s: string, limit: nat)
    requires NeedsFolding(Measure(s), limit) && !CutsByLines(Measure(s), limit)
    ensures |s| > limit
  {
    MeasureIsSane(s);
  }

  /** End of the kept head and start of the kept tail. */
  function Cut(m: Shape, limit: nat): (cut: (nat, nat))
    requires Sane(m) && NeedsFolding(m, limit)
    ensures cut.0 < cut.1 <= m.total && cut.0 + (m.total - cut.1) <= limit
  {
    var half := limit / 2;
    if CutsByLines(m, limit) then (m.head, m.tail)
    else if half > 1500 then (half - 500, m.total - (half + 500))
    else (half, m.total - half)
  }

  /** Renders the notice from the omitted and the total number of bytes. */
  type Notice = (nat, nat) -> string

  function Marker(omitted: nat, total: nat): string {
    "\n\n[... Output truncated: " + Numeral(omitted) + " bytes omitted of " + Numeral(total) +
    " total bytes to preserve context & speed ...]\n\n"
  }

  /** The text with everything between the two offsets replaced. */
  function Splice(s: string, head: nat, tail: nat, replacement: string): string
    requires head <= tail <= |s|
  {
    s[..head] + replacement + s[tail..]
  }

  function Folded(s: string, limit: nat, notice: Notice): string {
    var m := Measure(s);
    if !NeedsFolding(m, limit) then s
    else
      MeasureIsSane(s);
      var (head, tail) := Cut(m, limit);
      Splice(s, head, tail, notice(tail - head, |s|))
  }

  method CountLines(s: string) returns (n: nat)
    ensures n == LineCount(s, 0)
  {
    n := 0;
    var p := 0;
    while p < |s|
      invariant 0 <= p <= |s|
      invariant LineCount(s, 0) ==
                n + (if p == |s| && p > 0 && s[p - 1] != '\n' then 1 else LineCount(s, p))
    {
      if s[p] == '\n' { n := n + 1; }
      p := p + 1;
    }
    if |s| > 0 && s[|s| - 1] != '\n' { n := n + 1; }
  }

  /** The pointer walk over the first `k` lines. */
  method SkipLines(s: string, k: nat) returns (p: nat)
    ensures p == Skip(s, 0, k)
  {
    var idx := 0;
    p := 0;
    while p < |s| && idx < k
      invariant 0 <= p <= |s| && 0 <= idx <= k
      invariant Skip(s, 0, k) == Skip(s, p, k - idx)
    {
      if s[p] == '\n' { idx := idx + 1; }
      p := p + 1;
    }
  }

  /** The content that `belya_agent_add_tool_result` stores. No subtraction of
      unsigned lengths goes below zero: each result is bound to a `nat`. */
  method FoldToolOutput(s: string, limit: nat, notice: Notice) returns (content: string)
    ensures content == Folded(s, limit, notice)
  {
    ghost var m := Measure(s);
    if s == "" { return ""; }
    var n := CountLines(s);
    if n <= MAX_LINES && |s| <= limit { return s; }
    MeasureIsSane(s);
    var head: nat, tail: nat, byLines := 0, 0, false;
    if n > MAX_LINES { head, tail, byLines := LineBounds(s, n, limit); }
    if !byLines { head, tail := ByteBounds(m, |s|, limit); }
    assert (head, tail) == Cut(m, limit);
    var omitted: nat := tail - head;
    content := Splice(s, head, tail, notice(omitted, |s|));
  }

  /** The ends of the two runs of lines, and whether they are used. */
  method LineBounds(s: string, n: nat, limit: nat) returns (head: nat, tail: nat, byLines: bool)
    requires n == LineCount(s, 0) > MAX_LINES
    ensures head == Measure(s).head && tail == Measure(s).tail && (byLines <==> CutsByLines(Measure(s), limit))
  {
    head := SkipLines(s, HEAD_LINES);
    var target := if n > TAIL_LINES then n - TAIL_LINES else 0;
    tail := SkipLines(s, target);
    byLines := !(head >= tail || head + (|s| - tail) > limit);
  }

  /** The fallback of the folding: fixed numbers of bytes at both ends. */
  method ByteBounds(ghost m: Shape, total: nat, limit: nat) returns (head: nat, tail: nat)
    requires m.total == total && Sane(m) && NeedsFolding(m, limit) && !CutsByLines(m, limit)
    ensures (head, tail) == Cut(m, limit)
  {
    var half := limit / 2;
    var headLen: int := if half > 1500 then half - 500 else half;
    var tailLen: int := if half > 1500 then half + 500 else half;
    if headLen + tailLen > limit {
      headLen := half;
      tailLen := limit - headLen;
    }
    head, tail := headLen, total - tailLen;
  }

  // ---------- What folding does ----------

  /** The limit is 8000 bytes unless the environment asks for another above 500; the notice
      says how many bytes were left out of how many. */
  lemma {:induction false} LimitAndNotice(env: Option<int>, omitted: nat, total: nat)
    ensures LimitFromEnv(env) == match env case None => 8000 case Some(n) => if n > 500 then n else 8000
    ensures Contains(Marker(omitted, total), Numeral(omitted) + " bytes omitted of " + Numeral(total))
  {
    ContainsMiddle("\n\n[... Output truncated: ", Numeral(omitted), " bytes omitted of ", Numeral(total),
                   " total bytes to preserve context & speed ...]\n\n");
  }

  lemma ContainsMiddle(head: string, a: string, b: string, c: string, tail: string)
    ensures Contains(head + a + b + c + tail, a + b + c)
  {
    var middle := a + b + c;
    assert head + a + b + c + tail == head + middle + tail;
    assert At(head + middle + tail, middle, |head|);
  }

  /** The byte cut: half the limit at either end, 500 bytes moved from the head to the tail
      of a large one. */
  ghost predicate CutsByBytes(s: string, limit: nat, head: nat, tail: nat) {
    tail <= |s| && if limit / 2 > 1500 then head == limit / 2 - 500 && |s| - tail == limit / 2 + 500
                   else head == limit / 2 == |s| - tail
  }

  /** Behind the first 15 lines and before the last 30. */
  ghost predicate CutsAtLines(s: string, head: nat, tail: nat) {
    EndsLine(s, head, 15) && LinesOf(s) >= 30 && EndsLine(s, tail, LinesOf(s) - 30)
  }

  /** Text of at most 60 lines and within the limit is kept. Of any other a head and a tail
      stay around a count of the bytes between them: the first 15 and the last 30 of more
      than 60 lines, unless these exceed the limit; and otherwise the byte cut. */
  lemma {:induction false} FoldingKeeps(s: string, limit: nat, notice: Notice) returns (head: nat, tail: nat)
    ensures LinesOf(s) <= 60 && |s| <= limit ==> Folded(s, limit, notice) == s
    ensures LinesOf(s) > 60 || |s| > limit ==>
              && head < tail <= |s| && head + (|s| - tail) <= limit
              && Folded(s, limit, notice) == s[..head] + notice(tail - head, |s|) + s[tail..]
              && (CutsByBytes(s, limit, head, tail) || (LinesOf(s) > 60 && CutsAtLines(s, head, tail)))
    ensures LinesOf(s) > 60 ==>
              exists a: nat, b: nat :: CutsAtLines(s, a, b) && a < b <= |s| &&
                if a + (|s| - b) <= limit then head == a && tail == b else CutsByBytes(s, limit, head, tail)
  {
    var m := Measure(s);
    LinesOfIs(s);
    MeasureIsSane(s);
    head, tail := 0, |s|;
    if NeedsFolding(m, limit) { head, tail := Cut(m, limit).0, Cut(m, limit).1; }
    if m.lines > 60 {
      SkipEndsLine(s, 15);
      SkipEndsLine(s, m.lines - 30);
      assert CutsAtLines(s, m.head, m.tail);
    }
  }
}
