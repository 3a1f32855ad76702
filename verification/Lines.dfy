/** Line offsets in a text. */
module Lines {

  /** Offset just behind the line that `p` lies in, its newline included. */
  function LineEnd(s: string, p: nat): (e: nat)
    requires p <= |s|
    ensures p <= e <= |s| && (p < |s| ==> p < e)
    decreases |s| - p
  {
    if p == |s| then p else if s[p] == '\n' then p + 1 else LineEnd(s, p + 1)
  }

  /** Offset behind `k` lines, counting from `p`. */
  function Skip(s: string, p: nat, k: nat): (e: nat)
    requires p <= |s|
    ensures p <= e <= |s|
    decreases |s| - p
  {
    if k == 0 || p == |s| then p else Skip(s, LineEnd(s, p), k - 1)
  }

  /** Number of lines from `p` to the end. */
  function LineCount(s: string, p: nat): nat
    requires p <= |s|
    decreases |s| - p
  {
    if p == |s| then 0 else 1 + LineCount(s, LineEnd(s, p))
  }

  lemma {:induction false} SkipLeaves(s: string, p: nat, k: nat)
    requires p <= |s| && k <= LineCount(s, p)
    ensures LineCount(s, Skip(s, p, k)) == LineCount(s, p) - k
    decreases k
  {
    if k > 0 { SkipLeaves(s, LineEnd(s, p), k - 1); }
  }

  lemma {:induction false} SkipAdds(s: string, p: nat, j: nat, k: nat)
    requires p <= |s|
    ensures Skip(s, Skip(s, p, j), k) == Skip(s, p, j + k)
    decreases j
  {
    if j > 0 && p < |s| { SkipAdds(s, LineEnd(s, p), j - 1, k); }
  }

  lemma {:induction false} SkipIncreases(s: string, j: nat, k: nat)
    requires j < k <= LineCount(s, 0)
    ensures Skip(s, 0, j) < Skip(s, 0, k)
  {
    SkipAdds(s, 0, j, k - j);
    SkipLeaves(s, 0, j);
  }

  // ---------- Newlines ----------

  function Newlines(s: string): nat {
    if s == "" then 0 else Newlines(s[..|s| - 1]) + if s[|s| - 1] == '\n' then 1 else 0
  }

  ghost predicate NewlineAt(s: string, k: nat) {
    k < |s| && s[k] == '\n'
  }

  ghost function NewlineSet(s: string): set<nat> {
    set k: nat | k < |s| && NewlineAt(s, k)
  }

  lemma NewlineSnoc(s: string, c: char, k: nat)
    ensures NewlineAt(s + [c], k) <==> NewlineAt(s, k) || (k == |s| && c == '\n')
  {
  }

  lemma {:induction false} NewlinesAre(s: string)
    ensures Newlines(s) == |NewlineSet(s)|
  {
    if s == "" {
      assert NewlineSet(s) == {};
    } else {
      var t, c := s[..|s| - 1], s[|s| - 1];
      NewlinesAre(t);
      var added: set<nat> := if c == '\n' then {|t|} else {};
      assert s == t + [c];
      forall k: nat ensures k in NewlineSet(s) <==> k in NewlineSet(t) + added { NewlineSnoc(t, c, k); }
      assert NewlineSet(s) == NewlineSet(t) + added && NewlineSet(t) !! added;
    }
  }

  /** Newlines end lines, and so does the end of a text that does not end in one. */
  lemma {:induction false} LineCountIs(s: string, p: nat)
    requires p <= |s|
    ensures Newlines(s[..p]) + LineCount(s, p) + (if 0 < p == |s| && s[p - 1] != '\n' then 1 else 0) ==
            Newlines(s) + (if s != "" && s[|s| - 1] != '\n' then 1 else 0)
    decreases |s| - p
  {
    if p == |s| {
      assert s[..p] == s;
    } else {
      assert s[..p + 1][..p] == s[..p];
      LineCountIs(s, p + 1);
    }
  }

  /** The first `k` lines of the text, each with its newline, end at `p`. */
  ghost predicate EndsLine(s: string, p: nat, k: nat) {
    p <= |s| && |NewlineSet(s[..p])| == k && (if k == 0 then p == 0 else p > 0 && s[p - 1] == '\n')
  }

  lemma {:induction false} LineEndCounts(s: string, p: nat)
    requires p < |s| && LineEnd(s, p) < |s|
    ensures s[LineEnd(s, p) - 1] == '\n' && Newlines(s[..LineEnd(s, p)]) == Newlines(s[..p]) + 1
    decreases |s| - p
  {
    assert s[..p + 1][..p] == s[..p];
    if s[p] != '\n' { LineEndCounts(s, p + 1); }
  }

  lemma {:induction false} SkipCounts(s: string, p: nat, k: nat)
    requires p <= |s| && k < LineCount(s, p)
    ensures var e := Skip(s, p, k);
            && e < |s| && Newlines(s[..e]) == Newlines(s[..p]) + k
            && if k == 0 then e == p else e > 0 && s[e - 1] == '\n'
    decreases k
  {
    if k > 0 {
      var n := LineEnd(s, p);
      LineEndCounts(s, p);
      SkipCounts(s, n, k - 1);
    }
  }

  /** Skipping lines from the start gets there. */
  lemma {:induction false} SkipEndsLine(s: string, k: nat)
    requires k < LineCount(s, 0)
    ensures EndsLine(s, Skip(s, 0, k), k)
  {
    SkipCounts(s, 0, k);
    NewlinesAre(s[..Skip(s, 0, k)]);
  }

  /** Newlines, and one more line if the text does not end in one. */
  ghost function LinesOf(s: string): nat {
    |NewlineSet(s)| + if s != "" && s[|s| - 1] != '\n' then 1 else 0
  }

  lemma {:induction false} LinesOfIs(s: string)
    ensures LineCount(s, 0) == LinesOf(s)
  {
    LineCountIs(s, 0);
    NewlinesAre(s);
  }
}
