/** The token estimator of common.h. */
module Tokens {

  /** ASCII punctuation: 33..47, 58..64, 91..96 and 123..126. */
  predicate IsMark(c: char) {
    '!' <= c <= '/' || ':' <= c <= '@' || '[' <= c <= '`' || '{' <= c <= '~'
  }

  predicate IsWord(c: char) {
    c > ' ' && !IsMark(c)
  }

  /** The marks are the printable ASCII characters that are neither letters nor digits;
      words are made of letters, digits and everything behind the tilde. */
  lemma MarksAre(c: char)
    ensures IsMark(c) <==>
            ' ' < c <= '~' && !('0' <= c <= '9') && !('A' <= c <= 'Z') && !('a' <= c <= 'z')
    ensures IsWord(c) <==> '0' <= c <= '9' || 'A' <= c <= 'Z' || 'a' <= c <= 'z' || c > '~'
  {
  }

  /** Offsets of punctuation marks. */
  ghost function MarkSet(s: string): set<nat> {
    set i: nat | i < |s| && IsMark(s[i])
  }

  /** A maximal run of word characters begins at offset `i`. */
  ghost predicate RunStart(s: string, i: nat) {
    i < |s| && IsWord(s[i]) && (i == 0 || !IsWord(s[i - 1]))
  }

  ghost function RunSet(s: string): set<nat> {
    set i: nat | i < |s| && RunStart(s, i)
  }

  /** Punctuation marks plus maximal word runs. */
  ghost function Pieces(s: string): nat {
    |MarkSet(s)| + |RunSet(s)|
  }

  ghost function Estimate(s: string): nat {
    var quarter := (|s| + 3) / 4;
    if Pieces(s) > quarter then Pieces(s) else quarter
  }

  lemma SnocMark(s: string, c: char)
    ensures |MarkSet(s + [c])| == |MarkSet(s)| + (if IsMark(c) then 1 else 0)
  {
    var t := s + [c];
    if IsMark(c) {
      assert MarkSet(t) == MarkSet(s) + {|s|};
    } else {
      assert MarkSet(t) == MarkSet(s);
    }
  }

  /** The character `c`, put behind `s`, starts a run. */
  ghost predicate StartsBehind(s: string, c: char) {
    IsWord(c) && (s == "" || !IsWord(s[|s| - 1]))
  }

  lemma SnocRunStart(s: string, c: char, i: nat)
    ensures RunStart(s + [c], i) <==> RunStart(s, i) || (i == |s| && StartsBehind(s, c))
  {
  }

  lemma SnocRun(s: string, c: char)
    ensures |RunSet(s + [c])| == |RunSet(s)| + (if StartsBehind(s, c) then 1 else 0)
  {
    var now, before := RunSet(s + [c]), RunSet(s);
    var added: set<nat> := if StartsBehind(s, c) then {|s|} else {};
    forall i: nat ensures i in now <==> i in before + added {
      SnocRunStart(s, c, i);
    }
    assert now == before + added && before !! added;
  }

  /** One more character adds a mark, starts a run, or adds nothing. */
  lemma Snoc(s: string, c: char)
    ensures Pieces(s + [c]) == Pieces(s) + (if IsMark(c) then 1 else 0) + (if StartsBehind(s, c) then 1 else 0)
  {
    SnocMark(s, c);
    SnocRun(s, c);
  }

  lemma Empty()
    ensures Pieces("") == 0
  {
    assert MarkSet("") == {} && RunSet("") == {};
  }

  /** common.h `count_estimated_tokens`. */
  method CountEstimatedTokens(text: string) returns (r: nat)
    ensures r == Estimate(text)
  {
    Empty();
    if text == "" { return 0; }
    var tokens, charCount, inWord := 0, 0, false;
    var p := 0;
    while p < |text|
      invariant 0 <= p <= |text| && charCount == p
      invariant inWord == (p > 0 && IsWord(text[p - 1]))
      invariant tokens + (if inWord then 1 else 0) == Pieces(text[..p])
    {
      var c := text[p];
      Snoc(text[..p], c);
      assert text[..p] + [c] == text[..p + 1];
      charCount := charCount + 1;
      if c <= ' ' || IsMark(c) {
        if inWord {
          tokens := tokens + 1;
          inWord := false;
        }
        if c > ' ' { tokens := tokens + 1; }
      } else {
        inWord := true;
      }
      p := p + 1;
    }
    assert text[..p] == text;
    if inWord { tokens := tokens + 1; }
    var charBased := (charCount + 3) / 4;
    r := if tokens > charBased then tokens else charBased;
  }

  lemma {:induction false} PiecesAtMostLength(s: string)
    ensures Pieces(s) <= |s|
  {
    if s == "" {
      Empty();
    } else {
      PiecesAtMostLength(s[..|s| - 1]);
      Snoc(s[..|s| - 1], s[|s| - 1]);
      assert s[..|s| - 1] + [s[|s| - 1]] == s;
    }
  }

  /** The estimate lies between a quarter of the length, rounded up, and the length. */
  lemma {:induction false} EstimateBounds(s: string)
    ensures (|s| + 3) / 4 <= Estimate(s) <= |s|
  {
    PiecesAtMostLength(s);
  }

  lemma {:induction false} PiecesOfConcat(s: string, t: string)
    ensures Pieces(s) <= Pieces(s + t) <= Pieces(s) + Pieces(t)
  {
    if t == "" {
      Empty();
      assert s + t == s;
    } else {
      var u, c := t[..|t| - 1], t[|t| - 1];
      PiecesOfConcat(s, u);
      Snoc(u, c);
      Snoc(s + u, c);
      assert u + [c] == t && (s + u) + [c] == s + t;
      if u == "" { assert s + u == s; } else { assert (s + u)[|s + u| - 1] == u[|u| - 1]; }
    }
  }

  /** Extending a text never lowers its estimate, and cutting a text in two never
      hides tokens. */
  lemma {:induction false} EstimateOfConcat(s: string, t: string)
    ensures Estimate(s) <= Estimate(s + t) <= Estimate(s) + Estimate(t)
  {
    PiecesOfConcat(s, t);
  }
}
