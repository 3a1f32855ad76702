/**
 The brace scanner of common.h on any text, grammatical or not: quoted strings are passed
 over, and the braces outside them are counted.
 */
module Braces {
  import opened JsonText
  import opened Text

  /** A quoted string, a brace outside strings, or another character there. */
  datatype Piece = Opening | Closing | Quotation(inside: string) | Other(c: char)

  /** What may stand between quotation marks: a backslash takes the next character with it. */
  predicate Inside(s: string) {
    if s == "" then true
    else if s[0] == '\\' then |s| >= 2 && Inside(s[2..])
    else s[0] != '\"' && Inside(s[1..])
  }

  /** The beginning of such a text, which may break off behind a backslash. */
  predicate BrokenOff(s: string) {
    if s == "" then true
    else if s[0] == '\\' then |s| == 1 || BrokenOff(s[2..])
    else s[0] != '\"' && BrokenOff(s[1..])
  }

  predicate IsPiece(p: Piece) {
    match p
    case Quotation(inside) => Inside(inside)
    case Other(c) => c != '\"' && c != '{' && c != '}'
    case _ => true
  }

  predicate ArePieces(ps: seq<Piece>) {
    forall i :: 0 <= i < |ps| ==> IsPiece(ps[i])
  }

  function Show(p: Piece): string {
    match p
    case Opening => "{"
    case Closing => "}"
    case Quotation(inside) => "\"" + (inside + "\"")
    case Other(c) => [c]
  }

  function ShowAll(ps: seq<Piece>): string
    decreases |ps|
  {
    if ps == [] then "" else Show(ps[0]) + ShowAll(ps[1..])
  }

  function DepthBehind(depth: int, p: Piece): int {
    if p.Opening? then depth + 1 else if p.Closing? then depth - 1 else depth
  }

  /** From this depth on the braces come back to 0 with the last piece, and not before. */
  predicate Balances(ps: seq<Piece>, depth: int)
    decreases |ps|
  {
    if ps == [] then false
    else if DepthBehind(depth, ps[0]) == 0 then |ps| == 1
    else Balances(ps[1..], DepthBehind(depth, ps[0]))
  }

  /** They never do. */
  predicate StaysOpen(ps: seq<Piece>, depth: int)
    decreases |ps|
  {
    ps == [] || (DepthBehind(depth, ps[0]) > 0 && StaysOpen(ps[1..], DepthBehind(depth, ps[0])))
  }

  /** The end of a text in which no piece ends: nothing, or an unclosed string. */
  predicate IsTail(tail: string) {
    tail == "" || (tail[0] == '\"' && BrokenOff(tail[1..]))
  }

  // ---------- The scanner on pieces ----------

  lemma {:induction false} RunBrokenOff(s: string, depth: int)
    requires BrokenOff(s)
    ensures Run(Scan(depth, true, false), s).Some?
    ensures Inside(s) ==> Run(Scan(depth, true, false), s) == Some(Scan(depth, true, false))
    decreases |s|
  {
    if s != "" {
      var st := Scan(depth, true, false);
      if s[0] != '\\' {
        RunBrokenOff(s[1..], depth);
      } else if |s| == 1 {
        assert Run(Step(st, s[0]), s[1..]) == Some(Step(st, s[0]));
      } else {
        RunBrokenOff(s[2..], depth);
        assert Step(Step(st, s[0]), s[1]) == st && s[1..][1..] == s[2..];
        assert Run(Step(st, s[0]), s[1..]) == Run(st, s[2..]);
      }
    }
  }

  lemma {:induction false} InsideIsBrokenOff(s: string)
    requires Inside(s)
    ensures BrokenOff(s)
  {
    if s != "" { InsideIsBrokenOff(s[if s[0] == '\\' then 2 else 1..]); }
  }

  lemma RunChar(st: Scan, c: char)
    requires !Closes(st, c)
    ensures Run(st, [c]) == Some(Step(st, c))
  {
    assert [c][1..] == "" && Run(Step(st, c), "") == Some(Step(st, c));
  }

  lemma {:induction false} RunPiece(p: Piece, depth: int)
    requires IsPiece(p) && DepthBehind(depth, p) != 0
    ensures Run(Outside(depth), Show(p)) == Some(Outside(DepthBehind(depth, p)))
  {
    match p
    case Opening => RunChar(Outside(depth), '{');
    case Closing => RunChar(Outside(depth), '}');
    case Other(c) => RunChar(Outside(depth), c);
    case Quotation(inside) =>
      var st := Scan(depth, true, false);
      InsideIsBrokenOff(inside);
      RunBrokenOff(inside, depth);
      RunChar(Outside(depth), '\"');
      RunChar(st, '\"');
      RunThen(st, inside, st, "\"", Outside(depth));
      RunThen(Outside(depth), "\"", st, inside + "\"", Outside(depth));
  }

  /** One piece further. */
  lemma {:induction false} CloseAtPiece(pre: string, ps: seq<Piece>, tail: string, depth: int)
    requires ps != [] && IsPiece(ps[0]) && DepthBehind(depth, ps[0]) != 0
    ensures var text, behind := pre + ShowAll(ps) + tail, pre + Show(ps[0]);
            && text == behind + ShowAll(ps[1..]) + tail
            && CloseAt(text, |pre|, Outside(depth)) ==
               CloseAt(text, |behind|, Outside(DepthBehind(depth, ps[0])))
  {
    RunPiece(ps[0], depth);
    CloseAtSkips(pre, Show(ps[0]), ShowAll(ps[1..]) + tail, Outside(depth));
    Regroup(pre, Show(ps[0]), ShowAll(ps[1..]), tail);
  }

  lemma Regroup(a: string, b: string, c: string, d: string)
    ensures a + (b + c) + d == a + b + (c + d) == (a + b) + c + d
  {
  }

  lemma {:induction false} BalancedCloses(pre: string, ps: seq<Piece>, tail: string, depth: int)
    requires ArePieces(ps) && Balances(ps, depth) && depth >= 0 && (depth == 0 ==> ps[0].Opening?)
    ensures ShowAll(ps) != ""
    ensures CloseAt(pre + ShowAll(ps) + tail, |pre|, Outside(depth)) == Some(|pre| + |ShowAll(ps)| - 1)
    decreases |ps|
  {
    if DepthBehind(depth, ps[0]) == 0 {
      assert ps[1..] == [] && ShowAll(ps) == "}" + "";
      assert (pre + ShowAll(ps) + tail)[|pre|] == '}';
    } else {
      CloseAtPiece(pre, ps, tail, depth);
      BalancedCloses(pre + Show(ps[0]), ps[1..], tail, DepthBehind(depth, ps[0]));
    }
  }

  lemma {:induction false} OpenNeverCloses(pre: string, ps: seq<Piece>, tail: string, depth: int)
    requires ArePieces(ps) && StaysOpen(ps, depth) && IsTail(tail)
    ensures CloseAt(pre + ShowAll(ps) + tail, |pre|, Outside(depth)) == None
    decreases |ps|
  {
    if ps == [] {
      assert pre + ShowAll(ps) + tail == pre + tail + "";
      RunTail(tail, depth);
      CloseAtSkips(pre, tail, "", Outside(depth));
    } else {
      CloseAtPiece(pre, ps, tail, depth);
      OpenNeverCloses(pre + Show(ps[0]), ps[1..], tail, DepthBehind(depth, ps[0]));
    }
  }

  lemma {:induction false} RunTail(tail: string, depth: int)
    requires IsTail(tail)
    ensures Run(Outside(depth), tail).Some?
  {
    if tail != "" { RunBrokenOff(tail[1..], depth); }
  }

  // ---------- What is cut out ----------

  lemma FirstIn(pre: string, s: string, tail: string)
    requires '{' !in pre && s != "" && s[0] == '{'
    ensures var text := pre + s + tail;
            Find(text, "{", 0) == Some(|pre|) && text[|pre|..|pre| + |s|] == s
  {
    FirstBrace(pre, s + tail);
    assert pre + (s + tail) == pre + s + tail;
  }

  lemma ExtractScans(text: string, start: nat, s: string)
    requires Find(text, "{", 0) == Some(start)
    requires s != "" && start + |s| <= |text| && text[start..start + |s|] == s
    ensures CloseAt(text, start, Outside(0)) == None ==> Extract(text) == None
    ensures CloseAt(text, start, Outside(0)) == Some(start + |s| - 1) ==> Extract(text) == Some((s, start + |s|))
  {
  }

  lemma {:induction false} ExtractClosed(pre: string, ps: seq<Piece>, tail: string)
    requires '{' !in pre && ArePieces(ps) && Balances(ps, 0) && ps[0].Opening?
    ensures Extract(pre + ShowAll(ps) + tail) == Some((ShowAll(ps), |pre| + |ShowAll(ps)|))
  {
    var s := ShowAll(ps);
    assert s == "{" + ShowAll(ps[1..]);
    BalancedCloses(pre, ps, tail, 0);
    FirstIn(pre, s, tail);
    ExtractScans(pre + s + tail, |pre|, s);
  }

  lemma {:induction false} ExtractOpen(pre: string, ps: seq<Piece>, tail: string)
    requires '{' !in pre && ArePieces(ps) && StaysOpen(ps, 0) && IsTail(tail) && ps != [] && ps[0].Opening?
    ensures Extract(pre + ShowAll(ps) + tail) == None
  {
    var s := ShowAll(ps);
    assert s == "{" + ShowAll(ps[1..]);
    OpenNeverCloses(pre, ps, tail, 0);
    FirstIn(pre, s, tail);
    ExtractScans(pre + s + tail, |pre|, s);
  }

  /** What is cut out of a text begins at its first brace and ends where the braces outside
      strings come back to 0; when they never do, nothing is. */
  lemma {:induction false} ExtractBalanced(pre: string, ps: seq<Piece>, tail: string)
    requires '{' !in pre && ArePieces(ps) && ps != [] && ps[0].Opening?
    ensures Balances(ps, 0) ==>
              Extract(pre + ShowAll(ps) + tail) == Some((ShowAll(ps), |pre| + |ShowAll(ps)|))
    ensures StaysOpen(ps, 0) && IsTail(tail) ==> Extract(pre + ShowAll(ps) + tail) == None
  {
    if Balances(ps, 0) { ExtractClosed(pre, ps, tail); }
    if StaysOpen(ps, 0) && IsTail(tail) { ExtractOpen(pre, ps, tail); }
  }

  lemma Prepended(p: Piece, ps: seq<Piece>, depth: int)
    requires IsPiece(p) && ArePieces(ps)
    ensures ArePieces([p] + ps) && ShowAll([p] + ps) == Show(p) + ShowAll(ps)
    ensures var behind := DepthBehind(depth, p);
            && (Balances([p] + ps, depth) <==> if behind == 0 then ps == [] else Balances(ps, behind))
            && (StaysOpen([p] + ps, depth) <==> behind > 0 && StaysOpen(ps, behind))
  {
    assert ([p] + ps)[0] == p && ([p] + ps)[1..] == ps;
  }

  /** Every text that has a brace is of one of the two kinds. */
  lemma {:induction false} EveryTextIsPieces(text: string) returns (pre: string, ps: seq<Piece>, tail: string)
    requires '{' in text
    ensures text == pre + ShowAll(ps) + tail && '{' !in pre && ArePieces(ps) && ps != [] && ps[0].Opening?
    ensures Balances(ps, 0) || (StaysOpen(ps, 0) && IsTail(tail))
  {
    var i := FirstOf(text);
    pre := text[..i];
    var more;
    more, tail := PiecesOf(text[i + 1..], 1);
    Prepended(Opening, more, 0);
    ps := [Opening] + more;
    SplitBrace(text, i);
    Regroup(pre, "{", ShowAll(more), tail);
  }

  lemma SplitBrace(text: string, i: nat)
    requires i < |text| && text[i] == '{'
    ensures text == text[..i] + "{" + text[i + 1..]
  {
  }

  lemma FirstOf(text: string) returns (i: nat)
    requires '{' in text
    ensures i < |text| && text[i] == '{' && '{' !in text[..i]
  {
    i := 0;
    while text[i] != '{'
      invariant i < |text| && '{' !in text[..i] && '{' in text[i..]
      decreases |text| - i
    {
      assert text[i..] == [text[i]] + text[i + 1..];
      assert text[..i + 1] == text[..i] + [text[i]];
      i := i + 1;
    }
  }

  lemma {:induction false} PiecesOf(s: string, depth: nat) returns (ps: seq<Piece>, tail: string)
    requires depth > 0
    ensures s == ShowAll(ps) + tail && ArePieces(ps)
    ensures Balances(ps, depth) || (StaysOpen(ps, depth) && IsTail(tail))
    decreases |s|, 0
  {
    ps, tail := [], s;
    if s != "" {
      var p, rest, cut := FirstPiece(s);
      if !cut {
        ps, tail := PiecesBehind(p, rest, depth);
      }
    }
  }

  lemma {:induction false} PiecesBehind(p: Piece, rest: string, depth: nat) returns (ps: seq<Piece>, tail: string)
    requires depth > 0 && IsPiece(p)
    ensures Show(p) + rest == ShowAll(ps) + tail && ArePieces(ps)
    ensures Balances(ps, depth) || (StaysOpen(ps, depth) && IsTail(tail))
    decreases |rest|, 1
  {
    var more := [];
    tail := rest;
    if DepthBehind(depth, p) != 0 { more, tail := PiecesOf(rest, DepthBehind(depth, p)); }
    Prepended(p, more, depth);
    Regroup("", Show(p), ShowAll(more), tail);
    ps := [p] + more;
  }

  /** The piece at the head of a text, unless that is an unclosed string. */
  lemma {:induction false} FirstPiece(s: string) returns (p: Piece, rest: string, cut: bool)
    requires s != ""
    ensures if cut then IsTail(s) else IsPiece(p) && s == Show(p) + rest && |rest| < |s|
  {
    rest, cut := s[1..], false;
    if s[0] == '{' {
      p := Opening;
    } else if s[0] == '}' {
      p := Closing;
    } else if s[0] != '\"' {
      p := Other(s[0]);
    } else {
      var inside;
      inside, rest, cut := StringAt(s[1..]);
      p := Quotation(inside);
      assert !cut ==> s == ['\"'] + (inside + "\"" + rest);
    }
  }

  lemma {:induction false} StringAt(s: string) returns (inside: string, rest: string, cut: bool)
    ensures if cut then BrokenOff(s) else Inside(inside) && s == inside + "\"" + rest
    decreases |s|
  {
    inside, rest, cut := "", s, true;
    if s != "" && s[0] == '\"' {
      rest, cut := s[1..], false;
    } else if s != "" {
      var n := if s[0] == '\\' then 2 else 1;
      if n <= |s| {
        inside, rest, cut := StringAt(s[n..]);
        if !cut { InsideLonger(s[..n], inside); }
        assert !cut ==> s == (s[..n] + inside) + "\"" + rest;
        inside := s[..n] + inside;
      }
    }
  }

  lemma InsideLonger(head: string, s: string)
    requires Inside(s) && head != "" && head[0] != '\"' && |head| == if head[0] == '\\' then 2 else 1
    ensures Inside(head + s)
  {
    assert (head + s)[|head|..] == s;
  }
}
