/**
 The text part of `tool_edit_file` (belya_harness.c): exact replacement, and the
 fallback that compares lines with their surrounding blanks stripped.
 */
module EditMatch {
  import opened Text
  import opened Files
  import opened Lines

  predicate IsPad(c: char) {
    c == ' ' || c == '\t' || c == '\r'
  }

  /** End of the line body at `p`: the newline or the end of the text. */
  function BodyEnd(s: string, p: nat): (e: nat)
    requires p <= |s|
    ensures p <= e <= |s|
    decreases |s| - p
  {
    if p == |s| || s[p] == '\n' then p else BodyEnd(s, p + 1)
  }

  function TrimLeft(t: string): string {
    if t != "" && IsPad(t[0]) then TrimLeft(t[1..]) else t
  }

  function TrimRight(t: string): string {
    if t != "" && IsPad(t[|t| - 1]) then TrimRight(t[..|t| - 1]) else t
  }

  /** The line at `p` without its newline and its outer blanks; "" at the end. */
  function TrimmedLine(s: string, p: nat): string
    requires p <= |s|
  {
    TrimRight(TrimLeft(s[p..BodyEnd(s, p)]))
  }

  /** The next `n` trimmed lines; lines past the end count as blank. */
  function TrimmedLines(s: string, p: nat, n: nat): (r: seq<string>)
    requires p <= |s|
    ensures |r| == n
    decreases n
  {
    if n == 0 then [] else [TrimmedLine(s, p)] + TrimmedLines(s, LineEnd(s, p), n - 1)
  }

  /** The lines of `old` from `o` equal, trimmed, those of the file from `f`. */
  ghost predicate RestMatches(file: string, f: nat, oldText: string, o: nat)
    requires f <= |file| && o <= |oldText|
  {
    var n := LineCount(oldText, o);
    TrimmedLines(file, f, n) == TrimmedLines(oldText, o, n)
  }

  ghost predicate Matches(file: string, f: nat, oldText: string)
    requires f <= |file|
  {
    RestMatches(file, f, oldText, 0)
  }

  /** End of the file's run of as many lines as `old` has. */
  function RunEnd(file: string, f: nat, oldText: string): nat
    requires f <= |file|
  {
    Skip(file, f, LineCount(oldText, 0))
  }

  /** First candidate at or behind `c` that matches; candidates are line starts. */
  ghost function Fallback(file: string, c: nat, oldText: string): (r: Option<nat>)
    requires c <= |file|
    ensures r.Some? ==> c <= r.value < |file| && Matches(file, r.value, oldText)
    decreases |file| - c
  {
    if c == |file| then None
    else if Matches(file, c, oldText) then Some(c)
    else Fallback(file, LineEnd(file, c), oldText)
  }

  predicate LineStart(s: string, i: nat) {
    i < |s| && (i == 0 || s[i - 1] == '\n')
  }

  lemma {:induction false} LineEndStarts(s: string, p: nat)
    requires p < |s|
    ensures LineEnd(s, p) < |s| ==> LineStart(s, LineEnd(s, p))
    ensures forall i :: p < i < LineEnd(s, p) ==> !LineStart(s, i)
    decreases |s| - p
  {
    if s[p] != '\n' && p + 1 < |s| {
      LineEndStarts(s, p + 1);
    }
  }

  /** The fallback finds the leftmost matching line start, if there is one. */
  lemma {:induction false} FallbackIsLeftmost(file: string, c: nat, oldText: string)
    requires c == |file| || LineStart(file, c)
    ensures var r := Fallback(file, c, oldText);
            && (r.Some? ==> LineStart(file, r.value))
            && forall i :: c <= i < (if r.Some? then r.value else |file|) && LineStart(file, i) ==>
                 !Matches(file, i, oldText)
    decreases |file| - c
  {
    if c < |file| && !Matches(file, c, oldText) {
      LineEndStarts(file, c);
      FallbackIsLeftmost(file, LineEnd(file, c), oldText);
    }
  }

  /** Start and length of the span to replace. */
  ghost function Locate(file: string, oldText: string): (r: Option<(nat, nat)>)
    ensures r.Some? ==> r.value.0 + r.value.1 <= |file|
  {
    match Find(file, oldText, 0)
    case Some(i) => Some((i, |oldText|))
    case None =>
      match Fallback(file, 0, oldText)
      case None => None
      case Some(c) => Some((c, RunEnd(file, c, oldText) - c))
  }

  datatype Outcome =
    | Edited(text: string)
    | NotFound
    | Ambiguous(firstLine: nat, secondLine: nat)
    | TooLarge
    | NotWritable
    | Reverted

  /** The number of the line that an offset lies in. */
  function LineOf(s: string, p: nat): nat
    requires p <= |s|
  {
    1 + Newlines(s[..p])
  }

  /** Replacing the span, unless the old text occurs once more behind it. */
  function EditAt(file: string, oldText: string, newText: string, pos: nat, len: nat): Outcome
    requires pos + len <= |file|
  {
    match Find(file, oldText, pos + len)
    case Some(second) => Ambiguous(LineOf(file, pos), LineOf(file, second))
    case None => Edited(file[..pos] + newText + file[pos + len..])
  }

  ghost function Edit(file: string, oldText: string, newText: string): Outcome {
    match Locate(file, oldText)
    case None => NotFound
    case Some((pos, len)) => EditAt(file, oldText, newText, pos, len)
  }

  // ---------- The code ----------

  /** The pointer walk that reads one stripped line; it runs over the old text and
      over the file alike. */
  method ReadStripped(s: string, p: nat) returns (line: string, next: nat)
    requires p <= |s|
    ensures line == TrimmedLine(s, p) && next == LineEnd(s, p)
  {
    var start := p;
    ghost var stop := BodyEnd(s, p);
    while start < |s| && IsPad(s[start])
      invariant p <= start <= stop && BodyEnd(s, start) == stop
      invariant TrimLeft(s[p..stop]) == TrimLeft(s[start..stop])
      invariant LineEnd(s, start) == LineEnd(s, p)
    {
      assert s[start..stop][1..] == s[start + 1..stop];
      start := start + 1;
    }
    var end := start;
    while end < |s| && s[end] != '\n'
      invariant start <= end <= stop && BodyEnd(s, end) == stop
      invariant LineEnd(s, end) == LineEnd(s, p)
    {
      end := end + 1;
    }
    next := if end < |s| && s[end] == '\n' then end + 1 else end;
    LeftTrimmed(s[start..stop]);
    line := StripEnd(s, start, end);
  }

  lemma LeftTrimmed(t: string)
    requires t == "" || !IsPad(t[0])
    ensures TrimLeft(t) == t
  {
  }

  /** The walk back over trailing blanks. */
  method StripEnd(s: string, start: nat, stop: nat) returns (line: string)
    requires start <= stop <= |s|
    ensures line == TrimRight(s[start..stop])
  {
    var end := stop;
    while end > start && IsPad(s[end - 1])
      invariant start <= end <= stop && TrimRight(s[start..stop]) == TrimRight(s[start..end])
    {
      SlicePrefix(s, start, end, end - 1 - start);
      end := end - 1;
    }
    line := s[start..end];
  }

  /** The walk to the next candidate. */
  method NextLine(s: string, p: nat) returns (next: nat)
    requires p < |s|
    ensures next == LineEnd(s, p)
  {
    next := p;
    while next < |s| && s[next] != '\n'
      invariant p <= next <= |s| && LineEnd(s, next) == LineEnd(s, p)
    {
      next := next + 1;
    }
    if next < |s| && s[next] == '\n' { next := next + 1; }
  }

  /** The nested scan: candidates by line, and for each the lines of the old text. */
  method FindFallback(file: string, oldText: string) returns (r: Option<(nat, nat)>)
    requires oldText != ""
    ensures r == match Fallback(file, 0, oldText)
                 case None => None
                 case Some(c) => Some((c, RunEnd(file, c, oldText) - c))
    ensures r.Some? ==> r.value.1 > 0
  {
    var c := 0;
    while c < |file|
      invariant 0 <= c <= |file| && Fallback(file, 0, oldText) == Fallback(file, c, oldText)
      decreases |file| - c
    {
      var full, end := MatchFrom(file, c, oldText);
      if full && end > c {
        return Some((c, end - c));
      }
      c := NextLine(file, c);
    }
    return None;
  }

  /** One line of the old text against one line of the file. */
  lemma RestStep(file: string, f: nat, oldText: string, o: nat)
    requires f <= |file| && o < |oldText|
    ensures RestMatches(file, f, oldText, o) <==>
            TrimmedLine(file, f) == TrimmedLine(oldText, o) &&
            RestMatches(file, LineEnd(file, f), oldText, LineEnd(oldText, o))
    ensures Skip(file, f, LineCount(oldText, o)) ==
            Skip(file, LineEnd(file, f), LineCount(oldText, LineEnd(oldText, o)))
  {
    var f', o' := LineEnd(file, f), LineEnd(oldText, o);
    var n := LineCount(oldText, o');
    assert LineCount(oldText, o) == n + 1;
    ConsEqual(TrimmedLine(file, f), TrimmedLines(file, f', n), TrimmedLine(oldText, o), TrimmedLines(oldText, o', n));
  }

  method MatchFrom(file: string, c: nat, oldText: string) returns (full: bool, end: nat)
    requires c < |file| && oldText != ""
    ensures full <==> Matches(file, c, oldText)
    ensures full ==> c < end && end == RunEnd(file, c, oldText)
  {
    var o, f := 0, c;
    while o < |oldText|
      invariant 0 <= o <= |oldText| && c <= f <= |file|
      invariant Matches(file, c, oldText) <==> RestMatches(file, f, oldText, o)
      invariant RunEnd(file, c, oldText) == Skip(file, f, LineCount(oldText, o))
      invariant o > 0 ==> f > c
      decreases |oldText| - o
    {
      var oldLine, oNext := ReadStripped(oldText, o);
      var fileLine, fNext := ReadStripped(file, f);
      RestStep(file, f, oldText, o);
      if oldLine != fileLine { return false, f; }
      o, f := oNext, fNext;
    }
    return true, f;
  }

  method LineNumber(s: string, to: nat) returns (n: nat)
    requires to <= |s|
    ensures n == LineOf(s, to)
  {
    n := 1;
    var p := 0;
    while p < to
      invariant 0 <= p <= to && n == LineOf(s, p)
    {
      assert s[..p + 1][..p] == s[..p];
      if s[p] == '\n' { n := n + 1; }
      p := p + 1;
    }
  }

  const MAX_FILE: nat := 500000

  /** The span to replace, by the exact and then by the line-wise search. */
  method LocateText(content: string, oldText: string) returns (r: Option<(nat, nat)>)
    ensures r == Locate(content, oldText)
  {
    var exact := Find(content, oldText, 0);
    if exact.Some? { return Some((exact.value, |oldText|)); }
    assert oldText != "" by { assert At(content, "", 0); }
    r := FindFallback(content, oldText);
  }

  /** The edit on the text alone. */
  method EditText(content: string, oldText: string, newText: string) returns (outcome: Outcome)
    ensures outcome == Edit(content, oldText, newText)
  {
    var found := LocateText(content, oldText);
    if found.None? { return NotFound; }
    var pos, len := found.value.0, found.value.1;
    var second := Find(content, oldText, pos + len);
    if second.Some? {
      var l1 := LineNumber(content, pos);
      var l2 := LineNumber(content, second.value);
      return Ambiguous(l1, l2);
    }
    return Edited(content[..pos] + newText + content[pos + len..]);
  }

  /** What the tool reports for this edit. `writable` is whether the file opens for
      writing, `compiles` the verdict of the syntax check, `verify` the caller's wish to
      revert on failure. */
  ghost function Reported(content: string, oldText: string, newText: string,
                          writable: bool, compiles: bool, verify: bool): Outcome
  {
    var spec := if |content| > MAX_FILE then TooLarge else Edit(content, oldText, newText);
    if !spec.Edited? then spec
    else if !writable then NotWritable
    else if !compiles && verify then Reverted else spec
  }

  /** `tool_edit_file`. A revert opens the file once more; when that fails (`reopens`),
      the edited text stays although a revert is reported. */
  method EditFile(f: TextFile, oldText: string, newText: string,
                  writable: bool, compiles: bool, verify: bool, reopens: bool)
    returns (outcome: Outcome)
    modifies f
    ensures outcome == Reported(old(f.content), oldText, newText, writable, compiles, verify)
    ensures outcome.TooLarge? <==> |old(f.content)| > 500000
    ensures outcome.Edited? ==> writable && (compiles || !verify)
    ensures outcome.Reverted? ==> writable && !compiles && verify
    ensures outcome.NotWritable? ==> !writable
    ensures f.content == if outcome.Edited? || (outcome.Reverted? && !reopens)
                         then Edit(old(f.content), oldText, newText).text else old(f.content)
  {
    var content := f.content;
    if |content| > MAX_FILE { return TooLarge; }
    outcome := EditText(content, oldText, newText);
    if !outcome.Edited? { return; }
    if !writable { return NotWritable; }
    f.content := outcome.text;
    if !compiles && verify {
      if reopens { f.content := content; }
      return Reverted;
    }
  }

  // ---------- What an edit does ----------

  ghost predicate FirstAt(hay: string, needle: string, from: nat, i: nat) {
    from <= i && At(hay, needle, i) && forall j :: from <= j < i ==> !At(hay, needle, j)
  }

  ghost predicate NoneFrom(hay: string, needle: string, from: nat) {
    forall j :: from <= j ==> !At(hay, needle, j)
  }

  lemma FindMeans(hay: string, needle: string, from: nat)
    requires from <= |hay|
    ensures match Find(hay, needle, from)
            case None => NoneFrom(hay, needle, from)
            case Some(i) => FirstAt(hay, needle, from, i) && !NoneFrom(hay, needle, from)
  {
  }

  /** Where the old text occurs, its leftmost occurrence is replaced, and the edit goes
      through exactly when no occurrence starts at or behind its end; else it reports the
      lines of that occurrence and of the next. */
  lemma {:induction false} ExactEdit(file: string, oldText: string, newText: string) returns (pos: nat, second: nat)
    requires Contains(file, oldText)
    ensures FirstAt(file, oldText, 0, pos)
    ensures NoneFrom(file, oldText, pos + |oldText|) ==>
              Edit(file, oldText, newText) == Edited(file[..pos] + newText + file[pos + |oldText|..])
    ensures !NoneFrom(file, oldText, pos + |oldText|) ==>
              FirstAt(file, oldText, pos + |oldText|, second) && second <= |file| &&
              Edit(file, oldText, newText) == Ambiguous(LineOf(file, pos), LineOf(file, second))
  {
    FindMeans(file, oldText, 0);
    pos, second := Find(file, oldText, 0).value, 0;
    assert Edit(file, oldText, newText) == EditAt(file, oldText, newText, pos, |oldText|);
    FindMeans(file, oldText, pos + |oldText|);
    var next := Find(file, oldText, pos + |oldText|);
    if next.Some? { second := next.value; }
  }

  /** Lines are counted by the newlines before. */
  lemma LineOfIs(s: string, p: nat)
    requires p <= |s|
    ensures LineOf(s, p) == 1 + |NewlineSet(s[..p])|
  {
    NewlinesAre(s[..p]);
  }

  // ---------- Lines that match ----------

  /** A line of `s` begins at `p`: its text without the newline, and where the next begins. */
  ghost predicate IsLine(s: string, p: nat, body: string, next: nat) {
    && p < next <= |s| && '\n' !in body
    && (s[p..next] == body + "\n" || (next == |s| && s[p..next] == body))
  }

  /** The same, with blank lines behind the end. */
  ghost predicate IsLineOrEnd(s: string, p: nat, body: string, next: nat) {
    IsLine(s, p, body, next) || (p == next == |s| && body == "")
  }

  ghost predicate Blank(s: string) {
    forall c :: c in s ==> c == ' ' || c == '\t' || c == '\r'
  }

  /** `t` is `s` without the blanks at both ends. */
  ghost predicate TrimsTo(s: string, t: string) {
    && (t != "" ==> !Blank(t[..1]) && !Blank(t[|t| - 1..]))
    && exists left, right :: Blank(left) && Blank(right) && s == left + t + right
  }

  /** The two lines differ at most in blanks at their ends. */
  ghost predicate SameLine(a: string, b: string) {
    exists t :: TrimsTo(a, t) && TrimsTo(b, t)
  }

  /** From `f` up to `end` the file has, line by line, what the old text has from `o` on. */
  ghost predicate SameRun(file: string, f: nat, oldText: string, o: nat, end: nat)
    decreases |oldText| - o
  {
    if o >= |oldText| then end == f
    else exists a, b, f', o' ::
      && IsLineOrEnd(file, f, a, f') && IsLine(oldText, o, b, o') && SameLine(a, b)
      && SameRun(file, f', oldText, o', end)
  }

  /** Such a run begins at `f`. */
  ghost predicate RunAt(file: string, f: nat, oldText: string) {
    exists end: nat :: SameRun(file, f, oldText, 0, end)
  }

  lemma {:induction false} LineIs(s: string, p: nat)
    requires p < |s|
    ensures IsLine(s, p, s[p..BodyEnd(s, p)], LineEnd(s, p))
    decreases |s| - p
  {
    if s[p] == '\n' {
      assert s[p..p + 1] == "" + "\n";
    } else if p + 1 == |s| {
      assert s[p..|s|] == [s[p]];
    } else {
      LineIs(s, p + 1);
      var e, n := BodyEnd(s, p + 1), LineEnd(s, p + 1);
      assert s[p..e] == [s[p]] + s[p + 1..e] && s[p..n] == [s[p]] + s[p + 1..n];
      assert [s[p]] + (s[p + 1..e] + "\n") == [s[p]] + s[p + 1..e] + "\n";
    }
  }

  lemma {:induction false} LineIsUnique(s: string, p: nat, body: string, next: nat)
    requires IsLine(s, p, body, next)
    ensures body == s[p..BodyEnd(s, p)] && next == LineEnd(s, p)
    decreases |s| - p
  {
    assert s[p..next][0] == s[p];
    assert body != "" ==> body[0] == s[p] && body[0] in body;
    if s[p] != '\n' {
      if p + 1 < |s| && p + 1 < next {
        assert s[p + 1..next] == s[p..next][1..];
        assert body[1..] + "\n" == (body + "\n")[1..];
        LineIsUnique(s, p + 1, body[1..], next);
        assert body == [s[p]] + body[1..];
      }
    }
  }

  lemma {:induction false} LeftTrim(s: string) returns (left: string)
    ensures Blank(left) && s == left + TrimLeft(s)
    ensures TrimLeft(s) != "" ==> !IsPad(TrimLeft(s)[0])
  {
    left := "";
    if s != "" && IsPad(s[0]) {
      var more := LeftTrim(s[1..]);
      left := [s[0]] + more;
      assert s == [s[0]] + s[1..] && [s[0]] + (more + TrimLeft(s)) == left + TrimLeft(s);
    }
  }

  lemma {:induction false} RightTrim(s: string) returns (right: string)
    ensures Blank(right) && s == TrimRight(s) + right
    ensures TrimRight(s) != "" ==> !IsPad(TrimRight(s)[|TrimRight(s)| - 1])
  {
    right := "";
    if s != "" && IsPad(s[|s| - 1]) {
      var more := RightTrim(s[..|s| - 1]);
      right := more + [s[|s| - 1]];
      assert s == s[..|s| - 1] + [s[|s| - 1]];
      assert (TrimRight(s) + more) + [s[|s| - 1]] == TrimRight(s) + right;
    }
  }

  lemma {:induction false} TrimTrims(s: string)
    ensures TrimsTo(s, TrimRight(TrimLeft(s)))
  {
    var u, t := TrimLeft(s), TrimRight(TrimLeft(s));
    var left := LeftTrim(s);
    var right := RightTrim(u);
    assert s == left + t + right;
    if t != "" {
      assert u[0] == t[0];
      assert t[..1][0] == t[0] && t[..1][0] in t[..1];
      assert t[|t| - 1..][0] == t[|t| - 1] && t[|t| - 1..][0] in t[|t| - 1..];
    }
  }

  /** Both ends of a trimmed text are where the blanks stop, so there is only one. */
  lemma TrimIsUnique(s: string, t: string, u: string)
    requires TrimsTo(s, t) && TrimsTo(s, u)
    ensures t == u
  {
    var l, r :| Blank(l) && Blank(r) && s == l + t + r;
    var k, q :| Blank(k) && Blank(q) && s == k + u + q;
    InsideBlanks(s, l, t, r, k, u, q);
    InsideBlanks(s, k, u, q, l, t, r);
    if t != "" {
      assert s[|l|..|l| + |t|] == t && s[|k|..|k| + |u|] == u;
    }
  }

  lemma OutsideIsBlank(k: string, u: string, q: string, i: nat)
    requires Blank(k) && Blank(q) && i < |k + u + q|
    ensures i < |k| || i >= |k| + |u| ==> Blank([(k + u + q)[i]])
  {
    assert i < |k| ==> (k + u + q)[i] in k;
    assert i >= |k| + |u| ==> (k + u + q)[i] in q;
  }

  lemma InsideBlanks(s: string, l: string, t: string, r: string, k: string, u: string, q: string)
    requires s == l + t + r && Blank(k) && Blank(q) && s == k + u + q
    requires t != "" ==> !Blank(t[..1]) && !Blank(t[|t| - 1..])
    ensures t != "" ==> u != "" && |k| <= |l| && |l| + |t| <= |k| + |u|
  {
    if t != "" {
      var i, j := |l|, |l| + |t| - 1;
      assert t[..1] == [s[i]] && t[|t| - 1..] == [s[j]];
      OutsideIsBlank(k, u, q, i);
      OutsideIsBlank(k, u, q, j);
    }
  }

  /** What is compared of a line: its text without the blanks at both ends. */
  lemma {:induction false} TrimmedLineIs(s: string, p: nat, body: string, next: nat, t: string)
    requires IsLineOrEnd(s, p, body, next)
    ensures LineEnd(s, p) == next && (TrimmedLine(s, p) == t <==> TrimsTo(body, t))
  {
    if p < |s| { LineIsUnique(s, p, body, next); } else { assert s[p..BodyEnd(s, p)] == ""; }
    TrimTrims(body);
    if TrimsTo(body, t) { TrimIsUnique(body, t, TrimmedLine(s, p)); }
  }

  lemma {:induction false} SameLineIs(
    file: string, f: nat, a: string, f': nat, oldText: string, o: nat, b: string, o': nat)
    requires IsLineOrEnd(file, f, a, f') && IsLine(oldText, o, b, o')
    ensures SameLine(a, b) <==> TrimmedLine(file, f) == TrimmedLine(oldText, o)
  {
    var t := TrimmedLine(file, f);
    TrimmedLineIs(file, f, a, f', t);
    TrimmedLineIs(oldText, o, b, o', t);
    if u :| TrimsTo(a, u) && TrimsTo(b, u) {
      TrimmedLineIs(file, f, a, f', u);
      TrimmedLineIs(oldText, o, b, o', u);
    }
  }

  /** The comparison of trimmed lines finds just such runs. */
  lemma {:induction false} SameRunIs(file: string, f: nat, oldText: string, o: nat, end: nat)
    requires f <= |file| && o <= |oldText|
    ensures SameRun(file, f, oldText, o, end) <==>
            RestMatches(file, f, oldText, o) && end == Skip(file, f, LineCount(oldText, o))
    decreases |oldText| - o
  {
    if o < |oldText| {
      var f', o' := LineEnd(file, f), LineEnd(oldText, o);
      var a, b := file[f..BodyEnd(file, f)], oldText[o..BodyEnd(oldText, o)];
      LineIs(oldText, o);
      if f < |file| { LineIs(file, f); }
      assert IsLineOrEnd(file, f, a, f') && IsLine(oldText, o, b, o');
      SameLineIs(file, f, a, f', oldText, o, b, o');
      RestStep(file, f, oldText, o);
      SameRunIs(file, f', oldText, o', end);
      if SameRun(file, f, oldText, o, end) { SameRunDown(file, f, oldText, o, end); }
      if SameLine(a, b) && SameRun(file, f', oldText, o', end) {
        SameRunUp(file, f, a, f', oldText, o, b, o', end);
      }
    }
  }

  lemma SameRunUp(file: string, f: nat, a: string, f': nat, oldText: string, o: nat, b: string, o': nat, end: nat)
    requires IsLineOrEnd(file, f, a, f') && IsLine(oldText, o, b, o') && SameLine(a, b)
    requires SameRun(file, f', oldText, o', end)
    ensures SameRun(file, f, oldText, o, end)
  {
  }

  lemma SameRunDown(file: string, f: nat, oldText: string, o: nat, end: nat)
    requires f <= |file| && o < |oldText| && SameRun(file, f, oldText, o, end)
    ensures SameLine(file[f..BodyEnd(file, f)], oldText[o..BodyEnd(oldText, o)])
    ensures SameRun(file, LineEnd(file, f), oldText, LineEnd(oldText, o), end)
  {
    var a, b, f', o' :|
      IsLineOrEnd(file, f, a, f') && IsLine(oldText, o, b, o') && SameLine(a, b)
      && SameRun(file, f', oldText, o', end);
    LineIsUnique(oldText, o, b, o');
    if f < |file| { LineIsUnique(file, f, a, f'); }
  }

  lemma {:induction false} RunAtIs(file: string, i: nat, oldText: string)
    requires i <= |file|
    ensures RunAt(file, i, oldText) <==> Matches(file, i, oldText)
  {
    SameRunIs(file, i, oldText, 0, RunEnd(file, i, oldText));
    if end: nat :| SameRun(file, i, oldText, 0, end) { SameRunIs(file, i, oldText, 0, end); }
  }

  lemma RunIsLong(file: string, pos: nat, oldText: string)
    requires pos < |file| && oldText != ""
    ensures pos < RunEnd(file, pos, oldText)
  {
    assert LineCount(oldText, 0) > 0;
    assert LineEnd(file, pos) <= RunEnd(file, pos, oldText);
  }

  lemma LooseResult(file: string, oldText: string, newText: string)
    requires !Contains(file, oldText)
    ensures Edit(file, oldText, newText) ==
            match Fallback(file, 0, oldText)
            case None => NotFound
            case Some(c) => Edited(file[..c] + newText + file[RunEnd(file, c, oldText)..])
  {
  }

  lemma {:induction false} FirstRun(file: string, oldText: string)
    ensures match Fallback(file, 0, oldText)
            case None => forall i: nat :: LineStart(file, i) ==> !RunAt(file, i, oldText)
            case Some(c) =>
              && LineStart(file, c) && SameRun(file, c, oldText, 0, RunEnd(file, c, oldText))
              && forall i: nat :: i < c && LineStart(file, i) ==> !RunAt(file, i, oldText)
  {
    FallbackIsLeftmost(file, 0, oldText);
    forall i: nat | i < |file| ensures RunAt(file, i, oldText) <==> Matches(file, i, oldText) {
      RunAtIs(file, i, oldText);
    }
    var r := Fallback(file, 0, oldText);
    if r.Some? { SameRunIs(file, r.value, oldText, 0, RunEnd(file, r.value, oldText)); }
  }

  /** Where it does not, the span replaced is the leftmost run of whole lines that differ
      from those of the old text at most in blanks at their ends; it is never empty, and
      never reported ambiguous. */
  lemma {:induction false} LooseEdit(file: string, oldText: string, newText: string) returns (pos: nat, end: nat)
    requires !Contains(file, oldText)
    ensures Edit(file, oldText, newText) == NotFound <==>
            forall i: nat :: LineStart(file, i) ==> !RunAt(file, i, oldText)
    ensures Edit(file, oldText, newText) != NotFound ==>
              LineStart(file, pos) && SameRun(file, pos, oldText, 0, end) && pos < end <= |file|
    ensures Edit(file, oldText, newText) != NotFound ==>
              forall i: nat :: i < pos && LineStart(file, i) ==> !RunAt(file, i, oldText)
    ensures Edit(file, oldText, newText) != NotFound ==>
              Edit(file, oldText, newText) == Edited(file[..pos] + newText + file[end..])
  {
    assert oldText != "" by { assert At(file, "", 0); }
    LooseResult(file, oldText, newText);
    FirstRun(file, oldText);
    pos, end := 0, 0;
    var r := Fallback(file, 0, oldText);
    if r.Some? {
      pos, end := r.value, RunEnd(file, r.value, oldText);
      assert RunAt(file, pos, oldText);
      RunIsLong(file, pos, oldText);
    }
  }

  lemma TwoRunsMatch()
    ensures var file, oldText := "a\na\n", "\ta";
            && Matches(file, 0, oldText) && RunEnd(file, 0, oldText) == 2
            && LineStart(file, 2) && Matches(file, 2, oldText) && RunEnd(file, 2, oldText) == 4
  {
    var file, oldText := "a\na\n", "\ta";
    assert BodyEnd(oldText, 0) == 2 && BodyEnd(file, 0) == 1 && BodyEnd(file, 2) == 3;
    assert oldText[..2] == "\ta" && file[0..1] == "a" && file[2..3] == "a";
    assert TrimLeft("\ta") == "a" by { assert "\ta"[1..] == "a"; }
    assert LineEnd(oldText, 0) == 2 && LineCount(oldText, 0) == 1;
    RestStep(file, 0, oldText, 0);
    RestStep(file, 2, oldText, 0);
    assert LineEnd(file, 0) == 2;
  }

  lemma {:induction false} LooseAtStart(file: string, oldText: string, newText: string, end: nat)
    requires !Contains(file, oldText) && file != "" && Matches(file, 0, oldText) && end == RunEnd(file, 0, oldText)
    ensures Edit(file, oldText, newText) == Edited(newText + file[end..])
  {
    LooseResult(file, oldText, newText);
    assert Fallback(file, 0, oldText) == Some(0);
    assert file[..0] + newText + file[end..] == newText + file[end..];
  }

  /** It is replaced although a second run of lines matches as well. */
  lemma {:induction false} LooseEditTakesFirst(newText: string)
    ensures var file, oldText := "a\na\n", "\ta";
            && !Contains(file, oldText) && SameRun(file, 0, oldText, 0, 2)
            && LineStart(file, 2) && SameRun(file, 2, oldText, 0, 4)
            && Edit(file, oldText, newText) == Edited(newText + "a\n")
  {
    var file, oldText := "a\na\n", "\ta";
    FirstCharAbsent(file, oldText);
    TwoRunsMatch();
    SameRunIs(file, 0, oldText, 0, 2);
    SameRunIs(file, 2, oldText, 0, 4);
    LooseAtStart(file, oldText, newText, 2);
    assert file[2..] == "a\n";
  }

  /** An empty old text is always refused as ambiguous. */
  lemma EmptyOldText(file: string, newText: string)
    ensures Edit(file, "", newText) == Ambiguous(1, 1)
  {
    assert At(file, "", 0);
    assert file[..0] == "";
  }
}
