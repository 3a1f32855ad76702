/**
 Search/replace patches: the block parser and applier of `tool_apply_patch`
 (belya_harness.c).
 */
module Patch {
  import opened Text
  import opened Files

  /** The three block markers. Proofs use only that none is empty or overlaps itself. */
  datatype Marks = Marks(search: string, divider: string, replace: string)

  const BELYA_MARKS: Marks := Marks("<<<<<<< SEARCH\n", "=======\n", ">>>>>>> REPLACE")

  ghost predicate Sound(m: Marks) {
    m.search != "" && m.divider != "" && m.replace != "" &&
    Unbordered(m.search) && Unbordered(m.divider) && Unbordered(m.replace)
  }

  lemma BelyaMarksAreSound()
    ensures Sound(BELYA_MARKS)
  {
    UnborderedBy(BELYA_MARKS.search, 7);
    UnborderedBy(BELYA_MARKS.divider, 7);
    UnborderedBy(BELYA_MARKS.replace, 7);
  }

  datatype Hunk = Hunk(search: string, replace: string)

  // ---------- Parsing ----------

  /** One step of the parser: a block and the text behind it, or why there is none. */
  datatype Block = Block(hunk: Hunk, rest: string) | NoBlock | NoDivider | NoReplace

  function NextBlock(text: string, m: Marks): (b: Block)
    ensures b.Block? ==> |b.rest| + |m.search| <= |text|
  {
    var start := SplitAt(text, m.search);
    if start.None? then NoBlock
    else
      var div := SplitAt(start.value.1, m.divider);
      if div.None? then NoDivider
      else
        var end := SplitAt(div.value.1, m.replace);
        if end.None? then NoReplace
        else Block(Hunk(div.value.0, end.value.0), end.value.1)
  }

  /** All blocks of a text, and how the search for them ended. */
  function ParseAll(text: string, m: Marks): (seq<Hunk>, Block)
    requires m.search != ""
    decreases |text|
  {
    match NextBlock(text, m)
    case Block(hunk, rest) =>
      var (hunks, end) := ParseAll(rest, m);
      ([hunk] + hunks, end)
    case end => ([], end)
  }

  // ---------- Applying ----------

  datatype Outcome =
    | Patched(doc: string)
    | Mismatch(search: string)
    | MissingDivider
    | MissingReplace
    | Unsupported
    | TooLarge
    | NotWritable

  /** Replaces the first occurrence of the search text. */
  function ReplaceFirst(doc: string, h: Hunk): Option<string> {
    match SplitAt(doc, h.search)
    case None => None
    case Some((before, after)) => Some(before + h.replace + after)
  }

  /** Left fold of `ReplaceFirst`, stopping at the first hunk that does not apply. */
  function ApplyHunks(doc: string, hunks: seq<Hunk>): (r: Outcome)
    ensures r.Patched? || r.Mismatch?
    decreases |hunks|
  {
    if hunks == [] then Patched(doc)
    else
      match ReplaceFirst(doc, hunks[0])
      case None => Mismatch(hunks[0].search)
      case Some(next) => ApplyHunks(next, hunks[1..])
  }

  /** The result over a parsed patch: a mismatch is reported before any later
      malformed block. */
  function ApplyAll(doc: string, parsed: (seq<Hunk>, Block)): Outcome {
    var (hunks, end) := parsed;
    var applied := ApplyHunks(doc, hunks);
    if !applied.Patched? then applied
    else if end.NoDivider? then MissingDivider
    else if end.NoReplace? then MissingReplace
    else applied
  }

  function PatchText(doc: string, patch: string, m: Marks): Outcome
    requires m.search != ""
  {
    if Find(patch, m.search, 0).None? || Find(patch, m.divider, 0).None? then Unsupported
    else
      ApplyAll(doc, ParseAll(patch, m))
  }

  const MAX_FILE: nat := 2000000

  /** `tool_apply_patch`, which parses and applies block by block on a working copy
      and writes the file once, at the end. `writable` is whether reopening succeeds. */
  method ApplyPatch(f: TextFile, patch: string, writable: bool, m: Marks) returns (outcome: Outcome)
    requires m.search != ""
    modifies f
    ensures f.content == if outcome.Patched? then outcome.doc else old(f.content)
    ensures outcome.TooLarge? <==> |old(f.content)| > 2000000
    ensures outcome.Unsupported? <==>
              |old(f.content)| <= 2000000 && !(Contains(patch, m.search) && Contains(patch, m.divider))
    ensures outcome.Patched? ==> writable && Yields(old(f.content), ParseAll(patch, m).0, f.content)
    ensures outcome.NotWritable? ==> !writable
    ensures var spec := if |old(f.content)| > MAX_FILE then TooLarge else PatchText(old(f.content), patch, m);
            outcome == if spec.Patched? && !writable then NotWritable else spec
  {
    if |f.content| > MAX_FILE { return TooLarge; }
    if Find(patch, m.search, 0).None? || Find(patch, m.divider, 0).None? { return Unsupported; }
    outcome := ApplyBlocks(f.content, patch, m);
    if outcome.Patched? {
      if !writable { return NotWritable; }
      f.content := outcome.doc;
    }
  }

  /** The block loop; `p` is the text behind the last block, as the C pointer is. */
  method BlockLoop(orig: string, patch: string, m: Marks) returns (outcome: Outcome)
    requires m.search != ""
    ensures outcome == ApplyAll(orig, ParseAll(patch, m))
  {
    var doc, p := orig, patch;
    while true
      invariant ApplyAll(orig, ParseAll(patch, m)) == ApplyAll(doc, ParseAll(p, m))
      decreases |p|
    {
      var start := SplitAt(p, m.search);
      if start.None? { return Patched(doc); }
      var div := SplitAt(start.value.1, m.divider);
      if div.None? { return MissingDivider; }
      var end := SplitAt(div.value.1, m.replace);
      if end.None? { return MissingReplace; }
      var search, replace, rest := div.value.0, end.value.0, end.value.1;
      ApplyStep(doc, p, Hunk(search, replace), rest, m);
      var hit := SplitAt(doc, search);
      if hit.None? { return Mismatch(search); }
      doc := hit.value.0 + replace + hit.value.1;
      p := rest;
    }
  }

  /** What the block loop returns, in terms of the blocks of the patch: the document at the
      end of the chain of edits, or the first search text that does not occur. */
  method ApplyBlocks(orig: string, patch: string, m: Marks) returns (outcome: Outcome)
    requires m.search != ""
    ensures outcome == ApplyAll(orig, ParseAll(patch, m))
    ensures !outcome.TooLarge? && !outcome.Unsupported? && !outcome.NotWritable?
    ensures outcome.Patched? ==> Yields(orig, ParseAll(patch, m).0, outcome.doc)
    ensures outcome.Mismatch? ==>
              exists k: nat ::
                FailsAt(orig, ParseAll(patch, m).0, k) && ParseAll(patch, m).0[k].search == outcome.search
  {
    outcome := BlockLoop(orig, patch, m);
    ghost var hunks := ParseAll(patch, m).0;
    if outcome.Patched? { PatchedMeans(orig, hunks, outcome.doc); }
    if outcome.Mismatch? { MismatchMeans(orig, hunks, outcome.search); }
  }

  lemma ParseStep(text: string, hunk: Hunk, rest: string, m: Marks)
    requires m.search != "" && NextBlock(text, m) == Block(hunk, rest)
    ensures ParseAll(text, m) == ([hunk] + ParseAll(rest, m).0, ParseAll(rest, m).1)
  {
  }

  lemma FoldStep(doc: string, hunk: Hunk, hunks: seq<Hunk>)
    ensures ApplyHunks(doc, [hunk] + hunks) ==
            match ReplaceFirst(doc, hunk)
            case None => Mismatch(hunk.search)
            case Some(next) => ApplyHunks(next, hunks)
  {
    assert ([hunk] + hunks)[0] == hunk && ([hunk] + hunks)[1..] == hunks;
  }

  /** Peeling one block off the fold. */
  lemma ApplyStep(doc: string, text: string, hunk: Hunk, rest: string, m: Marks)
    requires m.search != "" && NextBlock(text, m) == Block(hunk, rest)
    ensures ApplyAll(doc, ParseAll(text, m)) ==
            match ReplaceFirst(doc, hunk)
            case None => Mismatch(hunk.search)
            case Some(next) => ApplyAll(next, ParseAll(rest, m))
  {
    ParseStep(text, hunk, rest, m);
    FoldStep(doc, hunk, ParseAll(rest, m).0);
  }

  // ---------- What a patch does ----------

  /** `now` has the replacement in place of the search text at `i`, which occurs nowhere
      before that. */
  ghost predicate ReplacedAt(doc: string, h: Hunk, i: nat, now: string) {
    && At(doc, h.search, i) && (forall j :: 0 <= j < i ==> !At(doc, h.search, j))
    && now == doc[..i] + h.replace + doc[i + |h.search|..]
  }

  ghost predicate LeadsTo(doc: string, h: Hunk, now: string) {
    exists i :: ReplacedAt(doc, h, i, now)
  }

  /** The documents from the first to the last, each made from the one before. */
  ghost predicate Chain(docs: seq<string>, hunks: seq<Hunk>)
    decreases |hunks|
  {
    && |docs| == |hunks| + 1
    && (hunks == [] || (LeadsTo(docs[0], hunks[0], docs[1]) && Chain(docs[1..], hunks[1..])))
  }

  /** An edit has one result, and none where the search text does not occur. */
  lemma EditIsUnique(doc: string, h: Hunk, now: string)
    ensures LeadsTo(doc, h, now) <==> ReplaceFirst(doc, h) == Some(now)
    ensures !Contains(doc, h.search) <==> ReplaceFirst(doc, h) == None
  {
    if i :| ReplacedAt(doc, h, i, now) { FindIs(doc, h.search, 0, i); }
    if Find(doc, h.search, 0).Some? {
      assert ReplacedAt(doc, h, Find(doc, h.search, 0).value, ReplaceFirst(doc, h).value);
    }
  }

  lemma ChainCons(doc: string, rest: seq<string>, hunks: seq<Hunk>)
    requires hunks != [] && 0 < |rest| <= |hunks|
    requires LeadsTo(doc, hunks[0], rest[0]) && Chain(rest, hunks[1..][..|rest| - 1])
    ensures Chain([doc] + rest, hunks[..|rest|])
  {
    assert ([doc] + rest)[1..] == rest && hunks[..|rest|][1..] == hunks[1..][..|rest| - 1];
  }

  /** The documents on the way, up to the first hunk that does not apply. */
  lemma {:induction false} HunksChain(doc: string, hunks: seq<Hunk>) returns (docs: seq<string>)
    ensures docs != [] && docs[0] == doc && |docs| <= |hunks| + 1 && Chain(docs, hunks[..|docs| - 1])
    ensures match ApplyHunks(doc, hunks)
            case Patched(d) => |docs| == |hunks| + 1 && d == docs[|docs| - 1]
            case Mismatch(search) =>
              var k := |docs| - 1;
              k < |hunks| && search == hunks[k].search && !Contains(docs[k], search)
            case _ => false
    decreases |hunks|
  {
    docs := [doc];
    if hunks != [] {
      EditIsUnique(doc, hunks[0], doc);
      if ReplaceFirst(doc, hunks[0]).Some? {
        var next := ReplaceFirst(doc, hunks[0]).value;
        EditIsUnique(doc, hunks[0], next);
        var rest := HunksChain(next, hunks[1..]);
        docs := [doc] + rest;
        ChainCons(doc, rest, hunks);
        assert docs[|docs| - 1] == rest[|rest| - 1];
      }
    }
  }

  /** There is only one chain of edits. */
  lemma {:induction false} ChainDecides(docs: seq<string>, hunks: seq<Hunk>, k: nat)
    requires k <= |hunks| && Chain(docs, hunks[..k])
    ensures k == |hunks| ==> ApplyHunks(docs[0], hunks) == Patched(docs[k])
    ensures k < |hunks| && !Contains(docs[k], hunks[k].search) ==>
              ApplyHunks(docs[0], hunks) == Mismatch(hunks[k].search)
    decreases |hunks|
  {
    if k > 0 {
      assert hunks[..k][1..] == hunks[1..][..k - 1];
      EditIsUnique(docs[0], hunks[0], docs[1]);
      ChainDecides(docs[1..], hunks[1..], k - 1);
    } else if hunks != [] {
      EditIsUnique(docs[0], hunks[0], docs[0]);
    }
  }

  /** A chain of edits leads from `doc` to `d`, each replacing the leftmost occurrence of
      its search text and nothing else. */
  ghost predicate Yields(doc: string, hunks: seq<Hunk>, d: string) {
    exists docs :: Chain(docs, hunks) && docs[0] == doc && docs[|hunks|] == d
  }

  /** Applying hunks yields `d` exactly when a chain of edits leads to it. */
  lemma {:induction false} PatchedMeans(doc: string, hunks: seq<Hunk>, d: string)
    ensures ApplyHunks(doc, hunks) == Patched(d) <==> Yields(doc, hunks, d)
  {
    assert hunks[..|hunks|] == hunks;
    if ApplyHunks(doc, hunks) == Patched(d) {
      var docs := HunksChain(doc, hunks);
      assert Chain(docs, hunks);
    }
    if docs :| Chain(docs, hunks) && docs[0] == doc && docs[|hunks|] == d {
      ChainDecides(docs, hunks, |hunks|);
    }
  }

  /** The hunks before number `k` make of `doc` a document in which its search text does
      not occur. */
  ghost predicate FailsAt(doc: string, hunks: seq<Hunk>, k: nat) {
    k < |hunks| && exists docs :: Chain(docs, hunks[..k]) && docs[0] == doc && !Contains(docs[k], hunks[k].search)
  }

  /** Applying them reports a mismatch exactly for the hunk of which that is true. */
  lemma {:induction false} MismatchMeans(doc: string, hunks: seq<Hunk>, search: string)
    ensures ApplyHunks(doc, hunks) == Mismatch(search) <==>
            exists k: nat :: FailsAt(doc, hunks, k) && hunks[k].search == search
  {
    if ApplyHunks(doc, hunks) == Mismatch(search) {
      var docs := HunksChain(doc, hunks);
      var k: nat := |docs| - 1;
      assert FailsAt(doc, hunks, k) && hunks[k].search == search;
    }
    if k: nat :| FailsAt(doc, hunks, k) && hunks[k].search == search {
      var docs :| Chain(docs, hunks[..k]) && docs[0] == doc && !Contains(docs[k], hunks[k].search);
      ChainDecides(docs, hunks, k);
    }
  }

  // ---------- Printing and the round trip ----------

  function PrintHunk(h: Hunk, rest: string, m: Marks): string {
    m.search + (h.search + (m.divider + (h.replace + (m.replace + rest))))
  }

  /** Blocks with free text before each and behind the last. */
  function PrintPatch(gaps: seq<string>, hunks: seq<Hunk>, tail: string, m: Marks): string
    requires |gaps| == |hunks|
    decreases |hunks|
  {
    if hunks == [] then tail
    else gaps[0] + PrintHunk(hunks[0], PrintPatch(gaps[1..], hunks[1..], tail, m), m)
  }

  /** What a hunk must satisfy to be expressible: its search text lacks the divider
      and its replacement lacks the end marker. */
  ghost predicate Expressible(h: Hunk, m: Marks) {
    !Contains(h.search, m.divider) && !Contains(h.replace, m.replace)
  }

  ghost predicate AllExpressible(hunks: seq<Hunk>, m: Marks) {
    forall i :: 0 <= i < |hunks| ==> Expressible(hunks[i], m)
  }

  /** A printed block is read back exactly when its hunk is expressible. */
  lemma {:induction false} NextBlockPrinted(gap: string, h: Hunk, rest: string, m: Marks)
    requires Sound(m) && !Contains(gap, m.search)
    ensures var b := NextBlock(gap + PrintHunk(h, rest, m), m);
            if Expressible(h, m) then b == Block(h, rest) else !(b.Block? && b.hunk == h)
    ensures !NextBlock(gap + PrintHunk(h, rest, m), m).NoBlock?
  {
    var c := h.replace + (m.replace + rest);
    var b := h.search + (m.divider + c);
    SplitBehind(gap, m.search, b);
    SplitBehind(h.search, m.divider, c);
    SplitBehind(h.replace, m.replace, rest);
  }

  lemma SplitNone(text: string, needle: string)
    requires !Contains(text, needle)
    ensures SplitAt(text, needle).None?
  {
  }

  lemma AllExpressibleStep(hunks: seq<Hunk>, m: Marks)
    requires hunks != []
    ensures AllExpressible(hunks, m) <==> Expressible(hunks[0], m) && AllExpressible(hunks[1..], m)
  {
    if AllExpressible(hunks, m) {
      assert forall i :: 0 <= i < |hunks[1..]| ==> hunks[1..][i] == hunks[i + 1];
    }
    assert forall i :: 0 < i < |hunks| ==> hunks[i] == hunks[1..][i - 1];
  }

  /** A list of hunks is read off a text when its first block is the first hunk and the
      rest is read behind it. */
  lemma FirstBlock(text: string, hunks: seq<Hunk>, more: string, first: bool, m: Marks)
    requires m.search != "" && hunks != []
    requires var b := NextBlock(text, m);
             if first then b == Block(hunks[0], more) else !(b.Block? && b.hunk == hunks[0])
    ensures ParseAll(text, m) == (hunks, NoBlock) <==> first && ParseAll(more, m) == (hunks[1..], NoBlock)
  {
    assert hunks == [hunks[0]] + hunks[1..];
    var b := NextBlock(text, m);
    if b.Block? {
      ParseStep(text, b.hunk, b.rest, m);
      ConsEqual(b.hunk, ParseAll(b.rest, m).0, hunks[0], hunks[1..]);
    }
  }

  /** Round trip: the blocks printed for a list of hunks parse back to that list
      exactly when every hunk is expressible. */
  lemma {:induction false} RoundTrip(gaps: seq<string>, hunks: seq<Hunk>, tail: string, m: Marks)
    requires Sound(m) && |gaps| == |hunks| && !Contains(tail, m.search)
    requires forall g :: g in gaps ==> !Contains(g, m.search)
    ensures ParseAll(PrintPatch(gaps, hunks, tail, m), m) == (hunks, NoBlock)
            <==> AllExpressible(hunks, m)
    decreases |hunks|
  {
    if hunks == [] {
      SplitNone(tail, m.search);
    } else {
      var more := PrintPatch(gaps[1..], hunks[1..], tail, m);
      NextBlockPrinted(gaps[0], hunks[0], more, m);
      FirstBlock(gaps[0] + PrintHunk(hunks[0], more, m), hunks, more, Expressible(hunks[0], m), m);
      RoundTrip(gaps[1..], hunks[1..], tail, m);
      AllExpressibleStep(hunks, m);
    }
  }

  lemma BlockHasMarkers(text: string, m: Marks)
    requires NextBlock(text, m).Block?
    ensures Find(text, m.search, 0).Some? && Find(text, m.divider, 0).Some?
  {
    var i := Find(text, m.search, 0).value + |m.search|;
    var j := Find(text[i..], m.divider, 0).value;
    AtInSuffix(text, m.divider, i, j);
  }

  lemma {:induction false} PrintedHasMarkers(gaps: seq<string>, hunks: seq<Hunk>, tail: string, m: Marks)
    requires Sound(m) && 0 < |hunks| == |gaps|
    requires !Contains(gaps[0], m.search) && Expressible(hunks[0], m)
    ensures var text := PrintPatch(gaps, hunks, tail, m);
            Find(text, m.search, 0).Some? && Find(text, m.divider, 0).Some?
  {
    var more := PrintPatch(gaps[1..], hunks[1..], tail, m);
    NextBlockPrinted(gaps[0], hunks[0], more, m);
    BlockHasMarkers(gaps[0] + PrintHunk(hunks[0], more, m), m);
  }

  /** How a patch may end behind its last whole block: without another block, within a
      search text, or within a replacement. */
  ghost predicate Finished(tail: string, m: Marks) {
    !Contains(tail, m.search)
  }

  ghost predicate Undivided(tail: string, m: Marks) {
    exists gap, x ::
      tail == gap + (m.search + x) && !Contains(gap, m.search) && !Contains(x, m.divider)
  }

  ghost predicate Unclosed(tail: string, m: Marks) {
    exists gap, s, x ::
      tail == gap + (m.search + (s + (m.divider + x)))
      && !Contains(gap, m.search) && !Contains(s, m.divider) && !Contains(x, m.replace)
  }

  /** The parser stops at such a tail and tells the three apart. */
  lemma {:induction false} TailEnds(tail: string, m: Marks)
    requires Sound(m)
    ensures Finished(tail, m) ==> ParseAll(tail, m) == ([], NoBlock)
    ensures Undivided(tail, m) ==> ParseAll(tail, m) == ([], NoDivider)
    ensures Unclosed(tail, m) ==> ParseAll(tail, m) == ([], NoReplace)
  {
    if Finished(tail, m) { SplitNone(tail, m.search); }
    if gap, x :| tail == gap + (m.search + x) && !Contains(gap, m.search) && !Contains(x, m.divider) {
      SplitBehind(gap, m.search, x);
      SplitNone(x, m.divider);
    }
    if gap, s, x :| tail == gap + (m.search + (s + (m.divider + x)))
                    && !Contains(gap, m.search) && !Contains(s, m.divider) && !Contains(x, m.replace) {
      SplitBehind(gap, m.search, s + (m.divider + x));
      SplitBehind(s, m.divider, x);
      SplitNone(x, m.replace);
    }
  }

  /** A block that is read was printed. */
  lemma {:induction false} BlockWasPrinted(text: string, m: Marks) returns (gap: string)
    requires Sound(m) && NextBlock(text, m).Block?
    ensures var b := NextBlock(text, m);
            text == gap + PrintHunk(b.hunk, b.rest, m) && !Contains(gap, m.search) && Expressible(b.hunk, m)
  {
    SplitIs(text, m.search);
    var (g, x) := SplitAt(text, m.search).value;
    gap := g;
    SplitIs(x, m.divider);
    SplitIs(SplitAt(x, m.divider).value.1, m.replace);
  }

  lemma {:induction false} TailWasPrinted(text: string, m: Marks)
    requires Sound(m) && !NextBlock(text, m).Block?
    ensures Finished(text, m) || Undivided(text, m) || Unclosed(text, m)
  {
    SplitIs(text, m.search);
    if SplitAt(text, m.search).Some? {
      var (gap, x) := SplitAt(text, m.search).value;
      SplitIs(x, m.divider);
      if SplitAt(x, m.divider).Some? {
        var (s, y) := SplitAt(x, m.divider).value;
        SplitIs(y, m.replace);
        assert text == gap + (m.search + (s + (m.divider + y)));
      }
    }
  }

  /** Every text is a printed patch of the hunks that are parsed from it. */
  lemma {:induction false} EveryPatchIsPrinted(text: string, m: Marks) returns (gaps: seq<string>, tail: string)
    requires Sound(m)
    ensures var hunks := ParseAll(text, m).0;
            |gaps| == |hunks| && text == PrintPatch(gaps, hunks, tail, m) && AllExpressible(hunks, m)
    ensures forall g :: g in gaps ==> !Contains(g, m.search)
    ensures Finished(tail, m) || Undivided(tail, m) || Unclosed(tail, m)
    decreases |text|
  {
    var b := NextBlock(text, m);
    if b.Block? {
      var gap := BlockWasPrinted(text, m);
      var more;
      more, tail := EveryPatchIsPrinted(b.rest, m);
      gaps := [gap] + more;
      ParseStep(text, b.hunk, b.rest, m);
      PrintCons(gap, more, b.hunk, ParseAll(b.rest, m).0, tail, m);
      AllExpressibleStep(ParseAll(text, m).0, m);
      assert ParseAll(text, m).0[1..] == ParseAll(b.rest, m).0;
    } else {
      gaps, tail := [], text;
      TailWasPrinted(text, m);
    }
  }

  lemma PrintCons(gap: string, gaps: seq<string>, h: Hunk, hunks: seq<Hunk>, tail: string, m: Marks)
    requires |gaps| == |hunks|
    ensures PrintPatch([gap] + gaps, [h] + hunks, tail, m) ==
            gap + PrintHunk(h, PrintPatch(gaps, hunks, tail, m), m)
  {
    assert ([gap] + gaps)[1..] == gaps && ([h] + hunks)[1..] == hunks;
  }

  lemma {:induction false} ParsePrinted(gaps: seq<string>, hunks: seq<Hunk>, tail: string, m: Marks)
    requires Sound(m) && |gaps| == |hunks| && AllExpressible(hunks, m)
    requires forall g :: g in gaps ==> !Contains(g, m.search)
    ensures ParseAll(PrintPatch(gaps, hunks, tail, m), m) == (hunks + ParseAll(tail, m).0, ParseAll(tail, m).1)
    decreases |hunks|
  {
    if hunks == [] {
      assert hunks + ParseAll(tail, m).0 == ParseAll(tail, m).0;
    } else {
      var more := PrintPatch(gaps[1..], hunks[1..], tail, m);
      AllExpressibleStep(hunks, m);
      NextBlockPrinted(gaps[0], hunks[0], more, m);
      ParseStep(gaps[0] + PrintHunk(hunks[0], more, m), hunks[0], more, m);
      ParsePrinted(gaps[1..], hunks[1..], tail, m);
      ConsPrefix(hunks, ParseAll(tail, m).0);
    }
  }

  /** Applying a printed, non-empty patch is the fold of replace-first over its hunks; what
      is malformed behind them is reported when they all apply. */
  lemma {:induction false} PatchIsFold(doc: string, gaps: seq<string>, hunks: seq<Hunk>, tail: string, m: Marks)
    requires Sound(m) && 0 < |hunks| == |gaps| && AllExpressible(hunks, m)
    requires forall g :: g in gaps ==> !Contains(g, m.search)
    ensures var r, applied := PatchText(doc, PrintPatch(gaps, hunks, tail, m), m), ApplyHunks(doc, hunks);
            && (Finished(tail, m) || !applied.Patched? ==> r == applied)
            && (Undivided(tail, m) && applied.Patched? ==> r == MissingDivider)
            && (Unclosed(tail, m) && applied.Patched? ==> r == MissingReplace)
  {
    ParsePrinted(gaps, hunks, tail, m);
    TailEnds(tail, m);
    assert gaps[0] in gaps;
    PrintedHasMarkers(gaps, hunks, tail, m);
    FoldPrefix(doc, hunks, ParseAll(tail, m));
  }

  lemma {:induction false} FoldPrefix(doc: string, hunks: seq<Hunk>, rest: (seq<Hunk>, Block))
    ensures var applied, all := ApplyHunks(doc, hunks), ApplyAll(doc, (hunks + rest.0, rest.1));
            && (!applied.Patched? ==> all == applied)
            && (rest == ([], NoBlock) ==> all == applied)
            && (applied.Patched? && rest == ([], NoDivider) ==> all == MissingDivider)
            && (applied.Patched? && rest == ([], NoReplace) ==> all == MissingReplace)
  {
    if rest.0 == [] { assert hunks + rest.0 == hunks; }
    if !ApplyHunks(doc, hunks).Patched? { FailureStays(doc, hunks, rest.0); }
  }

  lemma {:induction false} FailureStays(doc: string, hunks: seq<Hunk>, more: seq<Hunk>)
    requires !ApplyHunks(doc, hunks).Patched?
    ensures ApplyHunks(doc, hunks + more) == ApplyHunks(doc, hunks)
    decreases |hunks|
  {
    var h, rest := hunks[0], hunks[1..];
    ConsPrefix(hunks, more);
    FoldStep(doc, h, rest + more);
    if ReplaceFirst(doc, h).Some? { FailureStays(ReplaceFirst(doc, h).value, rest, more); }
  }
}
