/**
 What the bytes a user types do to the line, by its whole text and the place of the
 cursor in it (linenoise.c), and what comes of whole inputs.
 */
module LineKeys {
  import opened LineEditor
  import opened Text

  /** The session with this text and the cursor before character `pos` of it. */
  function Placed(s: Session, text: string, pos: nat): Session
    requires pos <= |text|
  {
    s.(line := Line(text[..pos], text[pos..]))
  }

  lemma LineIsPlaced(s: Session)
    ensures |s.line.before| <= |Whole(s.line)| && s == Placed(s, Whole(s.line), |s.line.before|)
  {
    assert Whole(s.line)[..|s.line.before|] == s.line.before;
    assert Whole(s.line)[|s.line.before|..] == s.line.after;
  }

  /** A key that takes some bytes and goes on. */
  lemma OneKey(s: Session, bytes: string, rest: string, cap: nat)
    requires Sane(s) && cap > 0 && bytes != ""
    requires Decode(bytes + rest) == (Decode(bytes).0, |bytes|)
    ensures var (next, end) := Press(s, Decode(bytes).0, cap);
            EditAll(s, bytes + rest, cap) == if end.Some? then (next, end.value) else EditAll(next, rest, cap)
  {
    assert (bytes + rest)[|bytes|..] == rest;
  }

  lemma OneByte(s: Session, c: char, rest: string, cap: nat)
    requires Sane(s) && cap > 0 && c != ESC
    ensures var (next, end) := Press(s, KeyOf(c), cap);
            EditAll(s, [c] + rest, cap) == if end.Some? then (next, end.value) else EditAll(next, rest, cap)
  {
    assert ([c] + rest)[0] == c == [c][0];
    OneKey(s, [c], rest, cap);
  }

  /** The arrow, home and end keys send ESC, a bracket and a letter. */
  lemma OneArrow(s: Session, c: char, rest: string, cap: nat)
    requires Sane(s) && cap > 0 && !('0' <= c <= '9')
    ensures var (next, end) := Press(s, ArrowKey(c), cap);
            EditAll(s, ['\U{1B}', '[', c] + rest, cap) ==
            if end.Some? then (next, end.value) else EditAll(next, rest, cap)
  {
    var bytes := ['\U{1B}', '[', c];
    assert (bytes + rest)[0] == ESC && (bytes + rest)[1] == '[' && (bytes + rest)[2] == c;
    OneKey(s, bytes, rest, cap);
  }

  lemma ByByte(s: Session, c: char, next: Session, rest: string, cap: nat)
    requires Sane(s) && cap > 0 && c != ESC && Press(s, KeyOf(c), cap) == (next, None)
    ensures EditAll(s, [c] + rest, cap) == EditAll(next, rest, cap)
  {
    OneByte(s, c, rest, cap);
  }

  lemma ByArrow(s: Session, c: char, next: Session, rest: string, cap: nat)
    requires Sane(s) && cap > 0 && !('0' <= c <= '9') && Press(s, ArrowKey(c), cap) == (next, None)
    ensures EditAll(s, ['\U{1B}', '[', c] + rest, cap) == EditAll(next, rest, cap)
  {
    OneArrow(s, c, rest, cap);
  }

  // ---------- Inserting and removing ----------

  lemma InsertAt(text: string, pos: nat, c: char, cap: nat)
    requires pos <= |text|
    ensures var now := text[..pos] + [c] + text[pos..];
            Insert(Line(text[..pos], text[pos..]), c, cap) ==
            if |text| < cap then Line(now[..pos + 1], now[pos + 1..]) else Line(text[..pos], text[pos..])
  {
    var now := text[..pos] + [c] + text[pos..];
    assert now[..pos + 1] == text[..pos] + [c] && now[pos + 1..] == text[pos..];
  }

  /** Every byte but the control bytes that have a meaning. */
  predicate Printable(c: char) {
    c as int !in {1, 2, 3, 4, 5, 6, 8, 11, 12, 13, 14, 16, 20, 21, 23, 27, 127}
  }

  /** Such a byte goes in at the cursor, which moves behind it; in a full line it is
      ignored. */
  lemma {:induction false} PrintableByte(s: Session, text: string, pos: nat, c: char, rest: string, cap: nat)
    requires Sane(s) && pos <= |text| && cap > 0 && Printable(c)
    ensures EditAll(Placed(s, text, pos), [c] + rest, cap) ==
            EditAll(if |text| < cap then Placed(s, text[..pos] + [c] + text[pos..], pos + 1)
                    else Placed(s, text, pos), rest, cap)
  {
    var now := text[..pos] + [c] + text[pos..];
    InsertAt(text, pos, c, cap);
    assert KeyOf(c) == Char(c);
    ByByte(Placed(s, text, pos), c, if |text| < cap then Placed(s, now, pos + 1) else Placed(s, text, pos), rest, cap);
  }

  lemma BackspaceAt(text: string, pos: nat)
    requires 0 < pos <= |text|
    ensures var now := text[..pos - 1] + text[pos..];
            Backspace(Line(text[..pos], text[pos..])) == Line(now[..pos - 1], now[pos - 1..])
  {
    var now := text[..pos - 1] + text[pos..];
    assert now[..pos - 1] == text[..pos][..pos - 1] && now[pos - 1..] == text[pos..];
  }

  /** Backspace (8 and 127) removes the character before the cursor. */
  lemma {:induction false} BackspaceByte(s: Session, text: string, pos: nat, c: char, rest: string, cap: nat)
    requires Sane(s) && 0 < pos <= |text| && cap > 0 && (c == '\U{8}' || c == '\U{7F}')
    ensures EditAll(Placed(s, text, pos), [c] + rest, cap) ==
            EditAll(Placed(s, text[..pos - 1] + text[pos..], pos - 1), rest, cap)
  {
    BackspaceAt(text, pos);
    ByByte(Placed(s, text, pos), c, Placed(s, text[..pos - 1] + text[pos..], pos - 1), rest, cap);
  }

  lemma DeleteAt(text: string, pos: nat)
    requires pos < |text|
    ensures var now := text[..pos] + text[pos + 1..];
            Delete(Line(text[..pos], text[pos..])) == Line(now[..pos], now[pos..])
    ensures Whole(Line(text[..pos], text[pos..])) == text
  {
    var now := text[..pos] + text[pos + 1..];
    assert now[..pos] == text[..pos] && now[pos..] == text[pos + 1..] == text[pos..][1..];
  }

  /** Control-D and the delete key remove the character at the cursor. */
  lemma {:induction false} DeleteByte(s: Session, text: string, pos: nat, rest: string, cap: nat)
    requires Sane(s) && pos < |text| && cap > 0
    ensures var next := Placed(s, text[..pos] + text[pos + 1..], pos);
            && EditAll(Placed(s, text, pos), ['\U{4}'] + rest, cap) == EditAll(next, rest, cap)
            && EditAll(Placed(s, text, pos), ['\U{1B}', '[', '3', '~'] + rest, cap) == EditAll(next, rest, cap)
  {
    var at := Placed(s, text, pos);
    DeleteAt(text, pos);
    ByByte(at, '\U{4}', Placed(s, text[..pos] + text[pos + 1..], pos), rest, cap);
    DeleteSequence(rest);
    OneKey(at, ['\U{1B}', '[', '3', '~'], rest, cap);
  }

  lemma DeleteSequence(rest: string)
    ensures Decode(['\U{1B}', '[', '3', '~'] + rest) == Decode(['\U{1B}', '[', '3', '~']) == (EraseRight, 4)
  {
    var bytes := ['\U{1B}', '[', '3', '~'];
    assert (bytes + rest)[0] == ESC && (bytes + rest)[1] == '[' && (bytes + rest)[2] == '3' && (bytes + rest)[3] == '~';
  }

  /** Control-U removes the whole line. */
  lemma {:induction false} KillLineByte(s: Session, text: string, pos: nat, rest: string, cap: nat)
    requires Sane(s) && pos <= |text| && cap > 0
    ensures EditAll(Placed(s, text, pos), ['\U{15}'] + rest, cap) == EditAll(Placed(s, "", 0), rest, cap)
  {
    ByByte(Placed(s, text, pos), '\U{15}', Placed(s, "", 0), rest, cap);
  }

  /** Control-K removes what is behind the cursor. */
  lemma {:induction false} KillRestByte(s: Session, text: string, pos: nat, rest: string, cap: nat)
    requires Sane(s) && pos <= |text| && cap > 0
    ensures EditAll(Placed(s, text, pos), ['\U{B}'] + rest, cap) == EditAll(Placed(s, text[..pos], pos), rest, cap)
  {
    assert text[..pos][..pos] == text[..pos] && text[..pos][pos..] == "";
    ByByte(Placed(s, text, pos), '\U{B}', Placed(s, text[..pos], pos), rest, cap);
  }

  /** Control-W removes the spaces before the cursor and the word before these. */
  lemma {:induction false} WordByte(s: Session, kept: string, word: string, spaces: string, after: string,
                                    rest: string, cap: nat)
    requires Sane(s) && cap > 0
    requires (forall c :: c in spaces ==> c == ' ') && (forall c :: c in word ==> c != ' ')
    requires kept != "" ==> word != "" && kept[|kept| - 1] == ' '
    ensures EditAll(Placed(s, kept + word + spaces + after, |kept + word + spaces|), ['\U{17}'] + rest, cap) ==
            EditAll(Placed(s, kept + after, |kept|), rest, cap)
  {
    var at := Placed(s, kept + word + spaces + after, |kept + word + spaces|);
    PlacedParts(s, kept + word + spaces, after);
    PlacedParts(s, kept, after);
    WordAt(kept, word, spaces, after);
    ByByte(at, '\U{17}', Placed(s, kept + after, |kept|), rest, cap);
  }

  lemma PlacedParts(s: Session, a: string, b: string)
    ensures Placed(s, a + b, |a|) == s.(line := Line(a, b))
  {
    assert (a + b)[..|a|] == a && (a + b)[|a|..] == b;
  }

  lemma WordAt(kept: string, word: string, spaces: string, after: string)
    requires (forall c :: c in spaces ==> c == ' ') && (forall c :: c in word ==> c != ' ')
    requires kept != "" ==> word != "" && kept[|kept| - 1] == ' '
    ensures EraseWord(Line(kept + word + spaces, after)) == Line(kept, after)
  {
    assert word != "" ==> (kept + word)[|kept + word| - 1] == word[|word| - 1] && word[|word| - 1] in word;
    SpacesGo(kept + word, spaces);
    WordGoes(kept, word);
  }

  lemma {:induction false} SpacesGo(s: string, spaces: string)
    requires forall c :: c in spaces ==> c == ' '
    requires s != "" ==> s[|s| - 1] != ' '
    ensures DropSpaces(s + spaces) == s
    decreases |spaces|
  {
    if spaces == "" {
      assert s + spaces == s;
    } else {
      var more := spaces[..|spaces| - 1];
      assert spaces[|spaces| - 1] in spaces && forall c :: c in more ==> c in spaces;
      assert Init(s + spaces) == s + more;
      SpacesGo(s, more);
    }
  }

  lemma {:induction false} WordGoes(s: string, word: string)
    requires forall c :: c in word ==> c != ' '
    requires s != "" ==> s[|s| - 1] == ' '
    ensures DropWord(s + word) == s
    decreases |word|
  {
    if word == "" {
      assert s + word == s;
    } else {
      var more := word[..|word| - 1];
      assert word[|word| - 1] in word && forall c :: c in more ==> c in word;
      assert Init(s + word) == s + more;
      WordGoes(s, more);
    }
  }

  // ---------- Moving ----------

  lemma EndsAt(text: string, pos: nat)
    requires pos <= |text|
    ensures Home(Line(text[..pos], text[pos..])) == Line(text[..0], text[0..])
    ensures End(Line(text[..pos], text[pos..])) == Line(text[..|text|], text[|text|..])
  {
    assert text[..pos] + text[pos..] == text;
  }

  /** Control-A and the home key go to the beginning of the line. */
  lemma {:induction false} HomeBytes(s: Session, text: string, pos: nat, rest: string, cap: nat)
    requires Sane(s) && pos <= |text| && cap > 0
    ensures EditAll(Placed(s, text, pos), ['\U{1}'] + rest, cap) == EditAll(Placed(s, text, 0), rest, cap)
    ensures EditAll(Placed(s, text, pos), ['\U{1B}', '[', 'H'] + rest, cap) == EditAll(Placed(s, text, 0), rest, cap)
  {
    EndsAt(text, pos);
    ByByte(Placed(s, text, pos), '\U{1}', Placed(s, text, 0), rest, cap);
    ByArrow(Placed(s, text, pos), 'H', Placed(s, text, 0), rest, cap);
  }

  /** Control-E and the end key go to its end. */
  lemma {:induction false} EndBytes(s: Session, text: string, pos: nat, rest: string, cap: nat)
    requires Sane(s) && pos <= |text| && cap > 0
    ensures var next := Placed(s, text, |text|);
            && EditAll(Placed(s, text, pos), ['\U{5}'] + rest, cap) == EditAll(next, rest, cap)
            && EditAll(Placed(s, text, pos), ['\U{1B}', '[', 'F'] + rest, cap) == EditAll(next, rest, cap)
  {
    EndsAt(text, pos);
    ByByte(Placed(s, text, pos), '\U{5}', Placed(s, text, |text|), rest, cap);
    ByArrow(Placed(s, text, pos), 'F', Placed(s, text, |text|), rest, cap);
  }

  lemma StepsAt(text: string, pos: nat)
    requires pos <= |text|
    ensures var p := if pos > 0 then pos - 1 else 0;
            Left(Line(text[..pos], text[pos..])) == Line(text[..p], text[p..])
    ensures var p := if pos < |text| then pos + 1 else pos;
            Right(Line(text[..pos], text[pos..])) == Line(text[..p], text[p..])
  {
    if pos > 0 {
      assert text[..pos][..pos - 1] == text[..pos - 1] && [text[pos - 1]] + text[pos..] == text[pos - 1..];
    }
    if pos < |text| {
      assert text[..pos] + [text[pos]] == text[..pos + 1] && text[pos..][1..] == text[pos + 1..];
    }
  }

  /** Control-B and arrow left go one character back. */
  lemma {:induction false} LeftBytes(s: Session, text: string, pos: nat, rest: string, cap: nat)
    requires Sane(s) && pos <= |text| && cap > 0
    ensures var next := Placed(s, text, if pos > 0 then pos - 1 else 0);
            && EditAll(Placed(s, text, pos), ['\U{2}'] + rest, cap) == EditAll(next, rest, cap)
            && EditAll(Placed(s, text, pos), ['\U{1B}', '[', 'D'] + rest, cap) == EditAll(next, rest, cap)
  {
    var next := Placed(s, text, if pos > 0 then pos - 1 else 0);
    StepsAt(text, pos);
    ByByte(Placed(s, text, pos), '\U{2}', next, rest, cap);
    ByArrow(Placed(s, text, pos), 'D', next, rest, cap);
  }

  /** Control-F and arrow right go one character on. */
  lemma {:induction false} RightBytes(s: Session, text: string, pos: nat, rest: string, cap: nat)
    requires Sane(s) && pos <= |text| && cap > 0
    ensures var next := Placed(s, text, if pos < |text| then pos + 1 else pos);
            && EditAll(Placed(s, text, pos), ['\U{6}'] + rest, cap) == EditAll(next, rest, cap)
            && EditAll(Placed(s, text, pos), ['\U{1B}', '[', 'C'] + rest, cap) == EditAll(next, rest, cap)
  {
    var next := Placed(s, text, if pos < |text| then pos + 1 else pos);
    StepsAt(text, pos);
    ByByte(Placed(s, text, pos), '\U{6}', next, rest, cap);
    ByArrow(Placed(s, text, pos), 'C', next, rest, cap);
  }

  lemma SwapAt(text: string, pos: nat)
    requires 0 < pos < |text|
    ensures var now, p := text[pos - 1 := text[pos]][pos := text[pos - 1]], if pos + 1 < |text| then pos + 1 else pos;
            Transpose(Line(text[..pos], text[pos..])) == Line(now[..p], now[p..])
  {
    var l := Line(text[..pos], text[pos..]);
    TransposeSwaps(l);
    assert Whole(l) == text;
    var t := Transpose(l);
    assert Whole(t)[..|t.before|] == t.before && Whole(t)[|t.before|..] == t.after;
  }

  /** Control-T swaps the characters around the cursor and steps over them, unless the
      second is the last. */
  lemma {:induction false} SwapByte(s: Session, text: string, pos: nat, rest: string, cap: nat)
    requires Sane(s) && 0 < pos < |text| && cap > 0
    ensures EditAll(Placed(s, text, pos), ['\U{14}'] + rest, cap) ==
            EditAll(Placed(s, text[pos - 1 := text[pos]][pos := text[pos - 1]],
                           if pos + 1 < |text| then pos + 1 else pos), rest, cap)
  {
    SwapAt(text, pos);
    ByByte(Placed(s, text, pos), '\U{14}',
           Placed(s, text[pos - 1 := text[pos]][pos := text[pos - 1]], if pos + 1 < |text| then pos + 1 else pos),
           rest, cap);
  }

  // ---------- History ----------

  /** Entry `index` back from the newest is shown, as far as the buffer takes it, with the
      cursor at its end. */
  function Recalled(entries: seq<string>, index: nat, cap: nat): Session
    requires index < |entries| && cap > 0
  {
    var e := entries[|entries| - 1 - index];
    Session(Line(if |e| < cap then e else e[..cap - 1], ""), entries, index)
  }

  /** The entries once the line is saved to the one that is shown. */
  function SavedTo(s: Session): seq<string>
    requires Sane(s)
  {
    s.entries[|s.entries| - 1 - s.index := s.line.before + s.line.after]
  }

  lemma RecallIs(s: Session, cap: nat)
    requires Sane(s) && cap > 0 && |s.entries| > 1
    ensures Recall(s, true, cap) == if s.index + 1 < |s.entries| then Recalled(SavedTo(s), s.index + 1, cap)
                                    else s.(entries := SavedTo(s))
    ensures Recall(s, false, cap) == if s.index > 0 then Recalled(SavedTo(s), s.index - 1, cap)
                                     else s.(entries := SavedTo(s))
  {
    var saved := SavedTo(s);
    assert forall k :: 0 <= k < |saved| && |saved[k]| == cap - 1 ==> saved[k][..cap - 1] == saved[k];
  }

  /** Control-P and arrow up save the line to its entry and show the next older one. */
  lemma {:induction false} OlderBytes(s: Session, rest: string, cap: nat)
    requires Sane(s) && cap > 0 && |s.entries| > 1
    ensures var next := if s.index + 1 < |s.entries| then Recalled(SavedTo(s), s.index + 1, cap)
                        else s.(entries := SavedTo(s));
            && EditAll(s, ['\U{10}'] + rest, cap) == EditAll(next, rest, cap)
            && EditAll(s, ['\U{1B}', '[', 'A'] + rest, cap) == EditAll(next, rest, cap)
  {
    var next := Recall(s, true, cap);
    RecallIs(s, cap);
    ByByte(s, '\U{10}', next, rest, cap);
    ByArrow(s, 'A', next, rest, cap);
  }

  /** Control-N and arrow down save it likewise and show the next newer one. */
  lemma {:induction false} NewerBytes(s: Session, rest: string, cap: nat)
    requires Sane(s) && cap > 0 && |s.entries| > 1
    ensures var next := if s.index > 0 then Recalled(SavedTo(s), s.index - 1, cap) else s.(entries := SavedTo(s));
            && EditAll(s, ['\U{E}'] + rest, cap) == EditAll(next, rest, cap)
            && EditAll(s, ['\U{1B}', '[', 'B'] + rest, cap) == EditAll(next, rest, cap)
  {
    var next := Recall(s, false, cap);
    RecallIs(s, cap);
    ByByte(s, '\U{E}', next, rest, cap);
    ByArrow(s, 'B', next, rest, cap);
  }

  // ---------- Bytes without effect ----------

  /** Where there is nothing to remove or to swap, the keys do nothing. */
  lemma {:induction false} AtTheEdges(s: Session, text: string, pos: nat, rest: string, cap: nat)
    requires Sane(s) && pos <= |text| && cap > 0
    ensures var at := Placed(s, text, pos);
            && (pos == 0 ==> EditAll(at, ['\U{8}'] + rest, cap) == EditAll(at, rest, cap)
                             && EditAll(at, ['\U{7F}'] + rest, cap) == EditAll(at, rest, cap))
            && (pos == |text| ==> EditAll(at, ['\U{1B}', '[', '3', '~'] + rest, cap) == EditAll(at, rest, cap))
            && (pos == |text| > 0 ==> EditAll(at, ['\U{4}'] + rest, cap) == EditAll(at, rest, cap))
            && (pos == 0 || pos == |text| ==> EditAll(at, ['\U{14}'] + rest, cap) == EditAll(at, rest, cap))
  {
    var at := Placed(s, text, pos);
    if pos == 0 {
      ByByte(at, '\U{8}', at, rest, cap);
      ByByte(at, '\U{7F}', at, rest, cap);
    }
    if pos == |text| {
      DeleteSequence(rest);
      OneKey(at, ['\U{1B}', '[', '3', '~'], rest, cap);
      if pos > 0 { ByByte(at, '\U{4}', at, rest, cap); }
    }
    if pos == 0 || pos == |text| { ByByte(at, '\U{14}', at, rest, cap); }
  }

  /** Without earlier entries there is nowhere to go in the history. */
  lemma {:induction false} AloneInHistory(s: Session, rest: string, cap: nat)
    requires Sane(s) && cap > 0 && |s.entries| == 1
    ensures EditAll(s, ['\U{10}'] + rest, cap) == EditAll(s, ['\U{E}'] + rest, cap) == EditAll(s, rest, cap)
    ensures EditAll(s, ['\U{1B}', '[', 'A'] + rest, cap) == EditAll(s, ['\U{1B}', '[', 'B'] + rest, cap)
            == EditAll(s, rest, cap)
  {
    ByByte(s, '\U{10}', s, rest, cap);
    ByByte(s, '\U{E}', s, rest, cap);
    ByArrow(s, 'A', s, rest, cap);
    ByArrow(s, 'B', s, rest, cap);
  }

  /** Control-L and all other escape sequences are passed over: three bytes, or four when
      the third is a digit. */
  lemma {:induction false} PassedOver(s: Session, a: char, b: char, c: char, rest: string, cap: nat)
    requires Sane(s) && cap > 0
    ensures EditAll(s, ['\U{C}'] + rest, cap) == EditAll(s, rest, cap)
    ensures a != '[' || !(b in "ABCDHF" || '0' <= b <= '9') ==>
              EditAll(s, ['\U{1B}', a, b] + rest, cap) == EditAll(s, rest, cap)
    ensures '0' <= b <= '9' && !(b == '3' && c == '~') ==>
              EditAll(s, ['\U{1B}', '[', b, c] + rest, cap) == EditAll(s, rest, cap)
  {
    ByByte(s, '\U{C}', s, rest, cap);
    if a != '[' || !(b in "ABCDHF" || '0' <= b <= '9') {
      OtherSequence(a, b, rest);
      OneKey(s, ['\U{1B}', a, b], rest, cap);
    }
    if '0' <= b <= '9' && !(b == '3' && c == '~') {
      OtherLongSequence(b, c, rest);
      OneKey(s, ['\U{1B}', '[', b, c], rest, cap);
    }
  }

  lemma OtherSequence(a: char, b: char, rest: string)
    requires a != '[' || !(b in "ABCDHF" || '0' <= b <= '9')
    ensures Decode(['\U{1B}', a, b] + rest) == Decode(['\U{1B}', a, b]) == (Nothing, 3)
  {
    var bytes := ['\U{1B}', a, b];
    assert (bytes + rest)[0] == ESC && (bytes + rest)[1] == a && (bytes + rest)[2] == b;
    assert a == '[' ==> b != 'A' && b != 'B' && b != 'C' && b != 'D' && b != 'H' && b != 'F';
  }

  lemma OtherLongSequence(b: char, c: char, rest: string)
    requires '0' <= b <= '9' && !(b == '3' && c == '~')
    ensures Decode(['\U{1B}', '[', b, c] + rest) == Decode(['\U{1B}', '[', b, c]) == (Nothing, 4)
  {
    var bytes := ['\U{1B}', '[', b, c];
    assert (bytes + rest)[0] == ESC && (bytes + rest)[1] == '[' && (bytes + rest)[2] == b && (bytes + rest)[3] == c;
  }

  /** A sequence that the end of the input cuts off changes nothing. */
  lemma {:induction false} CutSequence(s: Session, bytes: string, cap: nat)
    requires Sane(s) && cap > 0 && bytes != "" && bytes[0] == '\U{1B}'
    requires |bytes| < 3 || (|bytes| == 3 && bytes[1] == '[' && '0' <= bytes[2] <= '9')
    ensures EditAll(s, bytes, cap) == (s, EndOfInput)
  {
    assert bytes + "" == bytes;
    OneKey(s, bytes, "", cap);
  }

  // ---------- Whole inputs ----------

  /** Enter accepts the line, control-C cancels it, and so does control-D when it is empty;
      without such a key the input just ends. */
  lemma {:induction false} EndingBytes(s: Session, rest: string, cap: nat)
    requires Sane(s) && cap > 0
    ensures var dropped := s.(entries := s.entries[..|s.entries| - 1]);
            && EditAll(s, ['\U{D}'] + rest, cap) == (dropped, Accepted)
            && EditAll(s, ['\U{3}'] + rest, cap) == (s, Cancelled)
            && (s.line == Line("", "") ==> EditAll(s, ['\U{4}'] + rest, cap) == (dropped, Cancelled))
            && EditAll(s, "", cap) == (s, EndOfInput)
  {
    OneByte(s, '\U{D}', rest, cap);
    OneByte(s, '\U{3}', rest, cap);
    OneByte(s, '\U{4}', rest, cap);
  }

  predicate AllPrintable(text: string) {
    forall i :: 0 <= i < |text| ==> Printable(text[i])
  }

  function Min(a: nat, b: nat): nat {
    if a < b then a else b
  }

  function InsertAll(l: Line, typed: string, cap: nat): Line
    decreases |typed|
  {
    if typed == "" then l else InsertAll(Insert(l, typed[0], cap), typed[1..], cap)
  }

  lemma {:induction false} TypedKeys(s: Session, typed: string, rest: string, cap: nat)
    requires Sane(s) && cap > 0 && AllPrintable(typed)
    ensures EditAll(s, typed + rest, cap) == EditAll(s.(line := InsertAll(s.line, typed, cap)), rest, cap)
    decreases |typed|
  {
    if typed == "" {
      assert typed + rest == rest;
    } else {
      var c, more := typed[0], typed[1..];
      var next := s.(line := Insert(s.line, c, cap));
      ConsPrefix(typed, rest);
      ByByte(s, c, next, more + rest, cap);
      TypedKeys(next, more, rest, cap);
    }
  }

  lemma {:induction false} InsertedAll(before: string, after: string, typed: string, cap: nat)
    requires |before| + |after| <= cap
    ensures InsertAll(Line(before, after), typed, cap) ==
            Line(before + typed[..Min(|typed|, cap - |before| - |after|)], after)
    decreases |typed|
  {
    var n := Min(|typed|, cap - |before| - |after|);
    if n == 0 {
      assert before + typed[..0] == before;
      if typed != "" { InsertedAll(before, after, typed[1..], cap); }
    } else {
      InsertedAll(before + [typed[0]], after, typed[1..], cap);
      assert (before + [typed[0]]) + typed[1..][..n - 1] == before + typed[..n];
    }
  }

  /** Typed text goes in at the cursor, as much of it as the line has room for. */
  lemma {:induction false} TypedText(s: Session, text: string, pos: nat, typed: string, rest: string, cap: nat)
    requires Sane(s) && pos <= |text| <= cap && cap > 0 && AllPrintable(typed)
    ensures var n := Min(|typed|, cap - |text|);
            EditAll(Placed(s, text, pos), typed + rest, cap) ==
            EditAll(Placed(s, text[..pos] + typed[..n] + text[pos..], pos + n), rest, cap)
  {
    TypedKeys(Placed(s, text, pos), typed, rest, cap);
    InsertedAll(text[..pos], text[pos..], typed, cap);
    PlacedParts(s, text[..pos] + typed[..Min(|typed|, cap - |text|)], text[pos..]);
  }

  /** Text typed on an empty line and entered comes back as it was, as far as it fits. */
  lemma {:induction false} TypedLine(s: Session, typed: string, rest: string, cap: nat)
    requires Sane(s) && s.line == Line("", "") && cap > 0 && AllPrintable(typed)
    ensures var (r, outcome) := EditAll(s, typed + (['\U{D}'] + rest), cap);
            outcome == Accepted && Whole(r.line) == typed[..Min(|typed|, cap)]
  {
    assert s == Placed(s, "", 0);
    TypedText(s, "", 0, typed, ['\U{D}'] + rest, cap);
    var n := Min(|typed|, cap);
    var now := Placed(s, "" + typed[..n] + "", n);
    EndingBytes(now, rest, cap);
    LineIsPlaced(now);
    assert "" + typed[..n] + "" == typed[..n];
  }
}
