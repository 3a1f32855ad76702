/**
 The line editor of linenoise.c: a character array with a cursor, moved about with
 memmove, against a line split at the cursor.
 */
module LineEditor {
  import opened LineHistory
  import opened Text

  // ---------- The abstract line ----------

  /** The text before and behind the cursor. */
  datatype Line = Line(before: string, after: string)

  function Whole(l: Line): string {
    l.before + l.after
  }

  function Init(s: string): string
    requires s != ""
  {
    s[..|s| - 1]
  }

  function Last(s: string): char
    requires s != ""
  {
    s[|s| - 1]
  }

  function Insert(l: Line, c: char, cap: nat): Line {
    if |l.before| + |l.after| < cap then Line(l.before + [c], l.after) else l
  }

  function Left(l: Line): Line {
    if l.before == "" then l else Line(Init(l.before), [Last(l.before)] + l.after)
  }

  function Right(l: Line): Line {
    if l.after == "" then l else Line(l.before + [l.after[0]], l.after[1..])
  }

  function Home(l: Line): Line {
    Line("", l.before + l.after)
  }

  function End(l: Line): Line {
    Line(l.before + l.after, "")
  }

  function Backspace(l: Line): Line {
    if l.before == "" then l else Line(Init(l.before), l.after)
  }

  function Delete(l: Line): Line {
    if l.after == "" then l else Line(l.before, l.after[1..])
  }

  /** Swaps the characters around the cursor and steps over them unless at the last. */
  function Transpose(l: Line): Line {
    if l.before == "" || l.after == "" then l
    else
      var swapped := Line(Init(l.before) + [l.after[0]], [Last(l.before)] + l.after[1..]);
      if |l.after| > 1 then Right(swapped) else swapped
  }

  function DropSpaces(s: string): string {
    if s != "" && Last(s) == ' ' then DropSpaces(Init(s)) else s
  }

  function DropWord(s: string): string {
    if s != "" && Last(s) != ' ' then DropWord(Init(s)) else s
  }

  function EraseWord(l: Line): Line {
    Line(DropWord(DropSpaces(l.before)), l.after)
  }

  /** The line, the history with the edited line as its newest entry, and how far back
      the line shown is. */
  datatype Session = Session(line: Line, entries: seq<string>, index: nat)

  predicate Sane(s: Session) {
    s.index < |s.entries|
  }

  /** The entries once the line shown is saved to its own. */
  function Saved(s: Session): seq<string>
    requires Sane(s)
  {
    s.entries[|s.entries| - 1 - s.index := Whole(s.line)]
  }

  /** The entry `index` back from the newest is shown. */
  function Shown(entries: seq<string>, index: nat, cap: nat): Session
    requires index < |entries| && cap > 0
  {
    Session(Line(Take(entries[|entries| - 1 - index], cap - 1), ""), entries, index)
  }

  /** Stepping through the history: the line shown is saved to its entry first. */
  function Recall(s: Session, older: bool, cap: nat): Session
    requires Sane(s) && cap > 0
  {
    var n := |s.entries|;
    if n <= 1 then s
    else
      var saved := Saved(s);
      if (older && s.index + 1 >= n) || (!older && s.index == 0) then s.(entries := saved)
      else Shown(saved, if older then s.index + 1 else s.index - 1, cap)
  }

  // ---------- Keys ----------

  datatype Key =
    | Char(c: char) | Enter | CtrlC | CtrlD | EraseLeft | EraseRight | Swap | GoLeft | GoRight | GoHome | GoEnd
    | Older | Newer | KillLine | KillRest | KillWord | Nothing

  /** The key switch, except for escape sequences. */
  function KeyOf(c: char): (k: Key)
    ensures k.Char? ==> k.c == c
  {
    match c as int
    case 13 => Enter
    case 3 => CtrlC
    case 127 => EraseLeft
    case 8 => EraseLeft
    case 4 => CtrlD
    case 20 => Swap
    case 2 => GoLeft
    case 6 => GoRight
    case 16 => Older
    case 14 => Newer
    case 21 => KillLine
    case 11 => KillRest
    case 1 => GoHome
    case 5 => GoEnd
    case 12 => Nothing
    case 23 => KillWord
    case _ => Char(c)
  }

  function ArrowKey(c: char): Key {
    match c
    case 'A' => Older
    case 'B' => Newer
    case 'C' => GoRight
    case 'D' => GoLeft
    case 'H' => GoHome
    case 'F' => GoEnd
    case _ => Nothing
  }

  const ESC: char := '\U{1B}'

  /** The key at the head of the input and how many bytes it takes; a sequence cut off
      by the end of the input means nothing. */
  function Decode(input: string): (r: (Key, nat))
    requires input != ""
    ensures 1 <= r.1 <= |input|
  {
    if input[0] != ESC then (KeyOf(input[0]), 1)
    else if |input| < 3 then (Nothing, |input|)
    else if input[1] != '[' then (Nothing, 3)
    else if '0' <= input[2] <= '9' then
      if |input| < 4 then (Nothing, 3)
      else (if input[3] == '~' && input[2] == '3' then EraseRight else Nothing, 4)
    else (ArrowKey(input[2]), 3)
  }

  function ApplyToLine(l: Line, k: Key, cap: nat): Line {
    match k
    case Char(c) => Insert(l, c, cap)
    case EraseLeft => Backspace(l)
    case EraseRight => Delete(l)
    case Swap => Transpose(l)
    case GoLeft => Left(l)
    case GoRight => Right(l)
    case GoHome => Home(l)
    case GoEnd => End(l)
    case KillLine => Line("", "")
    case KillRest => Line(l.before, "")
    case KillWord => EraseWord(l)
    case CtrlD => Delete(l)
    case _ => l
  }

  /** How the editing of one line ends. */
  datatype Outcome = Accepted | Cancelled | EndOfInput

  /** The entry of the edited line is taken off again. */
  function WithoutLast(entries: seq<string>): seq<string>
    requires entries != []
  {
    entries[..|entries| - 1]
  }

  /** One key: the new session and, for keys that end the editing, how. */
  function Press(s: Session, k: Key, cap: nat): (r: (Session, Option<Outcome>))
    requires Sane(s) && cap > 0
    ensures r.1.None? ==> Sane(r.0)
  {
    match k
    case Enter => (s.(entries := WithoutLast(s.entries)), Some(Accepted))
    case CtrlC => (s, Some(Cancelled))
    case CtrlD =>
      if Whole(s.line) == "" then (s.(entries := WithoutLast(s.entries)), Some(Cancelled))
      else (s.(line := Delete(s.line)), None)
    case Older => (Recall(s, true, cap), None)
    case Newer => (Recall(s, false, cap), None)
    case _ => (s.(line := ApplyToLine(s.line, k, cap)), None)
  }

  function EditAll(s: Session, input: string, cap: nat): (Session, Outcome)
    requires Sane(s) && cap > 0
    decreases |input|
  {
    if input == "" then (s, EndOfInput)
    else
      var (key, used) := Decode(input);
      var (next, end) := Press(s, key, cap);
      if end.Some? then (next, end.value) else EditAll(next, input[used..], cap)
  }

  // ---------- The code ----------

  /** No entry holds a NUL. */
  ghost predicate Clean(entries: seq<string>) {
    forall i :: 0 <= i < |entries| ==> '\0' !in entries[i]
  }

  class Editor {
    const buf: array<char>
    const cap: nat
    const history: History
    var pos: nat
    var len: nat
    var index: nat

    ghost predicate LineValid()
      reads this, buf
    {
      && cap > 0 && buf.Length == cap + 1 && pos <= len <= cap
      && buf[len] == '\0'
      && forall i :: 0 <= i < len ==> buf[i] != '\0'
    }

    ghost function View(): Line
      reads this, buf
      requires LineValid()
    {
      Line(buf[..pos], buf[pos..len])
    }

    ghost predicate Valid()
      reads this, buf, history, history.slots
    {
      LineValid() && history.Valid() && index < history.count && Clean(history.Entries())
    }

    ghost function State(): Session
      reads this, buf, history, history.slots
      requires Valid()
    {
      Session(View(), history.Entries(), index)
    }

    /** The set-up at the head of `linenoiseEdit`, for a buffer of `size` characters. */
    constructor (size: nat, history: History)
      requires size > 1 && history.Valid() && Clean(history.Entries())
      modifies history`count, history.slots
      ensures Valid() && fresh(buf) && cap == size - 1 && this.history == history
      ensures State() == Session(Line("", ""), Added(old(history.Entries()), "", history.maxLen), 0)
    {
      buf := new char[size](_ => '\0');
      cap := size - 1;
      this.history := history;
      pos, len, index := 0, 0, 0;
      new;
      var added := history.Add("");
    }

    /** `memmove` within the buffer. */
    method Move(to: nat, from: nat, n: nat)
      requires to + n <= buf.Length && from + n <= buf.Length
      modifies buf
      ensures forall k :: to <= k < to + n ==> buf[k] == old(buf[k - to + from])
      ensures forall k :: 0 <= k < buf.Length && !(to <= k < to + n) ==> buf[k] == old(buf[k])
    {
      forall k | to <= k < to + n {
        buf[k] := buf[k - to + from];
      }
    }

    /** `linenoiseEditInsert`. */
    method EditInsert(c: char)
      requires LineValid() && c != '\0'
      modifies this`pos, this`len, buf
      ensures LineValid() && View() == Insert(old(View()), c, cap)
    {
      if len < cap {
        if len == pos {
          ghost var was := buf[..len];
          buf[pos] := c;
          pos := pos + 1;
          len := len + 1;
          buf[len] := '\0';
          assert buf[..pos] == was + [c];
        } else {
          InsertInside(c);
        }
      }
    }

    /** Insertion before the end of the line. */
    method InsertInside(c: char)
      requires LineValid() && c != '\0' && pos < len < cap
      modifies this`pos, this`len, buf
      ensures LineValid() && View() == Line(old(View()).before + [c], old(View()).after)
    {
      ghost var was := View();
      Move(pos + 1, pos, len - pos);
      assert buf[pos + 1..len + 1] == was.after;
      buf[pos] := c;
      len := len + 1;
      pos := pos + 1;
      buf[len] := '\0';
      assert buf[..pos] == was.before + [c];
      assert buf[pos..len] == was.after;
    }

    /** `linenoiseEditBackspace`. */
    method EditBackspace()
      requires LineValid()
      modifies this`pos, this`len, buf
      ensures LineValid() && View() == Backspace(old(View()))
      ensures pos == if old(pos) > 0 then old(pos) - 1 else 0
    {
      if pos > 0 && len > 0 {
        ghost var was := View();
        Move(pos - 1, pos, len - pos);
        pos := pos - 1;
        len := len - 1;
        buf[len] := '\0';
        assert buf[..pos] == was.before[..pos];
        assert buf[pos..len] == was.after;
      }
    }

    /** `linenoiseEditDelete`. */
    method EditDelete()
      requires LineValid()
      modifies this`len, buf
      ensures LineValid() && View() == Delete(old(View()))
    {
      if len > 0 && pos < len {
        ghost var was := View();
        Move(pos, pos + 1, len - pos - 1);
        assert buf[pos..len - 1] == was.after[1..];
        len := len - 1;
        buf[len] := '\0';
        assert buf[..pos] == was.before;
        assert buf[pos..len] == was.after[1..];
      }
    }

    method EditMoveLeft()
      requires LineValid()
      modifies this`pos
      ensures LineValid() && View() == Left(old(View()))
    {
      if pos > 0 {
        pos := pos - 1;
        assert buf[pos..len] == [buf[pos]] + buf[pos + 1..len];
      }
    }

    method EditMoveRight()
      requires LineValid()
      modifies this`pos
      ensures LineValid() && View() == Right(old(View()))
    {
      if pos != len {
        pos := pos + 1;
        assert buf[..pos] == buf[..pos - 1] + [buf[pos - 1]];
      }
    }

    method EditMoveHome()
      requires LineValid()
      modifies this`pos
      ensures LineValid() && View() == Home(old(View()))
    {
      assert buf[..pos] + buf[pos..len] == buf[..len];
      if pos != 0 { pos := 0; }
    }

    method EditMoveEnd()
      requires LineValid()
      modifies this`pos
      ensures LineValid() && View() == End(old(View()))
    {
      assert buf[..pos] + buf[pos..len] == buf[..len];
      if pos != len { pos := len; }
    }

    /** Control-T. */
    method EditTranspose()
      requires LineValid()
      modifies this`pos, buf
      ensures LineValid() && View() == Transpose(old(View()))
    {
      if pos > 0 && pos < len {
        ghost var was := View();
        var aux := buf[pos - 1];
        buf[pos - 1] := buf[pos];
        buf[pos] := aux;
        assert buf[..pos] == Init(was.before) + [was.after[0]];
        assert buf[pos..len] == [Last(was.before)] + was.after[1..];
        if pos != len - 1 { EditMoveRight(); }
      }
    }

    /** Control-U. */
    method EditKillLine()
      requires LineValid()
      modifies this`pos, this`len, buf
      ensures LineValid() && View() == Line("", "")
    {
      buf[0] := '\0';
      pos, len := 0, 0;
    }

    /** Control-K. */
    method EditKillRest()
      requires LineValid()
      modifies this`len, buf
      ensures LineValid() && View() == Line(old(View()).before, "")
    {
      buf[pos] := '\0';
      len := pos;
      assert buf[..pos] == old(View()).before;
    }

    /** Control-W: both loops shorten the text before the cursor. */
    method EditEraseWord()
      requires LineValid()
      modifies this`pos, this`len, buf
      ensures LineValid() && View() == EraseWord(old(View()))
    {
      EraseSpaces();
      EraseLetters();
    }

    method EraseSpaces()
      requires LineValid()
      modifies this`pos, this`len, buf
      ensures LineValid() && View() == Line(DropSpaces(old(View()).before), old(View()).after)
    {
      ghost var was := View();
      while pos > 0 && buf[pos - 1] == ' '
        invariant LineValid() && View().after == was.after
        invariant DropSpaces(View().before) == DropSpaces(was.before)
        decreases pos
      {
        EditBackspace();
      }
    }

    method EraseLetters()
      requires LineValid()
      modifies this`pos, this`len, buf
      ensures LineValid() && View() == Line(DropWord(old(View()).before), old(View()).after)
    {
      ghost var was := View();
      while pos > 0 && buf[pos - 1] != ' '
        invariant LineValid() && View().after == was.after
        invariant DropWord(View().before) == DropWord(was.before)
        decreases pos
      {
        EditBackspace();
      }
    }

    /** Saving the line shown to its history entry. */
    method SaveLine()
      requires Valid()
      modifies history.slots
      ensures Valid() && State() == old(State()).(entries := Saved(old(State())))
    {
      assert Whole(View()) == buf[..len];
      history.slots[history.count - 1 - index] := buf[..len];
    }

    /** `linenoiseEditHistoryNext`; `older` is its direction 1. */
    method EditHistoryNext(older: bool)
      requires Valid()
      modifies this, buf, history.slots
      ensures Valid() && State() == Recall(old(State()), older, cap)
    {
      if history.count > 1 {
        SaveLine();
        var next: int := if older then index + 1 else index - 1;
        if next < 0 {
          index := 0;
          return;
        }
        if next >= history.count {
          index := history.count - 1;
          return;
        }
        Show(next);
      }
    }

    /** The entry `next` back from the newest becomes the line. */
    method Show(next: nat)
      requires Valid() && next < history.count
      modifies this, buf
      ensures Valid() && State() == Shown(old(history.Entries()), next, cap)
    {
      index := next;
      ghost var entries := history.Entries();
      assert history.slots[history.count - 1 - next] == entries[history.count - 1 - next];
      SetLine(history.slots[history.count - 1 - next]);
      assert history.Entries() == entries;
    }

    /** `strncpy` of `text` over the line, the forced terminator and `strlen`. */
    method SetLine(text: string)
      requires cap > 0 && buf.Length == cap + 1 && '\0' !in text
      modifies this`pos, this`len, buf
      ensures LineValid() && View() == Line(Take(text, cap - 1), "")
    {
      forall i | 0 <= i < cap {
        buf[i] := if i < |text| then text[i] else '\0';
      }
      buf[cap - 1] := '\0';
      ghost var shown := Take(text, cap - 1);
      assert forall i :: 0 <= i < |shown| ==> buf[i] == shown[i] && shown[i] in text;
      len := 0;
      while buf[len] != '\0'
        modifies this`len
        invariant 0 <= len <= |shown| <= cap - 1
        decreases |shown| - len
      {
        len := len + 1;
      }
      pos := len;
      assert buf[..pos] == shown;
    }

    /** The keys that concern only the line. */
    method PressLineKey(key: Key)
      requires LineValid() && key != Char('\0')
      modifies this`pos, this`len, buf
      ensures LineValid() && (key != CtrlD ==> View() == ApplyToLine(old(View()), key, cap))
    {
      match key {
        case Char(c) => EditInsert(c);
        case EraseLeft => EditBackspace();
        case EraseRight => EditDelete();
        case Swap => EditTranspose();
        case KillLine => EditKillLine();
        case KillRest => EditKillRest();
        case KillWord => EditEraseWord();
        case _ => PressMove(key);
      }
    }

    method PressMove(key: Key)
      requires LineValid()
      modifies this`pos
      ensures LineValid()
      ensures key in {GoLeft, GoRight, GoHome, GoEnd} ==> View() == ApplyToLine(old(View()), key, cap)
      ensures key !in {GoLeft, GoRight, GoHome, GoEnd} ==> View() == old(View())
    {
      match key {
        case GoRight => EditMoveRight();
        case GoLeft => EditMoveLeft();
        case GoHome => EditMoveHome();
        case GoEnd => EditMoveEnd();
        case _ =>
      }
    }

    /** Enter, control-C and control-D. */
    method PressEndingKey(key: Key) returns (end: Option<Outcome>)
      requires Valid() && key in {Enter, CtrlC, CtrlD}
      modifies this`len, buf, history`count
      ensures LineValid() && history.Valid() && (end.None? ==> Valid())
      ensures (Session(View(), history.Entries(), index), end) == Press(old(State()), key, cap)
    {
      end := None;
      if key == Enter {
        PopEntry();
        end := Some(Accepted);
      } else if key == CtrlC {
        end := Some(Cancelled);
      } else if len > 0 {
        assert Whole(View()) == buf[..len];
        EditDelete();
      } else {
        PopEntry();
        end := Some(Cancelled);
      }
    }

    /** The keys that never end the editing. */
    method PressEditingKey(key: Key)
      requires Valid() && key !in {Enter, CtrlC, CtrlD} && key != Char('\0')
      modifies this, buf, history.slots
      ensures Valid() && (State(), None) == Press(old(State()), key, cap)
    {
      if key == Older {
        EditHistoryNext(true);
      } else if key == Newer {
        EditHistoryNext(false);
      } else {
        PressLineKey(key);
      }
    }

    /** One turn of the key loop of `linenoiseEdit` on the bytes still to come. */
    method PressKey(input: string) returns (used: nat, end: Option<Outcome>)
      requires Valid() && input != "" && '\0' !in input
      modifies this, buf, history, history.slots
      ensures used == Decode(input).1 && (end.None? ==> Valid())
      ensures LineValid() && history.Valid() && history.slots == old(history.slots)
      ensures (Session(View(), history.Entries(), index), end) == Press(old(State()), Decode(input).0, cap)
    {
      used, end := 1, None;
      if input[0] == ESC {
        used := PressEscape(input);
      } else {
        var key := KeyOf(input[0]);
        if key in {Enter, CtrlC, CtrlD} { end := PressEndingKey(key); } else { PressEditingKey(key); }
      }
    }

    /** The escape sequences. */
    method PressEscape(input: string) returns (used: nat)
      requires Valid() && input != "" && input[0] == ESC && '\0' !in input
      modifies this, buf, history.slots
      ensures Valid() && used == Decode(input).1
      ensures (State(), None) == Press(old(State()), Decode(input).0, cap)
    {
      if |input| < 3 { return |input|; }
      if input[1] != '[' { return 3; }
      if '0' <= input[2] <= '9' {
        if |input| < 4 { return 3; }
        if input[3] == '~' {
          if input[2] == '3' { EditDelete(); }
        }
        return 4;
      }
      PressEditingKey(ArrowKey(input[2]));
      return 3;
    }

    /** Dropping the entry of the line being edited. */
    method PopEntry()
      requires LineValid() && history.Valid() && history.count > 0
      modifies history`count
      ensures history.Valid() && history.Entries() == WithoutLast(old(history.Entries()))
    {
      history.count := history.count - 1;
    }

    /** `linenoiseEdit` from its key loop on. */
    method Edit(input: string) returns (outcome: Outcome)
      requires Valid() && '\0' !in input
      modifies this, buf, history, history.slots
      ensures LineValid() && history.Valid()
      ensures (Session(View(), history.Entries(), index), outcome) == EditAll(old(State()), input, cap)
    {
      ghost var start := State();
      var rest := input;
      while rest != ""
        invariant Valid() && '\0' !in rest && history.slots == old(history.slots)
        invariant EditAll(start, input, cap) == EditAll(State(), rest, cap)
        decreases |rest|
      {
        var used, end := PressKey(rest);
        if end.Some? { return end.value; }
        forall c | c in rest[used..] ensures c != '\0' { assert c in rest; }
        rest := rest[used..];
      }
      return EndOfInput;
    }
  }

  // ---------- The window shown ----------

  /** The part of the line that `refreshLine` writes: start, length, cursor column. */
  datatype Window = Window(start: nat, len: nat, pos: nat)

  /** The two loops of `refreshLine`; `None` where an unsigned variable would go below
      zero. That happens exactly for a prompt as wide as the screen or wider; else
      the window holds the cursor, fits the screen behind the prompt, starts as far
      left as it can, and ends at the end of the line unless the screen ends first. */
  method RefreshWindow(plen: nat, len: nat, pos: nat, cols: nat) returns (w: Option<Window>)
    requires pos <= len
    ensures w.None? <==> plen >= cols
    ensures w.Some? ==>
              var Window(start, wlen, wpos) := w.value;
              && start + wpos == pos && start + wlen <= len && wpos <= wlen
              && plen + wpos < cols && plen + wlen <= cols
              && (start > 0 ==> plen + wpos + 1 == cols)
              && (start + wlen < len ==> plen + wlen == cols)
  {
    var start: nat, wlen: nat, wpos: nat := 0, len, pos;
    while plen + wpos >= cols
      invariant start + wpos == pos && start + wlen == len && wpos <= wlen
      invariant start > 0 ==> plen + wpos + 1 >= cols
      decreases wpos
    {
      if wpos == 0 { return None; }
      start, wlen, wpos := start + 1, wlen - 1, wpos - 1;
    }
    while plen + wlen > cols
      invariant wpos <= wlen && start + wlen <= len
      invariant start + wlen < len ==> plen + wlen >= cols
      decreases wlen
    {
      wlen := wlen - 1;
    }
    return Some(Window(start, wlen, wpos));
  }

  // ---------- Properties of the keys ----------

  /** Which keys undo which. */
  lemma KeysUndo(l: Line, c: char, cap: nat)
    ensures |Whole(l)| < cap ==> Backspace(Insert(l, c, cap)) == l
    ensures l.before != "" ==> Right(Left(l)) == l && Delete(Left(l)) == Backspace(l)
    ensures l.after != "" ==> Left(Right(l)) == l
  {
    assert Init(l.before + [c]) == l.before;
    if l.before != "" {
      assert Init(l.before) + [Last(l.before)] == l.before;
      assert ([Last(l.before)] + l.after)[1..] == l.after;
    }
    if l.after != "" {
      assert [l.after[0]] + l.after[1..] == l.after;
      assert Init(l.before + [l.after[0]]) == l.before;
    }
  }

  /** Moving the cursor leaves the text alone. */
  lemma MovesKeepText(l: Line)
    ensures Whole(Left(l)) == Whole(Right(l)) == Whole(Home(l)) == Whole(End(l)) == Whole(l)
  {
    RightKeepsText(l);
  }

  /** Transposing swaps the two characters around the cursor and nothing else, and
      steps over them unless the second is the last. */
  lemma TransposeSwaps(l: Line)
    requires l.before != "" && l.after != ""
    ensures var p, s := |l.before|, Whole(l);
            && Whole(Transpose(l)) == s[p - 1 := s[p]][p := s[p - 1]]
            && |Transpose(l).before| == if p + 1 < |s| then p + 1 else p
  {
    var p, s := |l.before|, Whole(l);
    var swapped := Line(Init(l.before) + [l.after[0]], [Last(l.before)] + l.after[1..]);
    RightKeepsText(swapped);
    assert s[p - 1] == Last(l.before) && s[p] == l.after[0];
    assert Whole(swapped) == s[p - 1 := s[p]][p := s[p - 1]];
  }

  /** Going one entry back and forward again returns to the line, with the cursor at
      its end, exactly when the line is shorter than the buffer; a full line comes
      back without its last character. */
  lemma {:induction false} RecallReturns(s: Session, cap: nat)
    requires Sane(s) && cap > 0 && |Whole(s.line)| <= cap && s.index + 1 < |s.entries|
    ensures var r := Recall(Recall(s, true, cap), false, cap);
            r.index == s.index && r.line == End(Line(Take(Whole(s.line), cap - 1), "")) &&
            (Whole(r.line) == Whole(s.line) <==> |Whole(s.line)| < cap)
  {
    var n, i := |s.entries|, s.index;
    var saved := s.entries[n - 1 - i := Whole(s.line)];
    var back := Recall(s, true, cap);
    assert back.index == i + 1 && back.entries == saved;
    var again := saved[n - 2 - i := Whole(back.line)];
    assert again[n - 1 - i] == Whole(s.line);
    var shown := Take(Whole(s.line), cap - 1);
    assert shown + "" == shown;
    assert |shown| == if |Whole(s.line)| < cap then |Whole(s.line)| else cap - 1;
  }

  lemma RightKeepsText(l: Line)
    ensures Whole(Right(l)) == Whole(l)
  {
  }

  /** Erasing a word removes a run of spaces and, before it, a run of other characters,
      each as long as possible. */
  lemma {:induction false} EraseWordIs(l: Line) returns (kept: string, word: string, spaces: string)
    ensures l.before == kept + word + spaces && EraseWord(l) == Line(kept, l.after)
    ensures (forall c :: c in spaces ==> c == ' ') && forall c :: c in word ==> c != ' '
    ensures kept != "" ==> word != "" && Last(kept) == ' '
    ensures word != "" || kept + spaces == spaces
  {
    var s := DropSpaces(l.before);
    kept := DropWord(s);
    SpacesDropped(l.before);
    WordDropped(s);
    word, spaces := s[|kept|..], l.before[|s|..];
  }

  lemma {:induction false} SpacesDropped(s: string)
    ensures var r := DropSpaces(s);
            r <= s && (forall c :: c in s[|r|..] ==> c == ' ') && (r != "" ==> Last(r) != ' ')
  {
    if s != "" && Last(s) == ' ' {
      SpacesDropped(Init(s));
      var r := DropSpaces(s);
      assert s[|r|..] == Init(s)[|r|..] + [' '];
    }
  }

  lemma {:induction false} WordDropped(s: string)
    ensures var r := DropWord(s);
            r <= s && (forall c :: c in s[|r|..] ==> c != ' ') && (r != "" ==> Last(r) == ' ')
  {
    if s != "" && Last(s) != ' ' {
      WordDropped(Init(s));
      var r := DropWord(s);
      assert s[|r|..] == Init(s)[|r|..] + [Last(s)];
    }
  }

  /** Whatever is typed, the line never outgrows the buffer. */
  lemma {:induction false} LineStaysWithin(s: Session, input: string, cap: nat)
    requires Sane(s) && cap > 0 && |Whole(s.line)| <= cap
    ensures |Whole(EditAll(s, input, cap).0.line)| <= cap
    decreases |input|
  {
    if input != "" {
      var (key, used) := Decode(input);
      var (next, end) := Press(s, key, cap);
      PressStaysWithin(s, key, cap);
      if end.None? { LineStaysWithin(next, input[used..], cap); }
    }
  }

  lemma PressStaysWithin(s: Session, key: Key, cap: nat)
    requires Sane(s) && cap > 0 && |Whole(s.line)| <= cap
    ensures |Whole(Press(s, key, cap).0.line)| <= cap
  {
    if key.KillWord? {
      SpacesDropped(s.line.before);
      WordDropped(DropSpaces(s.line.before));
    }
  }
}
