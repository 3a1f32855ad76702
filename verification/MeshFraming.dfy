/**
 Newline framing of mesh messages (agent_mesh.c): the receive loop shared by the
 server and the client worker.
 */
module MeshFraming {
  import opened Text

  /** The lines of a stream, without their newlines, and the unfinished rest. */
  function SplitLines(s: string): (r: (seq<string>, string))
    ensures |r.1| <= |s|
    decreases |s|
  {
    match SplitAt(s, "\n")
    case None => ([], s)
    case Some((line, rest)) =>
      var (lines, tail) := SplitLines(rest);
      ([line] + lines, tail)
  }

  function JoinLines(lines: seq<string>, tail: string): string {
    if lines == [] then tail else lines[0] + ("\n" + JoinLines(lines[1..], tail))
  }

  lemma NewlineIsSound()
    ensures Unbordered("\n")
  {
  }

  lemma NoNewline(s: string)
    ensures Contains(s, "\n") <==> '\n' in s
  {
    if i :| 0 <= i < |s| && s[i] == '\n' { assert At(s, "\n", i); }
    if Contains(s, "\n") {
      var i :| At(s, "\n", i);
      assert s[i..i + 1][0] == s[i];
    }
  }

  /** The first line, when it is known where its newline is. */
  lemma SplitFirst(line: string, rest: string)
    requires '\n' !in line
    ensures SplitAt(line + ("\n" + rest), "\n") == Some((line, rest))
  {
    NewlineIsSound();
    NoNewline(line);
    SplitBehind(line, "\n", rest);
  }

  lemma SplitLine(line: string, rest: string)
    requires '\n' !in line
    ensures SplitLines(line + ("\n" + rest)) == ([line] + SplitLines(rest).0, SplitLines(rest).1)
  {
    SplitFirst(line, rest);
  }

  lemma SplitRest(s: string)
    requires '\n' !in s
    ensures SplitLines(s) == ([], s)
  {
    NoNewline(s);
  }

  lemma SplitAtParts(s: string)
    ensures match SplitAt(s, "\n")
            case None => '\n' !in s
            case Some((line, rest)) => s == line + ("\n" + rest) && '\n' !in line
  {
    NoNewline(s);
    match SplitAt(s, "\n")
    case None =>
    case Some((line, rest)) =>
      var i := Find(s, "\n", 0).value;
      assert s[i..i + 1] == "\n";
      assert s == s[..i] + (s[i..i + 1] + s[i + 1..]);
      forall j | 0 <= j < i ensures line[j] != '\n' {
        assert !At(s, "\n", j) && s[j..j + 1] == [s[j]];
      }
  }

  /** Cutting a stream anywhere does not change its lines: the rest of the first part
      simply continues into the second. */
  lemma {:induction false} SplitConcat(a: string, b: string)
    ensures var (l1, t1) := SplitLines(a);
            var (l2, t2) := SplitLines(t1 + b);
            SplitLines(a + b) == (l1 + l2, t2)
    decreases |a|
  {
    SplitAtParts(a);
    match SplitAt(a, "\n")
    case None =>
      SplitRest(a);
      assert [] + SplitLines(a + b).0 == SplitLines(a + b).0;
    case Some((line, rest)) =>
      SplitBoth(a, line, rest, b);
      SplitConcat(rest, b);
      ConsConcat(line, SplitLines(rest).0, SplitLines(SplitLines(rest).1 + b).0);
  }

  lemma SplitBoth(a: string, line: string, rest: string, b: string)
    requires '\n' !in line && a == line + ("\n" + rest)
    ensures SplitLines(a) == ([line] + SplitLines(rest).0, SplitLines(rest).1)
    ensures SplitLines(a + b) == ([line] + SplitLines(rest + b).0, SplitLines(rest + b).1)
  {
    SplitLine(line, rest);
    SplitLine(line, rest + b);
    Reassociate(line, "\n", rest, b);
  }

  lemma Reassociate(x: string, y: string, z: string, b: string)
    ensures (x + (y + z)) + b == x + (y + (z + b))
  {
  }

  lemma ConsConcat<T>(x: T, a: seq<T>, b: seq<T>)
    ensures [x] + (a + b) == ([x] + a) + b
  {
  }

  /** Sending newline-free messages, each with a newline, and splitting the stream
      gives the messages back; for other messages it never does. */
  lemma {:induction false} FramesRoundTrip(messages: seq<string>)
    ensures SplitLines(JoinLines(messages, "")) == (messages, "") <==> forall m :: m in messages ==> '\n' !in m
    decreases |messages|
  {
    if messages == [] {
      SplitRest("");
    } else {
      var m, more := messages[0], messages[1..];
      var rest := JoinLines(more, "");
      assert messages == [m] + more;
      if '\n' in m {
        NewlineIsSound();
        NoNewline(m);
        SplitBehind(m, "\n", rest);
        var (lines, _) := SplitLines(JoinLines(messages, ""));
        assert lines[0] != m;
      } else {
        SplitLine(m, rest);
        FramesRoundTrip(more);
        ConsEqual(m, SplitLines(rest).0, m, more);
        assert forall x :: x in messages <==> x == m || x in more;
      }
    }
  }

  /** Reads processed one after the other, each on what the one before left over. */
  function Feed(pending: string, chunks: seq<string>): (seq<string>, string)
    decreases |chunks|
  {
    if chunks == [] then ([], pending)
    else
      var (l1, t1) := SplitLines(pending + chunks[0]);
      var (l2, t2) := Feed(t1, chunks[1..]);
      (l1 + l2, t2)
  }

  /** Reassembly is independent of chunking. */
  lemma {:induction false} FeedIsSplit(pending: string, chunks: seq<string>)
    requires '\n' !in pending
    ensures Feed(pending, chunks) == SplitLines(pending + Concat(chunks))
    decreases |chunks|
  {
    if chunks == [] {
      assert pending + "" == pending;
      SplitRest(pending);
    } else {
      var a, b := pending + chunks[0], Concat(chunks[1..]);
      ConcatFirst(chunks);
      assert pending + Concat(chunks) == a + b;
      SplitConcat(a, b);
      TailIsUnfinished(a);
      FeedIsSplit(SplitLines(a).1, chunks[1..]);
    }
  }

  lemma {:induction false} TailIsUnfinished(s: string)
    ensures '\n' !in SplitLines(s).1
    decreases |s|
  {
    SplitAtParts(s);
    if SplitAt(s, "\n").Some? { TailIsUnfinished(SplitAt(s, "\n").value.1); }
  }

  // ---------- Joining ----------

  lemma {:induction false} JoinConcat(a: seq<string>, b: seq<string>, tail: string)
    ensures JoinLines(a + b, tail) == JoinLines(a, JoinLines(b, tail))
    decreases |a|
  {
    if a == [] {
      assert a + b == b;
    } else {
      assert (a + b)[1..] == a[1..] + b;
      JoinConcat(a[1..], b, tail);
    }
  }

  lemma JoinSnoc(a: seq<string>, line: string, rest: string)
    ensures JoinLines(a + [line], rest) == JoinLines(a, line + ("\n" + rest))
  {
    JoinConcat(a, [line], rest);
    assert JoinLines([line], rest) == line + ("\n" + JoinLines([line][1..], rest));
  }

  lemma {:induction false} JoinExtend(a: seq<string>, tail: string, more: string)
    ensures JoinLines(a, tail) + more == JoinLines(a, tail + more)
    decreases |a|
  {
    if a != [] {
      JoinExtend(a[1..], tail, more);
      var rest := JoinLines(a[1..], tail);
      assert a[0] + ("\n" + rest) + more == a[0] + ("\n" + (rest + more));
    }
  }

  /** Newline-free lines and rest are exactly what their join splits into. */
  lemma {:induction false} SplitJoined(lines: seq<string>, tail: string)
    requires '\n' !in tail && forall l :: l in lines ==> '\n' !in l
    ensures SplitLines(JoinLines(lines, tail)) == (lines, tail)
    decreases |lines|
  {
    if lines == [] {
      SplitRest(tail);
    } else {
      var rest := JoinLines(lines[1..], tail);
      SplitLine(lines[0], rest);
      SplitJoined(lines[1..], tail);
      assert [lines[0]] + lines[1..] == lines;
    }
  }

  // ---------- The receive buffer ----------

  const BUF_SIZE: nat := 4096
  /** `sizeof(buf) - 1`: what the buffer holds besides its terminator. */
  const ROOM: nat := 4095

  /** Every line fits the buffer together with its newline, and so does the rest. */
  ghost predicate Fits(s: string) {
    var (lines, tail) := SplitLines(s);
    |tail| <= 4095 && forall l :: l in lines ==> |l| < 4095
  }

  /** Lines as the buffer can deliver them. */
  ghost predicate Complete(lines: seq<string>) {
    forall l :: l in lines ==> '\n' !in l && |l| < ROOM
  }

  /** `text` is this line, its newline and the rest. */
  ghost predicate IsFirstLine(line: string, rest: string, text: string) {
    '\n' !in line && |line| < ROOM && text == line + ("\n" + rest)
  }

  lemma CutAt(text: string, n: nat)
    requires n < |text| && n < ROOM && text[n] == '\n' && forall k :: 0 <= k < n ==> text[k] != '\n'
    ensures IsFirstLine(text[..n], text[n + 1..], text)
  {
    assert text == text[..n] + ([text[n]] + text[n + 1..]);
  }

  lemma OneMoreLine(got: seq<string>, line: string, rest: string, text: string)
    requires Complete(got) && IsFirstLine(line, rest, text)
    ensures Complete(got + [line]) && JoinLines(got, text) == JoinLines(got + [line], rest)
    ensures |rest| < |text|
  {
    JoinSnoc(got, line, rest);
  }

  lemma NoNulParts(left: string, n: nat, seen: string)
    requires n <= |left| && '\0' !in left
    ensures '\0' !in left[..n] && '\0' !in left[n..]
    ensures (seen + left[..n]) + left[n..] == seen + left
  {
    assert left == left[..n] + left[n..];
  }

  /** A read continues the stream read so far. */
  lemma JoinRead(before: seq<string>, pending: string, chunk: string, got: seq<string>, tail: string)
    requires Complete(before) && Complete(got) && pending + chunk == JoinLines(got, tail)
    ensures Complete(before + got)
    ensures JoinLines(before, pending) + chunk == JoinLines(before + got, tail)
  {
    JoinExtend(before, pending, chunk);
    JoinConcat(before, got, tail);
  }

  class Receiver {
    const buf: array<char>
    var pos: nat
    /** Lines handed to `mesh_handle_incoming_line`. */
    var delivered: seq<string>

    ghost predicate Valid()
      reads this, buf
    {
      && buf.Length == BUF_SIZE && pos <= ROOM
      && '\n' !in buf[..pos] && '\0' !in buf[..pos]
    }

    ghost function Pending(): string
      reads this, buf
      requires Valid()
    {
      buf[..pos]
    }

    constructor ()
      ensures Valid() && Pending() == "" && delivered == [] && fresh(buf)
    {
      buf := new char[BUF_SIZE](_ => '\0');
      pos, delivered := 0, [];
    }

    /** One successful read of at least one byte and no more than the room left. */
    method OnRead(chunk: string) returns (ghost got: seq<string>)
      requires Valid() && 0 < |chunk| <= ROOM - pos && '\0' !in chunk
      modifies this, buf
      ensures Valid() && delivered == old(delivered) + got
      ensures SplitLines(old(Pending()) + chunk) == (got, Pending())
      ensures Complete(got) && old(Pending()) + chunk == JoinLines(got, Pending())
    {
      ghost var input := Pending() + chunk;
      Fill(chunk);
      var lineStart;
      ghost var tail;
      lineStart, got, tail := TakeLines(input);
      if lineStart > 0 { MoveDown(lineStart, tail); }
      assert buf[..pos] == tail;
      SplitJoined(got, tail);
    }

    /** The bytes read go behind those pending. */
    method Fill(chunk: string)
      requires Valid() && |chunk| <= ROOM - pos && '\0' !in chunk
      modifies this`pos, buf
      ensures Rest(0, old(Pending()) + chunk)
    {
      forall k | pos <= k < pos + |chunk| {
        buf[k] := chunk[k - pos];
      }
      pos := pos + |chunk|;
      buf[pos] := '\0';
    }

    /** The C string at `from` is `text` and ends where the input does. */
    ghost predicate Rest(from: nat, text: string)
      reads this`pos, buf
    {
      && buf.Length == BUF_SIZE && from + |text| == pos <= ROOM && buf[pos] == '\0'
      && forall k :: 0 <= k < |text| ==> buf[from + k] == text[k] && text[k] != '\0'
    }

    /** The loop over the newlines found; returns the start of the unfinished rest. */
    method TakeLines(ghost input: string) returns (lineStart: nat, ghost got: seq<string>, ghost tail: string)
      requires Rest(0, input)
      modifies buf, this`delivered
      ensures Rest(lineStart, tail) && '\n' !in tail
      ensures delivered == old(delivered) + got && Complete(got)
      ensures input == JoinLines(got, tail)
    {
      lineStart, got, tail := 0, [], input;
      while true
        modifies buf, this`delivered
        invariant Rest(lineStart, tail)
        invariant delivered == old(delivered) + got && Complete(got)
        invariant input == JoinLines(got, tail)
        decreases |tail|
      {
        var line, next;
        ghost var rest;
        line, next, rest := TakeLine(lineStart, tail);
        if line.None? { return; }
        OneMoreLine(got, line.value, rest, tail);
        delivered, got := delivered + [line.value], got + [line.value];
        lineStart, tail := next, rest;
      }
    }

    /** The next line, cut off in place. */
    method TakeLine(from: nat, ghost text: string) returns (line: Option<string>, next: nat, ghost rest: string)
      requires Rest(from, text)
      modifies buf
      ensures line.None? ==> '\n' !in text && Rest(from, text)
      ensures line.Some? ==> Rest(next, rest) && IsFirstLine(line.value, rest, text)
    {
      var newline := FindNewline(from, text);
      next, rest := newline + 1, "";
      if newline == pos { return None, next, rest; }
      ghost var n := newline - from;
      line, rest := Some(buf[from..newline]), text[n + 1..];
      assert line.value == text[..n];
      CutAt(text, n);
      buf[newline] := '\0';
    }

    /** `strchr(line_start, '\n')`, or the end of the text in place of NULL. */
    method FindNewline(from: nat, ghost text: string) returns (i: nat)
      requires Rest(from, text)
      ensures from <= i <= pos
      ensures forall k :: 0 <= k < i - from ==> text[k] != '\n'
      ensures i < pos ==> text[i - from] == '\n'
    {
      i := from;
      while buf[i] != '\n' && buf[i] != '\0'
        invariant from <= i <= pos
        invariant forall k :: 0 <= k < i - from ==> text[k] != '\n'
        invariant i < pos ==> buf[i] == text[i - from] != '\0'
        decreases pos - i
      {
        i := i + 1;
        assert i < pos ==> buf[from + (i - from)] == text[i - from];
      }
    }

    /** The `memmove` to the front of the buffer. */
    method MoveDown(from: nat, ghost text: string)
      requires Rest(from, text)
      modifies this`pos, buf
      ensures Rest(0, text)
    {
      var remaining := pos - from;
      forall i | 0 <= i < remaining {
        buf[i] := buf[from + i];
      }
      pos := remaining;
      buf[pos] := '\0';
    }

    /** The connection loop of the workers over the bytes the peer sends, under every
        choice of read sizes. A read into a full buffer returns nothing and ends the
        connection: that happens exactly when some line does not fit. */
    method Serve(stream: string) returns (left: string)
      requires Valid() && Pending() == "" && delivered == [] && '\0' !in stream
      modifies this, buf
      ensures Valid() && |left| <= |stream| && left == stream[|stream| - |left|..]
      ensures SplitLines(stream[..|stream| - |left|]) == (delivered, Pending())
      ensures left == "" <==> Fits(stream)
    {
      ghost var seen;
      left, seen := ReadUntilFull(stream);
      SplitJoined(delivered, Pending());
      assert seen == stream[..|stream| - |left|];
      if left == "" {
        FitsJoined(delivered, Pending());
        assert seen == stream;
      } else {
        StreamTooLong(delivered, Pending(), left);
      }
    }

    method ReadUntilFull(stream: string) returns (left: string, ghost seen: string)
      requires Valid() && Pending() == "" && delivered == [] && '\0' !in stream
      modifies this, buf
      ensures Valid() && seen + left == stream
      ensures Complete(delivered) && seen == JoinLines(delivered, Pending())
      ensures left != "" ==> pos == ROOM
    {
      left, seen := stream, "";
      while left != ""
        invariant seen + left == stream && Valid() && '\0' !in left
        invariant Complete(delivered) && seen == JoinLines(delivered, Pending())
        decreases |left|
      {
        var room := ROOM - pos;
        if room == 0 { return; }
        var n :| 1 <= n <= room && n <= |left|;
        left, seen := ReadSome(left, n, seen);
      }
    }

    /** One read of `n` bytes off the stream. */
    method ReadSome(left: string, n: nat, ghost seen: string) returns (rest: string, ghost seen': string)
      requires Valid() && 1 <= n <= ROOM - pos && n <= |left| && '\0' !in left
      requires Complete(delivered) && seen == JoinLines(delivered, Pending())
      modifies this, buf
      ensures Valid() && |rest| < |left| && seen' + rest == seen + left && '\0' !in rest
      ensures Complete(delivered) && seen' == JoinLines(delivered, Pending())
    {
      var chunk := left[..n];
      NoNulParts(left, n, seen);
      ghost var before, pending := delivered, Pending();
      ghost var got := OnRead(chunk);
      JoinRead(before, pending, chunk, got, Pending());
      return left[n..], seen + chunk;
    }
  }

  lemma FitsJoined(lines: seq<string>, tail: string)
    requires Complete(lines) && '\n' !in tail && |tail| <= ROOM
    ensures Fits(JoinLines(lines, tail))
  {
    SplitJoined(lines, tail);
  }

  /** A full buffer without a newline, and more to come, means an oversized line. */
  lemma {:induction false} StreamTooLong(lines: seq<string>, tail: string, left: string)
    requires Complete(lines) && '\n' !in tail && |tail| == ROOM && left != ""
    ensures !Fits(JoinLines(lines, tail) + left)
  {
    var more := tail + left;
    JoinExtend(lines, tail, left);
    SplitAtParts(more);
    match SplitAt(more, "\n")
    case None =>
      SplitJoined(lines, more);
    case Some((line, rest)) =>
      assert more[|line|] == '\n';
      assert forall i :: 0 <= i < ROOM ==> more[i] == tail[i] && tail[i] in tail;
      var (l2, t2) := SplitLines(rest);
      JoinedAgain(rest);
      JoinConcat(lines, [line] + l2, t2);
      assert ([line] + l2)[1..] == l2;
      SplitJoined(lines + ([line] + l2), t2);
      assert (lines + ([line] + l2))[|lines|] == line;
  }

  /** Splitting and joining a stream gives it back. */
  lemma {:induction false} JoinedAgain(s: string)
    ensures var (lines, tail) := SplitLines(s);
            JoinLines(lines, tail) == s && '\n' !in tail && forall l :: l in lines ==> '\n' !in l
    decreases |s|
  {
    SplitAtParts(s);
    match SplitAt(s, "\n")
    case None =>
    case Some((line, rest)) =>
      JoinedAgain(rest);
      var (lines, tail) := SplitLines(rest);
      assert ([line] + lines)[1..] == lines;
  }
}
