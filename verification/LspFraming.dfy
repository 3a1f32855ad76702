/**
 Content-Length framing of lsp_client.c, the header part of the base protocol of the
 Language Server Protocol.
 */
module LspFraming {
  import opened Text
  import opened Decimal
  import opened Machine

  const MAX_CONTENT: nat := 10485760
  const HEADER_BUF: nat := 1024

  /** The wording of the header and the blank line that ends it. */
  datatype Protocol = Protocol(field: string, altField: string, blank: string)

  const LSP: Protocol := Protocol("Content-Length:", "content-length:", "\r\n\r\n")

  // ---------- Sending ----------

  function Header(n: nat, p: Protocol): string {
    p.field + (" " + (Numeral(n) + p.blank))
  }

  function Frame(payload: string, p: Protocol): string {
    Header(|payload|, p) + payload
  }

  /** A pipe: what has been written and not yet read. */
  class Pipe {
    var data: string

    constructor (data: string)
      ensures this.data == data
    {
      this.data := data;
    }
  }

  /** What a peer takes of a text when writes fail behind `failAt` bytes. */
  function Sent(text: string, failAt: Option<nat>): string {
    match failAt case None => text case Some(n) => Take(text, n)
  }

  predicate AllSent(text: string, failAt: Option<nat>) {
    failAt.None? || failAt.value >= |text|
  }

  /** `lsp_write_all`: each `write` takes some of what is left, or fails. */
  method WriteAll(pipe: Pipe, text: string, failAt: Option<nat>) returns (ok: bool)
    modifies pipe
    ensures pipe.data == old(pipe.data) + Sent(text, failAt)
    ensures ok <==> AllSent(text, failAt)
  {
    var written := 0;
    while written < |text|
      invariant 0 <= written <= |text| && pipe.data == old(pipe.data) + text[..written]
      invariant failAt.Some? ==> written <= failAt.value
    {
      if failAt.Some? && written == failAt.value { return false; }
      var limit := |Sent(text, failAt)|;
      var n :| 1 <= n <= limit - written;
      assert text[..written] + text[written..written + n] == text[..written + n];
      pipe.data := pipe.data + text[written..written + n];
      written := written + n;
    }
    assert text[..written] == text;
    return true;
  }

  /** `lsp_send_payload`: a frame, or on a failed write the beginning of one. */
  method SendPayload(pipe: Pipe, payload: string, p: Protocol, failAt: Option<nat>) returns (ok: bool)
    modifies pipe
    ensures pipe.data == old(pipe.data) + Sent(Frame(payload, p), failAt)
    ensures ok <==> AllSent(Frame(payload, p), failAt)
  {
    var header := Header(|payload|, p);
    ok := WriteAll(pipe, header, failAt);
    if !ok { return; }
    var later := if failAt.Some? then Some(failAt.value - |header|) else None;
    assert pipe.data == old(pipe.data) + header;
    ok := WriteAll(pipe, payload, later);
    assert Sent(header + payload, failAt) == header + Sent(payload, later);
    assert old(pipe.data) + header + Sent(payload, later) == old(pipe.data) + (header + Sent(payload, later));
  }

  // ---------- Receiving ----------

  /** `s` ends with the blank line. */
  predicate Ends(s: string, p: Protocol) {
    |s| >= |p.blank| && s[|s| - |p.blank|..] == p.blank
  }

  /** How many bytes the header loop reads: up to the first blank line, up to the
      buffer's size, or `None` when the stream ends first. */
  function HeaderEnd(stream: string, pos: nat, p: Protocol): (r: Option<nat>)
    requires pos <= |stream| && pos < HEADER_BUF
    ensures r.Some? ==> pos <= r.value <= |stream| && r.value < HEADER_BUF
    decreases |stream| - pos
  {
    if pos == HEADER_BUF - 1 then Some(pos)
    else if pos == |stream| then None
    else if Ends(stream[..pos + 1], p) then Some(pos + 1)
    else HeaderEnd(stream, pos + 1, p)
  }

  function SkipSpaces(s: string): string {
    if s != "" && s[0] == ' ' then SkipSpaces(s[1..]) else s
  }

  /** `atol` reads past the blanks of the C locale and takes a sign. */
  predicate IsSpace(c: char) {
    c == ' ' || '\t' <= c <= '\r'
  }

  function Atol(s: string): int {
    if s == "" then 0
    else if IsSpace(s[0]) then Atol(s[1..])
    else if s[0] == '-' then -(ReadDigits(s[1..], 0) as int)
    else if s[0] == '+' then ReadDigits(s[1..], 0)
    else ReadDigits(s, 0)
  }

  /** The value of the length field, -1 when there is none. */
  function ContentLength(header: string, p: Protocol): int {
    match SplitAt(header, p.field)
    case Some((_, rest)) => Atol(SkipSpaces(rest))
    case None =>
      match SplitAt(header, p.altField)
      case Some((_, rest)) => Atol(SkipSpaces(rest))
      case None => -1
  }

  /** One receive: the payload (`None` for the NULL results) and what is left unread. */
  function Receive(stream: string, p: Protocol): (Option<string>, string) {
    match HeaderEnd(stream, 0, p)
    case None => (None, "")
    case Some(h) =>
      var n := ContentLength(stream[..h], p);
      if n <= 0 || n > MAX_CONTENT then (None, stream[h..])
      else if |stream| - h < n then (None, "")
      else (Some(stream[h..h + n]), stream[h + n..])
  }

  /** What a wait for input brings: a timeout, the end of the stream, or some bytes. */
  datatype Input = TimedOut | Ended | Bytes(text: string)

  /** `poll` and one short read of at most `want` bytes. */
  method ReadSome(pipe: Pipe, want: nat) returns (r: Input)
    requires want > 0
    modifies pipe
    ensures r.TimedOut? ==> pipe.data == old(pipe.data)
    ensures r.Ended? ==> old(pipe.data) == "" && pipe.data == ""
    ensures r.Bytes? ==> 1 <= |r.text| <= want && |r.text| <= |old(pipe.data)|
                         && r.text == old(pipe.data)[..|r.text|] && pipe.data == old(pipe.data)[|r.text|..]
  {
    var late: bool := *;
    if late { return TimedOut; }
    if pipe.data == "" { return Ended; }
    var n :| 1 <= n <= want && n <= |pipe.data|;
    var chunk := pipe.data[..n];
    pipe.data := pipe.data[n..];
    return Bytes(chunk);
  }

  /** `left` is what a receive on `stream` leaves when it gives up early: it has taken
      less than the whole receive would take, unless nothing more came. */
  ghost predicate CutShort(stream: string, left: string, p: Protocol) {
    && |left| <= |stream| && left == stream[|stream| - |left|..]
    && (left == "" || |Receive(stream, p).1| < |left|)
  }

  lemma CutInHeader(stream: string, k: nat, p: Protocol)
    requires k <= |stream| && k < HEADER_BUF - 1 && HeaderEnd(stream, 0, p) == HeaderEnd(stream, k, p)
    ensures CutShort(stream, stream[k..], p)
  {
    if k < |stream| { assert HeaderEnd(stream, k, p).Some? ==> HeaderEnd(stream, k, p).value > k; }
  }

  /** A receive once the header is read. */
  lemma ReceiveBody(stream: string, h: nat, p: Protocol)
    requires HeaderEnd(stream, 0, p) == Some(h)
    ensures var n, rest := ContentLength(stream[..h], p), stream[h..];
            Receive(stream, p) ==
            if n <= 0 || n > MAX_CONTENT then (None, rest)
            else if |rest| < n then (None, "") else (Some(rest[..n]), rest[n..])
  {
    var n, rest := ContentLength(stream[..h], p), stream[h..];
    if 0 < n <= |rest| {
      assert rest[..n] == stream[h..h + n] && rest[n..] == stream[h + n..];
    }
  }

  lemma CutInBody(stream: string, h: nat, k: nat, p: Protocol)
    requires HeaderEnd(stream, 0, p) == Some(h) && h + k <= |stream|
    requires k < ContentLength(stream[..h], p) <= MAX_CONTENT
    ensures CutShort(stream, stream[h..][k..], p)
  {
    ReceiveBody(stream, h, p);
    assert stream[h..][k..] == stream[h + k..];
  }

  /** `lsp_recv_payload`, under every pattern of short reads and timeouts. A timeout
      leaves the rest of the frame for the next receive. */
  method RecvPayload(pipe: Pipe, p: Protocol) returns (payload: Option<string>, late: bool)
    modifies pipe
    ensures !late ==> (payload, pipe.data) == Receive(old(pipe.data), p)
    ensures late ==> payload == None && CutShort(old(pipe.data), pipe.data, p)
  {
    ghost var stream := pipe.data;
    var header := ReadHeader(pipe, p);
    if header.TimedOut? { return None, true; }
    if header.Ended? { return None, false; }
    var n := ContentLength(header.text, p);
    ghost var h := HeaderEnd(stream, 0, p).value;
    ReceiveBody(stream, h, p);
    if n <= 0 || n > MAX_CONTENT { return None, false; }
    ghost var k;
    var body;
    body, k := ReadBody(pipe, n);
    if body.TimedOut? { CutInBody(stream, h, k, p); }
    return if body.Bytes? then Some(body.text) else None, body.TimedOut?;
  }

  /** The header loop, one byte at a time. */
  method ReadHeader(pipe: Pipe, p: Protocol) returns (header: Input)
    modifies pipe
    ensures header.TimedOut? ==> CutShort(old(pipe.data), pipe.data, p)
    ensures var end := HeaderEnd(old(pipe.data), 0, p);
            && (header.Ended? ==> end.None? && pipe.data == "")
            && (header.Bytes? ==> end.Some? && header.text == old(pipe.data)[..end.value]
                                  && pipe.data == old(pipe.data)[end.value..])
  {
    ghost var stream := pipe.data;
    var text := "";
    while |text| < HEADER_BUF - 1
      invariant |text| < HEADER_BUF && |text| <= |stream|
      invariant text == stream[..|text|] && pipe.data == stream[|text|..]
      invariant HeaderEnd(stream, 0, p) == HeaderEnd(stream, |text|, p)
      decreases HEADER_BUF - |text|
    {
      ghost var pos := |text|;
      var c := ReadSome(pipe, 1);
      if c.TimedOut? { CutInHeader(stream, pos, p); }
      if !c.Bytes? { return c; }
      text := text + c.text;
      assert text == stream[..pos + 1];
      if Ends(text, p) { return Bytes(text); }
    }
    return Bytes(text);
  }

  /** The body loop. */
  method ReadBody(pipe: Pipe, n: nat) returns (body: Input, ghost taken: nat)
    modifies pipe
    ensures taken <= n && taken <= |old(pipe.data)| && pipe.data == old(pipe.data)[taken..]
    ensures body.TimedOut? ==> taken < n
    ensures body.Ended? ==> |old(pipe.data)| < n && pipe.data == ""
    ensures body.Bytes? ==> taken == n && body.text == old(pipe.data)[..n]
  {
    ghost var stream := pipe.data;
    var text := "";
    while |text| < n
      invariant |text| <= n && |text| <= |stream|
      invariant text == stream[..|text|] && pipe.data == stream[|text|..]
      decreases n - |text|
    {
      var chunk := ReadSome(pipe, n - |text|);
      if !chunk.Bytes? { return chunk, |text|; }
      text := text + chunk.text;
    }
    return Bytes(text), n;
  }

  // ---------- The round trip ----------

  /** What the proof needs of the wording: the blank line starts with a character that
      is no digit and occurs neither in the field name nor again before the blank
      line's end, and the header fits the buffer. */
  ghost predicate Sound(p: Protocol) {
    && p.field != "" && |p.blank| == 4
    && p.blank[0] == p.blank[2] == '\r' && p.blank[1] == p.blank[3] == '\n'
    && '\r' !in p.field && '\n' !in p.field && |p.field| <= 64
  }

  lemma LspIsSound()
    ensures Sound(LSP)
  {
  }

  /** Where the blank line is the first, the header loop stops right behind it. */
  lemma {:induction false} HeaderEndIs(stream: string, text: string, pos: nat, p: Protocol)
    requires Sound(p) && '\r' !in text && |text| + 4 < HEADER_BUF && pos < |text| + 4 <= |stream|
    requires stream[..|text|] == text && stream[|text|..|text| + 4] == p.blank
    ensures HeaderEnd(stream, pos, p) == Some(|text| + 4)
    decreases |text| + 4 - pos
  {
    var end := |text| + 4;
    if pos + 1 == end {
      assert stream[..end][|text|..] == p.blank;
    } else {
      NoBlankYet(stream, text, pos, p);
      HeaderEndIs(stream, text, pos + 1, p);
    }
  }

  lemma NoBlankYet(stream: string, text: string, pos: nat, p: Protocol)
    requires Sound(p) && '\r' !in text && pos < |text| + 3 < |stream|
    requires stream[..|text|] == text && stream[|text|..|text| + 4] == p.blank
    ensures !Ends(stream[..pos + 1], p)
  {
    if pos >= 3 {
      var head, i := stream[..pos + 1], pos - 3;
      assert head[i..][0] == stream[i];
      assert i < |text| && stream[i] == text[i] && text[i] in text;
    }
  }

  lemma {:induction false} AtolSkips(s: string)
    ensures Atol(SkipSpaces(s)) == Atol(s)
  {
    if s != "" && s[0] == ' ' { AtolSkips(s[1..]); }
  }

  lemma AtolSigned(sign: string, n: nat, rest: string)
    requires sign == "" || sign == "+" || sign == "-"
    requires rest == "" || !IsDigit(rest[0])
    ensures Atol(sign + (Numeral(n) + rest)) == if sign == "-" then -(n as int) else n
  {
    var number := Numeral(n) + rest;
    var text := sign + number;
    assert number[0] == Numeral(n)[0] && Numeral(n)[0] in Numeral(n);
    ReadNumeral(n, rest);
    if sign == "" { assert text == number; } else { assert text[1..] == number && text[0] == sign[0]; }
  }

  /** A number behind blanks and a sign. */
  lemma {:induction false} AtolBehind(gap: string, sign: string, n: nat, rest: string)
    requires forall c :: c in gap ==> c == ' ' || '\t' <= c <= '\r'
    requires sign == "" || sign == "+" || sign == "-"
    requires rest == "" || !IsDigit(rest[0])
    ensures Atol(gap + (sign + (Numeral(n) + rest))) == if sign == "-" then -(n as int) else n
    decreases |gap|
  {
    var text := sign + (Numeral(n) + rest);
    if gap == "" {
      assert gap + text == text;
      AtolSigned(sign, n, rest);
    } else {
      assert gap[0] in gap && forall c :: c in gap[1..] ==> c in gap;
      assert (gap + text)[1..] == gap[1..] + text;
      AtolBehind(gap[1..], sign, n, rest);
    }
  }

  lemma AtolBehindSpace(n: nat, rest: string)
    requires rest == "" || !IsDigit(rest[0])
    ensures Atol(" " + (Numeral(n) + rest)) == n
  {
    assert "" + (Numeral(n) + rest) == Numeral(n) + rest;
    AtolBehind(" ", "", n, rest);
  }

  lemma {:induction false} LengthIsRead(n: nat, p: Protocol)
    requires Sound(p)
    ensures ContentLength(Header(n, p), p) == n
  {
    var rest := " " + (Numeral(n) + p.blank);
    var header := p.field + rest;
    assert header[0..|p.field|] == p.field;
    FindIs(header, p.field, 0, 0);
    assert header[|p.field|..] == rest;
    assert SplitAt(header, p.field) == Some(("", rest));
    AtolSkips(rest);
    AtolBehindSpace(n, p.blank);
  }

  lemma {:induction false} HeaderIsRead(n: nat, body: string, p: Protocol)
    requires Sound(p) && n <= SIZE_MAX
    ensures HeaderEnd(Header(n, p) + body, 0, p) == Some(|Header(n, p)|)
  {
    var text := p.field + (" " + Numeral(n));
    NumeralOfSize(n);
    forall c | c in text ensures c != '\r' {
      if c in Numeral(n) { assert IsDigit(c); }
    }
    var stream := Header(n, p) + body;
    assert Header(n, p) == text + p.blank;
    assert stream[..|text|] == text && stream[|text|..|text| + 4] == p.blank;
    HeaderEndIs(stream, text, 0, p);
  }

  /** One frame comes back whole, the next receive starting right behind it, exactly
      when its payload has 1 to 10485760 bytes. */
  lemma {:induction false} FrameRoundTrip(payload: string, rest: string, p: Protocol)
    requires Sound(p) && |payload| <= SIZE_MAX
    ensures Receive(Frame(payload, p) + rest, p) == (Some(payload), rest)
            <==> 1 <= |payload| <= MAX_CONTENT
  {
    var n, header := |payload|, Header(|payload|, p);
    var stream := Frame(payload, p) + rest;
    assert stream == header + (payload + rest);
    HeaderIsRead(n, payload + rest, p);
    assert stream[..|header|] == header;
    LengthIsRead(n, p);
    assert stream[|header|..|header| + n] == payload;
    assert stream[|header| + n..] == rest;
  }

  /** The frame on the wire, by section "Base Protocol" of the specification. */
  lemma FrameIs(payload: string)
    ensures Frame(payload, LSP) == "Content-Length:" + " " + Numeral(|payload|) + "\r\n\r\n" + payload
  {
    Regroup("Content-Length:", " ", Numeral(|payload|), "\r\n\r\n", payload);
  }

  lemma Regroup(a: string, b: string, c: string, d: string, e: string)
    ensures (a + (b + (c + d))) + e == a + b + c + d + e
  {
  }

  /** Of an empty or oversized frame only the header is taken, so that its payload is read
      as what follows. */
  lemma {:induction false} RefusedFrame(payload: string, rest: string, p: Protocol)
    requires Sound(p) && |payload| <= SIZE_MAX && !(1 <= |payload| <= 10485760)
    ensures Receive(Frame(payload, p) + rest, p) == (None, payload + rest)
  {
    var header := Header(|payload|, p);
    var stream := Frame(payload, p) + rest;
    assert stream == header + (payload + rest);
    HeaderIsRead(|payload|, payload + rest, p);
    assert stream[..|header|] == header && stream[|header|..] == payload + rest;
    LengthIsRead(|payload|, p);
  }

  /** A frame that the end of the stream cuts off is consumed and lost. */
  lemma {:induction false} CutFrame(payload: string, n: nat, p: Protocol)
    requires Sound(p) && 1 <= |payload| <= 10485760 && n < |Frame(payload, p)|
    ensures Receive(Frame(payload, p)[..n], p) == (None, "")
  {
    var header, frame := Header(|payload|, p), Frame(payload, p);
    var stream := frame[..n];
    if n < |header| {
      HeaderIsRead(|payload|, "", p);
      assert header + "" == header;
      EndsEarly(header, n, 0, p);
      assert stream == header[..n];
    } else {
      assert stream == header + payload[..n - |header|];
      HeaderIsRead(|payload|, payload[..n - |header|], p);
      assert stream[..|header|] == header;
      LengthIsRead(|payload|, p);
    }
  }

  /** A header loop that would read on does not end within less. */
  lemma {:induction false} EndsEarly(header: string, n: nat, pos: nat, p: Protocol)
    requires pos <= n < |header| < HEADER_BUF && HeaderEnd(header, pos, p) == Some(|header|)
    ensures HeaderEnd(header[..n], pos, p) == None
    decreases n - pos
  {
    if pos < n {
      assert header[..n][..pos + 1] == header[..pos + 1];
      assert !Ends(header[..pos + 1], p);
      EndsEarly(header, n, pos + 1, p);
    }
  }

  // ---------- Frames of other writers ----------

  /** `text` and the blank line behind it: the first blank line there is. */
  ghost predicate IsHeader(text: string, p: Protocol) {
    |text| + |p.blank| < 1024 && forall k :: 0 <= k < |text| ==> !At(text + p.blank, p.blank, k)
  }

  lemma EndsIsAt(stream: string, pos: nat, p: Protocol)
    requires pos <= |stream|
    ensures Ends(stream[..pos], p) <==> At(stream, p.blank, pos - |p.blank|)
  {
    if pos >= |p.blank| { assert stream[..pos][pos - |p.blank|..] == stream[pos - |p.blank|..pos]; }
  }

  lemma AtInBoth(a: string, b: string, needle: string, n: nat, k: nat)
    requires n <= |a| && n <= |b| && a[..n] == b[..n] && k + |needle| <= n
    ensures At(a, needle, k) <==> At(b, needle, k)
  {
    SlicePrefixes(a, b, n, k, k + |needle|);
  }

  lemma SlicePrefixes(a: string, b: string, n: nat, i: nat, j: nat)
    requires n <= |a| && n <= |b| && a[..n] == b[..n] && i <= j <= n
    ensures a[i..j] == b[i..j]
  {
    assert a[i..j] == a[..n][i..j] && b[i..j] == b[..n][i..j];
  }

  lemma EndsThere(stream: string, text: string, pos: nat, p: Protocol)
    requires p.blank != "" && IsHeader(text, p) && pos < |text| + |p.blank| <= |stream|
    requires stream[..|text| + |p.blank|] == text + p.blank
    ensures Ends(stream[..pos + 1], p) <==> pos + 1 == |text| + |p.blank|
  {
    var n, k := |text| + |p.blank|, pos + 1 - |p.blank|;
    EndsIsAt(stream, pos + 1, p);
    if k >= 0 { AtInBoth(stream, text + p.blank, p.blank, n, k); }
    if k == |text| { assert (text + p.blank)[|text|..n] == p.blank; }
  }

  lemma {:induction false} HeaderStops(stream: string, text: string, pos: nat, p: Protocol)
    requires p.blank != "" && IsHeader(text, p) && pos < |text| + |p.blank| <= |stream|
    requires stream[..|text| + |p.blank|] == text + p.blank
    ensures HeaderEnd(stream, pos, p) == Some(|text| + |p.blank|)
    decreases |text| + |p.blank| - pos
  {
    EndsThere(stream, text, pos, p);
    if pos + 1 < |text| + |p.blank| { HeaderStops(stream, text, pos + 1, p); }
  }

  /** The text of a header: other lines, the field in one of its spellings, blanks, a sign,
      the length, and other lines. */
  function OtherHeader(before: string, field: string, gap: string, sign: string, n: nat, after: string): string {
    before + (field + (gap + (sign + (Numeral(n) + after))))
  }

  /** `field` is the one that the receiver looks up in such a header. */
  ghost predicate IsLengthField(before: string, field: string, header: string, p: Protocol) {
    || (field == p.field && !Contains(before, p.field))
    || (field == p.altField && !Contains(before, p.altField) && !Contains(header, p.field))
  }

  lemma {:induction false} OtherLengthIsRead(
    before: string, field: string, gap: string, sign: string, n: nat, after: string, p: Protocol)
    requires p.field != "" && p.altField != "" && Unbordered(p.field) && Unbordered(p.altField)
    requires p.blank != "" && !IsDigit(p.blank[0]) && (after == "" || !IsDigit(after[0]))
    requires forall c :: c in gap ==> c == ' ' || '\t' <= c <= '\r'
    requires sign == "" || sign == "+" || sign == "-"
    requires IsLengthField(before, field, OtherHeader(before, field, gap, sign, n, after) + p.blank, p)
    ensures ContentLength(OtherHeader(before, field, gap, sign, n, after) + p.blank, p) ==
            if sign == "-" then -(n as int) else n
  {
    var rest := gap + (sign + (Numeral(n) + (after + p.blank)));
    var header := OtherHeader(before, field, gap, sign, n, after) + p.blank;
    assert header == before + (field + rest);
    AtolSkips(rest);
    AtolBehind(gap, sign, n, after + p.blank);
    SplitBehind(before, field, rest);
    if Contains(header, p.field) {
      assert field == p.field;
    } else {
      FindIsNone(header, p.field, 0);
    }
  }

  /** Whatever other lines a header has, in whichever spelling and behind whatever blanks its
      length comes: so many bytes are the payload if all of them follow; a length that is
      negative, zero or above 10485760 takes the header only. */
  lemma {:induction false} OtherFrameIsRead(before: string, field: string, gap: string, sign: string, n: nat,
                                            after: string, rest: string, p: Protocol)
    requires p.field != "" && p.altField != "" && Unbordered(p.field) && Unbordered(p.altField)
    requires p.blank != "" && !IsDigit(p.blank[0]) && (after == "" || !IsDigit(after[0]))
    requires forall c :: c in gap ==> c == ' ' || '\t' <= c <= '\r'
    requires sign == "" || sign == "+" || sign == "-"
    requires IsHeader(OtherHeader(before, field, gap, sign, n, after), p)
    requires IsLengthField(before, field, OtherHeader(before, field, gap, sign, n, after) + p.blank, p)
    ensures Receive(OtherHeader(before, field, gap, sign, n, after) + p.blank + rest, p) ==
            if sign == "-" || n == 0 || n > 10485760 then (None, rest)
            else if |rest| < n then (None, "") else (Some(rest[..n]), rest[n..])
  {
    var text := OtherHeader(before, field, gap, sign, n, after);
    OtherLengthIsRead(before, field, gap, sign, n, after, p);
    BehindHeader(text, rest, p);
  }

  lemma BehindHeader(text: string, rest: string, p: Protocol)
    requires p.blank != "" && IsHeader(text, p)
    ensures var n := ContentLength(text + p.blank, p);
            Receive(text + p.blank + rest, p) ==
            if n <= 0 || n > MAX_CONTENT then (None, rest)
            else if |rest| < n then (None, "") else (Some(rest[..n]), rest[n..])
  {
    var stream, h := text + p.blank + rest, |text| + |p.blank|;
    assert stream[..h] == text + p.blank && stream[h..] == rest;
    HeaderStops(stream, text, 0, p);
    ReceiveBody(stream, h, p);
  }

  /** Without the field in either spelling only the header is taken. */
  lemma {:induction false} NoFieldNoBody(text: string, rest: string, p: Protocol)
    requires p.blank != "" && IsHeader(text, p)
    requires !Contains(text + p.blank, p.field) && !Contains(text + p.blank, p.altField)
    ensures Receive(text + p.blank + rest, p) == (None, rest)
  {
    BehindHeader(text, rest, p);
    FindIsNone(text + p.blank, p.field, 0);
    FindIsNone(text + p.blank, p.altField, 0);
  }

  /** The real wording meets what these ask of it. */
  lemma LspIsUnbordered()
    ensures Unbordered(LSP.field) && Unbordered(LSP.altField)
  {
    UnborderedBy(LSP.field, 14);
    UnborderedBy(LSP.altField, 14);
  }

  function FrameAll(payloads: seq<string>, p: Protocol): string
    decreases |payloads|
  {
    if payloads == [] then "" else Frame(payloads[0], p) + FrameAll(payloads[1..], p)
  }

  /** `k` receives in a row. */
  function ReceiveAll(stream: string, k: nat, p: Protocol): (seq<Option<string>>, string)
    decreases k
  {
    if k == 0 then ([], stream)
    else
      var (payload, rest) := Receive(stream, p);
      var (more, end) := ReceiveAll(rest, k - 1, p);
      ([payload] + more, end)
  }

  function Somes(payloads: seq<string>): seq<Option<string>>
    decreases |payloads|
  {
    if payloads == [] then [] else [Some(payloads[0])] + Somes(payloads[1..])
  }

  lemma ReceiveStep(stream: string, payload: string, rest: string, k: nat, p: Protocol)
    requires Receive(stream, p) == (Some(payload), rest)
    ensures ReceiveAll(stream, k + 1, p) == ([Some(payload)] + ReceiveAll(rest, k, p).0, ReceiveAll(rest, k, p).1)
  {
  }

  /** Any list of such payloads, sent and received one by one, is returned as it was,
      with the stream fully consumed. */
  lemma {:induction false} StreamRoundTrip(payloads: seq<string>, p: Protocol)
    requires Sound(p) && forall x :: x in payloads ==> 1 <= |x| <= MAX_CONTENT
    ensures ReceiveAll(FrameAll(payloads, p), |payloads|, p) == (Somes(payloads), "")
    decreases |payloads|
  {
    if payloads != [] {
      var first, more := payloads[0], payloads[1..];
      assert first in payloads && forall x :: x in more ==> x in payloads;
      var rest := FrameAll(more, p);
      FrameRoundTrip(first, rest, p);
      ReceiveStep(Frame(first, p) + rest, first, rest, |more|, p);
      StreamRoundTrip(more, p);
    }
  }
}
