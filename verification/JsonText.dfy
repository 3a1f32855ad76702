/**
 JSON at the character level: the escaping of string bodies and the brace
 scanner that cuts the first object out of free text (common.h), set against
 the JSON grammar of RFC 8259.
 */
module JsonText {
  import opened Text

  // ---------- String bodies ----------

  function HexDigit(d: nat): char
    requires d < 16
  {
    if d < 10 then ('0' as int + d) as char else ('a' as int + d - 10) as char
  }

  /** What `dyn_str_append_escaped` emits for one character. */
  function EscapeChar(c: char): string {
    match c
    case '\"' => "\\\""
    case '\\' => "\\\\"
    case '\U{8}' => "\\b"
    case '\U{C}' => "\\f"
    case '\n' => "\\n"
    case '\r' => "\\r"
    case '\t' => "\\t"
    case _ =>
      if c < ' ' then "\\u00" + [HexDigit(c as int / 16), HexDigit(c as int % 16)] else [c]
  }

  /** Section 7 of RFC 8259, with the two-character escapes where there is one and lower-case
      digits elsewhere. */
  lemma {:induction false} EscapesAre(c: char)
    ensures c == '\"' || c == '\\' ==> EscapeChar(c) == ['\\', c]
    ensures ' ' <= c && c != '\"' && c != '\\' ==> EscapeChar(c) == [c]
    ensures c < ' ' ==>
              EscapeChar(c) ==
              match c as int
              case 8 => "\\b" case 9 => "\\t" case 10 => "\\n" case 12 => "\\f" case 13 => "\\r"
              case n => ['\\', 'u', '0', '0', "0123456789abcdef"[n / 16], "0123456789abcdef"[n % 16]]
  {
    HexDigitIs(c as int % 16);
    if c < ' ' { HexDigitIs(c as int / 16); }
  }

  lemma HexDigitIs(d: nat)
    requires d < 16
    ensures HexDigit(d) == "0123456789abcdef"[d]
  {
  }

  function Escape(s: string): string {
    if s == "" then "" else EscapeChar(s[0]) + Escape(s[1..])
  }

  lemma {:induction false} EscapeSnoc(s: string, c: char)
    ensures Escape(s + [c]) == Escape(s) + EscapeChar(c)
  {
    if s == "" {
      assert s + [c] == [c] && Escape([c][1..]) == "";
    } else {
      assert (s + [c])[1..] == s[1..] + [c];
      EscapeSnoc(s[1..], c);
    }
  }

  function HexValue(c: char): Option<nat> {
    if '0' <= c <= '9' then Some(c as int - '0' as int)
    else if 'a' <= c <= 'f' then Some(c as int - 'a' as int + 10)
    else if 'A' <= c <= 'F' then Some(c as int - 'A' as int + 10)
    else None
  }

  /** The four hexadecimal digits of a `\u` escape; surrogates have no `char`. */
  function Hex4(s: string): Option<char>
    requires |s| == 4
  {
    match (HexValue(s[0]), HexValue(s[1]), HexValue(s[2]), HexValue(s[3]))
    case (Some(a), Some(b), Some(c), Some(d)) =>
      var v := 4096 * a + 256 * b + 16 * c + d;
      if v < 0xD800 || 0xE000 <= v < 0x10000 then Some(v as char) else None
    case _ => None
  }

  /** Decoding a string body by section 7 of RFC 8259: control characters and bare
      quotation marks are not allowed, and only the listed escapes are. */
  function Unescape(s: string): Option<string> {
    if s == "" then Some("")
    else if s[0] == '\"' || s[0] < ' ' then None
    else if s[0] != '\\' then Prepend(s[0], Unescape(s[1..]))
    else if |s| == 1 then None
    else
      match s[1]
      case '\"' => Prepend('\"', Unescape(s[2..]))
      case '\\' => Prepend('\\', Unescape(s[2..]))
      case '/' => Prepend('/', Unescape(s[2..]))
      case 'b' => Prepend('\U{8}', Unescape(s[2..]))
      case 'f' => Prepend('\U{C}', Unescape(s[2..]))
      case 'n' => Prepend('\n', Unescape(s[2..]))
      case 'r' => Prepend('\r', Unescape(s[2..]))
      case 't' => Prepend('\t', Unescape(s[2..]))
      case 'u' =>
        if |s| < 6 || Hex4(s[2..6]).None? then None
        else Prepend(Hex4(s[2..6]).value, Unescape(s[6..]))
      case _ => None
  }

  function Prepend(c: char, s: Option<string>): Option<string> {
    match s
    case None => None
    case Some(t) => Some([c] + t)
  }

  lemma {:induction false} UnescapeChar(c: char, rest: string)
    ensures Unescape(EscapeChar(c) + rest) == Prepend(c, Unescape(rest))
  {
    var e := EscapeChar(c);
    var s := e + rest;
    if |e| == 1 {
      assert s[1..] == rest;
    } else if |e| == 2 {
      assert s[2..] == rest;
    } else {
      var n := c as int;
      assert s[2..6] == e[2..] == ['0', '0', HexDigit(n / 16), HexDigit(n % 16)];
      assert s[6..] == rest;
      assert Hex4(s[2..6]) == Some(c);
    }
  }

  /** Escaping is undone by the RFC decoder, for every string. */
  lemma {:induction false} UnescapeEscape(s: string)
    ensures Unescape(Escape(s)) == Some(s)
  {
    if s != "" {
      UnescapeChar(s[0], Escape(s[1..]));
      UnescapeEscape(s[1..]);
      assert [s[0]] + s[1..] == s;
    }
  }

  /** The escaped form holds no control character. */
  lemma {:induction false} EscapeHasNoControls(s: string)
    ensures forall c :: c in Escape(s) ==> ' ' <= c
  {
    if s != "" {
      EscapeHasNoControls(s[1..]);
    }
  }

  /** The string bodies of section 7 of RFC 8259: unescaped characters, the two-character
      escapes, and `\u` with four hexadecimal digits, surrogates included. */
  predicate StringBody(s: string) {
    if s == "" then true
    else if s[0] != '\\' then s[0] != '\"' && ' ' <= s[0] && StringBody(s[1..])
    else if |s| == 1 then false
    else if s[1] != 'u' then s[1] in "\"\\/bfnrt" && StringBody(s[2..])
    else |s| >= 6 && HexDigits(s[2..6]) && StringBody(s[6..])
  }

  predicate HexDigits(s: string) {
    forall c :: c in s ==> HexValue(c).Some?
  }

  lemma {:induction false} EscapedChar(c: char, rest: string)
    requires StringBody(rest)
    ensures StringBody(EscapeChar(c) + rest)
  {
    var e := EscapeChar(c);
    var s := e + rest;
    if |e| == 1 {
      assert s[1..] == rest;
    } else if |e| == 2 {
      assert s[2..] == rest;
    } else {
      assert s[2..6] == e[2..] && s[6..] == rest;
    }
  }

  /** The decoder accepts nothing but such bodies. */
  lemma {:induction false} UnescapeReadsBodies(s: string)
    requires Unescape(s).Some?
    ensures StringBody(s)
  {
    if s != "" {
      var n := if s[0] != '\\' then 1 else if s[1] != 'u' then 2 else 6;
      assert Unescape(s[n..]).Some?;
      UnescapeReadsBodies(s[n..]);
    }
  }

  /** What the code emits is such a body. */
  lemma {:induction false} EscapeIsBody(s: string)
    ensures StringBody(Escape(s))
  {
    if s != "" {
      EscapeIsBody(s[1..]);
      EscapedChar(s[0], Escape(s[1..]));
    }
  }

  // ---------- The brace scanner ----------

  /** The scanner's variables: brace depth, inside a string, behind a backslash. */
  datatype Scan = Scan(depth: int, inString: bool, escape: bool)

  function Step(st: Scan, c: char): Scan {
    if st.escape then st.(escape := false)
    else if c == '\\' && st.inString then st.(escape := true)
    else if c == '\"' then st.(inString := !st.inString)
    else if st.inString then st
    else if c == '{' then st.(depth := st.depth + 1)
    else if c == '}' then st.(depth := st.depth - 1)
    else st
  }

  /** Reading `c` in state `st` closes the object. */
  predicate Closes(st: Scan, c: char) {
    !st.escape && !st.inString && c == '}' && st.depth == 1
  }

  /** Offset of the character that closes the object, scanning from `p`. */
  function CloseAt(text: string, p: nat, st: Scan): (r: Option<nat>)
    requires p <= |text|
    ensures r.Some? ==> p <= r.value < |text|
    decreases |text| - p
  {
    if p == |text| then None
    else if Closes(st, text[p]) then Some(p)
    else CloseAt(text, p + 1, Step(st, text[p]))
  }

  /** The object's text and the offset behind it. */
  function Extract(text: string): (r: Option<(string, nat)>)
    ensures r.Some? ==> 0 < r.value.1 <= |text| && |r.value.0| <= r.value.1 &&
                        text[r.value.1 - |r.value.0|..r.value.1] == r.value.0
  {
    var start := Find(text, "{", 0);
    if start.None? then None
    else
      var end := CloseAt(text, start.value, Scan(0, false, false));
      if end.None? then None else Some((text[start.value..end.value + 1], end.value + 1))
  }

  /** common.h `extract_json_object`. */
  method ExtractJsonObject(text: string) returns (r: Option<(string, nat)>)
    ensures r == Extract(text)
  {
    var found := Find(text, "{", 0);
    if found.None? { return None; }
    var start := found.value;
    var depth, inString, escape := 0, false, false;
    var p := start;
    while p < |text|
      invariant start <= p <= |text|
      invariant CloseAt(text, start, Scan(0, false, false)) == CloseAt(text, p, Scan(depth, inString, escape))
    {
      var c := text[p];
      if escape {
        escape := false;
      } else if c == '\\' && inString {
        escape := true;
      } else if c == '\"' {
        inString := !inString;
      } else if !inString {
        if c == '{' {
          depth := depth + 1;
        } else if c == '}' {
          depth := depth - 1;
          if depth == 0 {
            return Some((text[start..p + 1], p + 1));
          }
        }
      }
      p := p + 1;
    }
    return None;
  }

  // ---------- The scanner over grammatical text ----------

  /** Scanning all of `s` without closing the object; `None` when it closes inside. */
  function Run(st: Scan, s: string): Option<Scan>
    decreases |s|
  {
    if s == "" then Some(st)
    else if Closes(st, s[0]) then None
    else Run(Step(st, s[0]), s[1..])
  }

  /** Between two tokens at the given depth. */
  function Outside(depth: int): Scan {
    Scan(depth, false, false)
  }

  lemma {:induction false} RunConcat(st: Scan, a: string, b: string)
    requires Run(st, a).Some?
    ensures Run(st, a + b) == Run(Run(st, a).value, b)
    decreases |a|
  {
    if a == "" {
      assert a + b == b;
    } else {
      assert (a + b)[1..] == a[1..] + b;
      RunConcat(Step(st, a[0]), a[1..], b);
    }
  }

  lemma {:induction false} CloseAtSkips(pre: string, s: string, rest: string, st: Scan)
    requires Run(st, s).Some?
    ensures CloseAt(pre + s + rest, |pre|, st) == CloseAt(pre + s + rest, |pre| + |s|, Run(st, s).value)
    decreases |s|
  {
    if s != "" {
      assert (pre + [s[0]]) + s[1..] + rest == pre + s + rest;
      CloseAtSkips(pre + [s[0]], s[1..], rest, Step(st, s[0]));
    }
  }

  /** JSON values with the whitespace the grammar allows around each token. A
      literal is `true`, `false`, `null` or a number; strings and names are the bodies
      as written. */
  datatype Json =
    | Literal(text: string)
    | Str(body: string)
    | Array(gap: string, elements: Elements)
    | Object(gap: string, members: Members)
  datatype Elements =
    | NoElements
    | Element(before: string, value: Json, after: string, rest: Elements)
  datatype Members =
    | NoMembers
    | Member(before: string, name: string, beforeColon: string, afterColon: string,
             value: Json, after: string, rest: Members)

  /** Section 2 of RFC 8259: space, tab, line feed, carriage return. */
  predicate Whitespace(s: string) {
    forall c :: c in s ==> c == ' ' || c == '\t' || c == '\n' || c == '\r'
  }

  /** Every character a number may be written with (section 6 of RFC 8259). */
  predicate NumberText(s: string) {
    s != "" && forall c :: c in s ==>
      '0' <= c <= '9' || c == '+' || c == '-' || c == '.' || c == 'e' || c == 'E'
  }

  predicate Valid(v: Json) {
    match v
    case Literal(text) => text in ["true", "false", "null"] || NumberText(text)
    case Str(body) => StringBody(body)
    case Array(gap, es) => Whitespace(gap) && ValidElements(es)
    case Object(gap, ms) => Whitespace(gap) && ValidMembers(ms)
  }

  predicate ValidElements(es: Elements) {
    match es
    case NoElements => true
    case Element(b, v, a, rest) => Whitespace(b) && Valid(v) && Whitespace(a) && ValidElements(rest)
  }

  predicate ValidMembers(ms: Members) {
    match ms
    case NoMembers => true
    case Member(b, name, bc, ac, v, a, rest) =>
      && Whitespace(b) && StringBody(name) && Whitespace(bc) && Whitespace(ac)
      && Valid(v) && Whitespace(a) && ValidMembers(rest)
  }

  function Quoted(body: string): string {
    "\"" + body + "\""
  }

  function Print(v: Json): string {
    match v
    case Literal(text) => text
    case Str(body) => Quoted(body)
    case Array(gap, es) => "[" + gap + PrintElements(es) + "]"
    case Object(gap, ms) => "{" + gap + PrintMembers(ms) + "}"
  }

  function PrintElements(es: Elements): string {
    match es
    case NoElements => ""
    case Element(b, v, a, rest) =>
      b + Print(v) + a + (if rest.NoElements? then "" else "," + PrintElements(rest))
  }

  function PrintMembers(ms: Members): string {
    match ms
    case NoMembers => ""
    case Member(b, name, bc, ac, v, a, rest) =>
      b + Quoted(name) + bc + ":" + ac + Print(v) + a +
      (if rest.NoMembers? then "" else "," + PrintMembers(rest))
  }

  /** Text without braces, quotes or backslashes leaves the scanner where it is. */
  predicate Plain(s: string) {
    forall c :: c in s ==> c != '{' && c != '}' && c != '\"' && c != '\\'
  }

  lemma {:induction false} RunPlain(s: string, depth: int)
    requires Plain(s)
    ensures Run(Outside(depth), s) == Some(Outside(depth))
  {
    if s != "" {
      assert s[0] in s && forall c :: c in s[1..] ==> c in s;
      RunPlain(s[1..], depth);
    }
  }

  lemma {:induction false} RunInString(s: string, depth: int)
    requires forall c :: c in s ==> c !in "\"\\"
    ensures Run(Scan(depth, true, false), s) == Some(Scan(depth, true, false))
  {
    if s != "" {
      assert s[0] in s;
      RunInString(s[1..], depth);
    }
  }

  lemma {:induction false} RunEscapePair(c: char, depth: int)
    ensures Run(Scan(depth, true, false), ['\\', c]) == Some(Scan(depth, true, false))
  {
    assert ['\\', c][1..] == [c] && [c][1..] == "";
    assert Run(Scan(depth, true, true), [c]) == Some(Scan(depth, true, false));
  }

  /** The first character or escape of a body, and the rest. */
  lemma {:induction false} RunEscape(s: string, n: nat, depth: int)
    requires 2 <= n <= |s| && s[0] == '\\' && forall c :: c in s[2..n] ==> c !in "\"\\"
    ensures Run(Scan(depth, true, false), s[..n]) == Some(Scan(depth, true, false))
  {
    var st := Scan(depth, true, false);
    RunEscapePair(s[1], depth);
    RunInString(s[2..n], depth);
    RunThen(st, ['\\', s[1]], st, s[2..n], st);
    assert s[..n] == ['\\', s[1]] + s[2..n];
  }

  lemma {:induction false} RunStringBody(s: string, depth: int)
    requires StringBody(s)
    ensures Run(Scan(depth, true, false), s) == Some(Scan(depth, true, false))
    decreases |s|
  {
    if s != "" {
      var st := Scan(depth, true, false);
      var n := if s[0] != '\\' then 1 else if s[1] != 'u' then 2 else 6;
      if n == 1 { RunInString(s[..1], depth); } else { RunEscape(s, n, depth); }
      RunStringBody(s[n..], depth);
      RunThen(st, s[..n], st, s[n..], st);
      assert s == s[..n] + s[n..];
    }
  }

  lemma {:induction false} RunQuoted(body: string, depth: int)
    requires StringBody(body)
    ensures Run(Outside(depth), Quoted(body)) == Some(Outside(depth))
  {
    var st := Scan(depth, true, false);
    RunStringBody(body, depth);
    assert Run(st, "\"") == Some(Outside(depth));
    RunThen(st, body, st, "\"", Outside(depth));
    assert Quoted(body)[1..] == body + "\"";
  }

  /** Chains two pieces that each lead from one scanner state to another. */
  lemma {:induction false} RunThen(st: Scan, a: string, mid: Scan, b: string, end: Scan)
    requires Run(st, a) == Some(mid) && Run(mid, b) == Some(end)
    ensures Run(st, a + b) == Some(end)
  {
    RunConcat(st, a, b);
  }

  lemma LiteralIsPlain(text: string)
    requires Valid(Literal(text))
    ensures Plain(text)
  {
  }

  /** A printed value inside an object never closes that object and leaves the
      scanner at the depth it came with. */
  lemma {:induction false} RunValue(v: Json, depth: int)
    requires Valid(v) && depth >= 1
    ensures Run(Outside(depth), Print(v)) == Some(Outside(depth))
    decreases v
  {
    match v
    case Literal(text) =>
      LiteralIsPlain(text);
      RunPlain(text, depth);
    case Str(body) =>
      RunQuoted(body, depth);
    case Array(gap, es) =>
      RunElements(es, depth);
      RunBrackets(gap, PrintElements(es), depth);
    case Object(gap, ms) =>
      RunBody(gap, ms, depth);
      RunBraces("{" + gap + PrintMembers(ms), depth);
  }

  lemma {:induction false} RunBrackets(gap: string, body: string, depth: int)
    requires Whitespace(gap) && Run(Outside(depth), body) == Some(Outside(depth))
    ensures Run(Outside(depth), "[" + gap + body + "]") == Some(Outside(depth))
  {
    var out := Outside(depth);
    RunPlain("[" + gap, depth);
    RunThen(out, "[" + gap, out, body, out);
    RunPlain("]", depth);
    RunThen(out, "[" + gap + body, out, "]", out);
  }

  lemma {:induction false} RunBraces(body: string, depth: int)
    requires depth >= 1 && Run(Outside(depth), body) == Some(Outside(depth + 1))
    ensures Run(Outside(depth), body + "}") == Some(Outside(depth))
  {
    assert "}"[1..] == "" && Step(Outside(depth + 1), '}') == Outside(depth);
    RunThen(Outside(depth), body, Outside(depth + 1), "}", Outside(depth));
  }

  lemma {:induction false} RunElements(es: Elements, depth: int)
    requires ValidElements(es) && depth >= 1
    ensures Run(Outside(depth), PrintElements(es)) == Some(Outside(depth))
    decreases es
  {
    match es
    case NoElements =>
    case Element(b, v, a, rest) =>
      var out := Outside(depth);
      var tail := if rest.NoElements? then "" else "," + PrintElements(rest);
      RunPlain(b, depth);
      RunValue(v, depth);
      RunThen(out, b, out, Print(v), out);
      RunPlain(a, depth);
      RunThen(out, b + Print(v), out, a, out);
      RunElements(rest, depth);
      RunPlain(",", depth);
      RunThen(out, ",", out, PrintElements(rest), out);
      RunThen(out, b + Print(v) + a, out, tail, out);
  }

  lemma {:induction false} RunMembers(ms: Members, depth: int)
    requires ValidMembers(ms) && depth >= 1
    ensures Run(Outside(depth), PrintMembers(ms)) == Some(Outside(depth))
    decreases ms, 1
  {
    match ms
    case NoMembers =>
    case Member(b, name, bc, ac, v, a, rest) =>
      var out := Outside(depth);
      var tail := if rest.NoMembers? then "" else "," + PrintMembers(rest);
      var key := b + Quoted(name) + bc + ":" + ac;
      RunKey(b, name, bc, ac, depth);
      RunValue(v, depth);
      RunThen(out, key, out, Print(v), out);
      RunPlain(a, depth);
      RunThen(out, key + Print(v), out, a, out);
      RunMembers(rest, depth);
      RunPlain(",", depth);
      RunThen(out, ",", out, PrintMembers(rest), out);
      RunThen(out, key + Print(v) + a, out, tail, out);
  }

  lemma {:induction false} RunKey(b: string, name: string, bc: string, ac: string, depth: int)
    requires Whitespace(b) && StringBody(name) && Whitespace(bc) && Whitespace(ac)
    ensures Run(Outside(depth), b + Quoted(name) + bc + ":" + ac) == Some(Outside(depth))
  {
    var out := Outside(depth);
    RunPlain(b, depth);
    RunQuoted(name, depth);
    RunThen(out, b, out, Quoted(name), out);
    RunPlain(bc, depth);
    RunThen(out, b + Quoted(name), out, bc, out);
    RunPlain(":", depth);
    RunThen(out, b + Quoted(name) + bc, out, ":", out);
    RunPlain(ac, depth);
    RunThen(out, b + Quoted(name) + bc + ":", out, ac, out);
  }

  /** An object without its closing brace, entered at any depth from 0 up. */
  lemma {:induction false} RunBody(gap: string, ms: Members, depth: int)
    requires Whitespace(gap) && ValidMembers(ms) && depth >= 0
    ensures Run(Outside(depth), "{" + gap + PrintMembers(ms)) == Some(Outside(depth + 1))
    decreases ms, 2
  {
    var inner := Outside(depth + 1);
    assert ("{" + gap)[1..] == gap;
    RunPlain(gap, depth + 1);
    RunMembers(ms, depth + 1);
    RunThen(Outside(depth), "{" + gap, inner, PrintMembers(ms), inner);
  }

  lemma {:induction false} FirstBrace(pre: string, s: string)
    requires '{' !in pre && s != "" && s[0] == '{'
    ensures Find(pre + s, "{", 0) == Some(|pre|)
  {
    var text := pre + s;
    assert At(text, "{", |pre|) by { assert text[|pre|..|pre| + 1] == "{"; }
    forall j | 0 <= j < |pre| ensures !At(text, "{", j) {
      assert text[j..j + 1] == [pre[j]] && pre[j] in pre;
    }
    FindIs(text, "{", 0, |pre|);
  }

  lemma {:induction false} ExtractBody(pre: string, body: string, obj: string, rest: string)
    requires '{' !in pre && body != "" && body[0] == '{' && obj == body + "}"
    requires Run(Outside(0), body) == Some(Outside(1))
    ensures Extract(pre + obj + rest) == Some((obj, |pre| + |obj|))
  {
    var text := pre + obj + rest;
    FirstBrace(pre, obj + rest);
    assert text == pre + (obj + rest) && text == pre + body + ("}" + rest);
    CloseAtSkips(pre, body, "}" + rest, Outside(0));
    assert text[|pre| + |body|] == '}';
    assert CloseAt(text, |pre|, Outside(0)) == Some(|pre| + |body|);
    assert text[|pre|..|pre| + |obj|] == obj;
  }

  lemma {:induction false} PrintedBody(v: Json) returns (body: string)
    requires v.Object? && Valid(v)
    ensures body != "" && body[0] == '{' && Print(v) == body + "}"
    ensures Run(Outside(0), body) == Some(Outside(1))
  {
    body := "{" + v.gap + PrintMembers(v.members);
    RunBody(v.gap, v.members, 0);
  }

  /** The scanner cuts out exactly the printed object, whatever brace-free text
      precedes it and whatever follows it. */
  lemma {:induction false} ExtractPrinted(pre: string, v: Json, rest: string)
    requires '{' !in pre && v.Object? && Valid(v)
    ensures Extract(pre + Print(v) + rest) == Some((Print(v), |pre| + |Print(v)|))
  {
    var body := PrintedBody(v);
    ExtractBody(pre, body, Print(v), rest);
  }

  lemma {:induction false} RunPrefix(st: Scan, a: string, b: string)
    requires Run(st, a + b).Some?
    ensures Run(st, a).Some?
    decreases |a|
  {
    if a != "" {
      assert (a + b)[0] == a[0] && (a + b)[1..] == a[1..] + b;
      RunPrefix(Step(st, a[0]), a[1..], b);
    }
  }

  lemma {:induction false} NeverCloses(pre: string, s: string)
    requires '{' !in pre && s != "" && s[0] == '{' && Run(Outside(0), s).Some?
    ensures Extract(pre + s) == None
  {
    var text := pre + s;
    FirstBrace(pre, s);
    CloseAtSkips(pre, s, "", Outside(0));
    assert pre + s + "" == text;
  }

  /** An object that breaks off before its last brace is not returned, nor any part of it. */
  lemma {:induction false} ExtractTruncated(pre: string, v: Json, k: nat)
    requires '{' !in pre && v.Object? && Valid(v) && k < |Print(v)|
    ensures Extract(pre + Print(v)[..k]) == None
  {
    if k == 0 {
      NoObject(pre + "");
    } else {
      var body := PrintedBody(v);
      var s := Print(v)[..k];
      assert s == body[..k] && body == s + body[k..];
      RunPrefix(Outside(0), s, body[k..]);
      NeverCloses(pre, s);
    }
  }

  lemma NoObject(text: string)
    requires '{' !in text
    ensures Extract(text) == None
  {
    FirstCharAbsent(text, "{");
  }

  /** Repeated extraction, each call starting behind the previous object. */
  function ExtractAll(text: string): seq<string>
    decreases |text|
  {
    match Extract(text)
    case None => []
    case Some((obj, next)) => [obj] + ExtractAll(text[next..])
  }

  function Interleave(gaps: seq<string>, objects: seq<Json>, tail: string): string
    requires |gaps| == |objects|
  {
    if objects == [] then tail
    else gaps[0] + Print(objects[0]) + Interleave(gaps[1..], objects[1..], tail)
  }

  function PrintAll(objects: seq<Json>): seq<string>
    decreases |objects|
  {
    if objects == [] then [] else [Print(objects[0])] + PrintAll(objects[1..])
  }

  lemma ExtractStep(text: string, obj: string, rest: string)
    requires Extract(text).Some? && Extract(text).value.0 == obj && text[Extract(text).value.1..] == rest
    ensures ExtractAll(text) == [obj] + ExtractAll(rest)
  {
  }

  /** From a stream of objects embedded in brace-free prose, repeated calls
      recover every object, in order, and nothing else. */
  lemma {:induction false} ExtractAllPrinted(gaps: seq<string>, objects: seq<Json>, tail: string)
    requires |gaps| == |objects| && '{' !in tail
    requires forall g :: g in gaps ==> '{' !in g
    requires forall v :: v in objects ==> v.Object? && Valid(v)
    ensures ExtractAll(Interleave(gaps, objects, tail)) == PrintAll(objects)
    decreases |objects|
  {
    if objects == [] {
      NoObject(tail);
    } else {
      var g, v := gaps[0], objects[0];
      var more := Interleave(gaps[1..], objects[1..], tail);
      var text := g + Print(v) + more;
      ExtractPrinted(g, v, more);
      assert text[|g| + |Print(v)|..] == more;
      ExtractStep(text, Print(v), more);
      ExtractAllPrinted(gaps[1..], objects[1..], tail);
    }
  }
}
