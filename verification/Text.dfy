/**
 C strings as sequences of characters, and the two library searches the
 sources rely on: `strstr` and the case-insensitive substring test.
 A `char` stands for one byte of a NUL-free C string.
 */
module Text {

  datatype Option<+T> = None | Some(value: T)

  /** A nullable C string with its default. */
  function OrElse(s: Option<string>, default: string): string {
    match s case Some(v) => v case None => default
  }

  /** Lists are equal when their heads and tails are. */
  lemma ConsEqual<T>(x: T, a: seq<T>, y: T, b: seq<T>)
    ensures [x] + a == [y] + b <==> x == y && a == b
  {
    assert ([x] + a)[0] == x && ([x] + a)[1..] == a;
    assert ([y] + b)[0] == y && ([y] + b)[1..] == b;
  }

  lemma ConsPrefix<T>(s: seq<T>, t: seq<T>)
    requires s != []
    ensures [s[0]] + (s[1..] + t) == s + t
  {
  }

  /** The first `n` characters, or all of them. */
  function Take(s: string, n: nat): (r: string)
    ensures r <= s && (r == s || |r| == n) && |r| <= n
  {
    if |s| <= n then s else s[..n]
  }

  function Concat(chunks: seq<string>): string {
    if chunks == [] then "" else Concat(chunks[..|chunks| - 1]) + chunks[|chunks| - 1]
  }

  lemma {:induction false} ConcatFirst(chunks: seq<string>)
    requires chunks != []
    ensures Concat(chunks) == chunks[0] + Concat(chunks[1..])
    decreases |chunks|
  {
    var n := |chunks|;
    if n == 1 {
      assert Concat(chunks[..0]) == Concat(chunks[1..]) == "";
    } else {
      ConcatFirst(chunks[..n - 1]);
      assert chunks[..n - 1][1..] == chunks[1..][..n - 2];
      var middle := Concat(chunks[1..][..n - 2]);
      assert (chunks[0] + middle) + chunks[n - 1] == chunks[0] + (middle + chunks[n - 1]);
    }
  }

  /** A prefix of a slice is a slice. */
  lemma SlicePrefix(s: string, start: nat, end: nat, n: nat)
    requires start + n <= end <= |s|
    ensures s[start..end][..n] == s[start..start + n]
  {
  }

  /** `needle` occurs in `hay` at offset `i`. */
  predicate At(hay: string, needle: string, i: int) {
    0 <= i <= |hay| - |needle| && hay[i..i + |needle|] == needle
  }

  ghost predicate Contains(hay: string, needle: string) {
    exists i :: At(hay, needle, i)
  }

  /** `strstr(hay + from, needle)`, as an offset into `hay`. */
  function Find(hay: string, needle: string, from: nat): (r: Option<nat>)
    requires from <= |hay|
    ensures r.Some? ==> from <= r.value && At(hay, needle, r.value)
    ensures r.Some? ==> forall j :: from <= j < r.value ==> !At(hay, needle, j)
    ensures r.None? ==> forall j :: from <= j ==> !At(hay, needle, j)
    decreases |hay| - from
  {
    if At(hay, needle, from) then Some(from)
    else if from == |hay| then None
    else Find(hay, needle, from + 1)
  }

  /** No proper prefix of `needle` is also a suffix of it. */
  ghost predicate Unbordered(needle: string) {
    forall d :: 0 < d < |needle| ==> needle[d..] != needle[..|needle| - d]
  }

  /** No prefix of the needle can also end it when the needle has a character that
      occurs nowhere before it and every later character differs from the first. */
  lemma UnborderedBy(needle: string, k: nat)
    requires k < |needle|
    requires forall i :: 0 <= i < k ==> needle[i] != needle[k]
    requires forall i :: k < i < |needle| ==> needle[i] != needle[0]
    ensures Unbordered(needle)
  {
    var n := |needle|;
    forall d | 0 < d < n ensures needle[d..] != needle[..n - d] {
      if d <= k {
        assert needle[d..][k - d] == needle[k] && needle[..n - d][k - d] == needle[k - d];
      } else {
        assert needle[d..][0] == needle[d] && needle[..n - d][0] == needle[0];
      }
    }
  }

  /** The leftmost occurrence is determined by where it is and what precedes it. */
  lemma FindIs(hay: string, needle: string, from: nat, i: nat)
    requires from <= i && At(hay, needle, i)
    requires forall j :: from <= j < i ==> !At(hay, needle, j)
    ensures Find(hay, needle, from) == Some(i)
  {
  }

  lemma FindIsNone(hay: string, needle: string, from: nat)
    requires from <= |hay|
    requires forall j :: from <= j ==> !At(hay, needle, j)
    ensures Find(hay, needle, from) == None
  {
  }

  /** Before the end of `a`, an unbordered needle occurs in `a + needle + rest` only
      within `a`. */
  lemma {:induction false} AtBefore(pre: string, a: string, needle: string, rest: string, i: nat)
    requires needle != "" && Unbordered(needle) && i < |a|
    ensures At(pre + a + needle + rest, needle, |pre| + i) <==> At(a, needle, i)
  {
    var hay, n, j := pre + a + needle + rest, |needle|, |pre| + i;
    if i + n <= |a| {
      assert hay[j..j + n] == a[i..i + n];
    } else if j + n <= |hay| {
      var d := |a| - i;
      assert hay[j..j + n][d..] == hay[j + d..j + n] == needle[..n - d];
    }
  }

  /** A text without the needle's first character does not contain the needle. */
  lemma FirstCharAbsent(text: string, needle: string)
    requires needle != "" && needle[0] !in text
    ensures !Contains(text, needle) && Find(text, needle, 0) == None
  {
    forall j ensures !At(text, needle, j) {
      if 0 <= j <= |text| - |needle| { assert text[j..j + |needle|][0] == text[j] && text[j] in text; }
    }
    FindIsNone(text, needle, 0);
  }

  /** Searching `pre + a + needle + rest` from the end of `pre` stops at the end
      of `a` exactly when `a` itself does not contain the needle. */
  lemma {:induction false} FindAfter(pre: string, a: string, needle: string, rest: string)
    requires needle != "" && Unbordered(needle)
    ensures Find(pre + a + needle + rest, needle, |pre|) == Some(|pre| + |a|) <==> !Contains(a, needle)
  {
    var hay, end := pre + a + needle + rest, |pre| + |a|;
    assert hay[end..end + |needle|] == needle;
    assert At(hay, needle, end);
    forall i: nat | i < |a| ensures At(hay, needle, |pre| + i) <==> At(a, needle, i) {
      AtBefore(pre, a, needle, rest, i);
    }
    if i :| At(a, needle, i) {
      assert At(hay, needle, |pre| + i);
    } else {
      forall j | |pre| <= j < end ensures !At(hay, needle, j) {
        assert !At(a, needle, j - |pre|);
        assert At(hay, needle, |pre| + (j - |pre|)) <==> At(a, needle, j - |pre|);
      }
      FindIs(hay, needle, |pre|, end);
    }
  }

  /** The text before and behind the first occurrence of the needle. */
  function SplitAt(text: string, needle: string): (r: Option<(string, string)>)
    ensures r.Some? ==> |r.value.0| + |needle| + |r.value.1| == |text|
  {
    match Find(text, needle, 0)
    case None => None
    case Some(i) => Some((text[..i], text[i + |needle|..]))
  }

  lemma PartsOf(a: string, needle: string, rest: string)
    ensures var text := a + (needle + rest);
            && At(text, needle, |a|) && text[..|a|] == a && text[|a| + |needle|..] == rest
            && text == "" + a + needle + rest
  {
    var text := a + (needle + rest);
    assert text[|a|..|a| + |needle|] == needle;
  }

  /** A text followed by the needle is split off whole exactly when it does not
      contain the needle itself. */
  lemma {:induction false} SplitBehind(a: string, needle: string, rest: string)
    requires needle != "" && Unbordered(needle)
    ensures SplitAt(a + (needle + rest), needle).Some?
    ensures SplitAt(a + (needle + rest), needle) == Some((a, rest)) <==> !Contains(a, needle)
    ensures Contains(a, needle) ==> SplitAt(a + (needle + rest), needle).value.0 != a
  {
    var text := a + (needle + rest);
    PartsOf(a, needle, rest);
    FindAfter("", a, needle, rest);
    var i := Find(text, needle, 0).value;
    assert |text[..i]| == i;
  }

  lemma AtInPrefix(text: string, needle: string, i: nat, j: int)
    requires i <= |text|
    ensures At(text[..i], needle, j) ==> At(text, needle, j) && j + |needle| <= i
  {
    if 0 <= j <= i - |needle| { assert text[..i][j..j + |needle|] == text[j..j + |needle|]; }
  }

  /** What is split off: the text up to the first occurrence, and the text behind it. */
  lemma {:induction false} SplitIs(text: string, needle: string)
    requires needle != ""
    ensures match SplitAt(text, needle)
            case None => !Contains(text, needle)
            case Some((a, b)) => text == a + (needle + b) && !Contains(a, needle)
  {
    var r := Find(text, needle, 0);
    if r.Some? {
      var i := r.value;
      assert text == text[..i] + (text[i..i + |needle|] + text[i + |needle|..]);
      forall j ensures !At(text[..i], needle, j) {
        AtInPrefix(text, needle, i, j);
      }
    }
  }

  lemma AtInSuffix(text: string, needle: string, i: nat, j: nat)
    requires i <= |text| && At(text[i..], needle, j)
    ensures At(text, needle, i + j)
  {
    var k := i + j;
    assert text[k..k + |needle|] == text[i..][j..j + |needle|];
  }

  /** `tolower` in the C locale. */
  function Lower(c: char): char {
    if 'A' <= c <= 'Z' then (c as int + 32) as char else c
  }

  function LowerAll(s: string): (r: string)
    ensures |r| == |s| && forall i :: 0 <= i < |s| ==> r[i] == Lower(s[i])
  {
    seq(|s|, i requires 0 <= i < |s| => Lower(s[i]))
  }

  /** The same character, or the same letter in the other case. */
  predicate SameLetter(c: char, d: char) {
    || c == d
    || ('A' <= c <= 'Z' && d as int == c as int + 32)
    || ('A' <= d <= 'Z' && c as int == d as int + 32)
  }

  ghost predicate AtIgnoringCase(hay: string, needle: string, i: int) {
    0 <= i <= |hay| - |needle| && forall k :: 0 <= k < |needle| ==> SameLetter(hay[i + k], needle[k])
  }

  ghost predicate ContainsIgnoringCase(hay: string, needle: string) {
    exists i :: AtIgnoringCase(hay, needle, i)
  }

  /** The lowered texts agree where the texts do but for the case of letters. */
  lemma LoweredAt(hay: string, needle: string, i: int)
    ensures At(LowerAll(hay), LowerAll(needle), i) <==> AtIgnoringCase(hay, needle, i)
  {
    var h, n := LowerAll(hay), LowerAll(needle);
    if 0 <= i <= |hay| - |needle| {
      var slice := h[i..i + |n|];
      forall k | 0 <= k < |needle| ensures slice[k] == n[k] <==> SameLetter(hay[i + k], needle[k]) {
        assert slice[k] == Lower(hay[i + k]);
      }
      assert slice == n <==> forall k :: 0 <= k < |n| ==> slice[k] == n[k];
    }
  }

  lemma LoweredContains(hay: string, needle: string)
    ensures Contains(LowerAll(hay), LowerAll(needle)) <==> ContainsIgnoringCase(hay, needle)
  {
    forall i ensures At(LowerAll(hay), LowerAll(needle), i) <==> AtIgnoringCase(hay, needle, i) {
      LoweredAt(hay, needle, i);
    }
    if i :| AtIgnoringCase(hay, needle, i) { assert At(LowerAll(hay), LowerAll(needle), i); }
  }

  /** common.h `contains_case_insensitive`: pointer `h` walks the haystack. */
  method ContainsCaseInsensitive(haystack: string, needle: string) returns (found: bool)
    ensures found <==> ContainsIgnoringCase(haystack, needle)
    ensures found <==> Contains(LowerAll(haystack), LowerAll(needle))
  {
    found := Search(haystack, needle);
    LoweredContains(haystack, needle);
  }

  /** Its outer loop. */
  method Search(haystack: string, needle: string) returns (found: bool)
    ensures found <==> Contains(LowerAll(haystack), LowerAll(needle))
  {
    ghost var hay, pin := LowerAll(haystack), LowerAll(needle);
    if |needle| == 0 {
      assert At(hay, pin, 0);
      return true;
    }
    var h := 0;
    while h < |haystack|
      invariant 0 <= h <= |haystack|
      invariant forall j :: 0 <= j < h ==> !At(hay, pin, j)
    {
      var here := MatchesAt(haystack, needle, h);
      if here { return true; }
      h := h + 1;
    }
    return false;
  }

  /** The inner index walks the needle. */
  method MatchesAt(haystack: string, needle: string, h: nat) returns (matched: bool)
    requires h <= |haystack|
    ensures matched <==> At(LowerAll(haystack), LowerAll(needle), h)
  {
    ghost var hay, pin := LowerAll(haystack), LowerAll(needle);
    var i := 0;
    while i < |needle| && h + i < |haystack| && Lower(haystack[h + i]) == Lower(needle[i])
      invariant 0 <= i <= |needle| && h + i <= |haystack|
      invariant forall k :: 0 <= k < i ==> hay[h + k] == pin[k]
    {
      i := i + 1;
    }
    matched := i == |needle|;
    if matched {
      assert hay[h..h + i] == pin;
    } else if h + |needle| <= |haystack| {
      assert hay[h..h + |pin|][i] == hay[h + i] != pin[i];
    }
  }
}
