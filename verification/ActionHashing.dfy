/** The 64-bit FNV-1a hash of a tool call (belya_harness.c). */
module ActionHashing {
  import opened ActionTexts
  import opened Text

  const FNV_OFFSET: bv64 := 14695981039346656037
  const FNV_PRIME: bv64 := 1099511628211

  function Byte(c: char): bv64 {
    c as int as bv64
  }

  function Mix(h: bv64, c: char): bv64 {
    (h ^ Byte(c)) * FNV_PRIME
  }

  function Fnv(s: string, h: bv64): bv64 {
    if s == "" then h else Fnv(s[1..], Mix(h, s[0]))
  }

  lemma ByteIs(c: char, n: nat)
    requires c as int == n < 128
    ensures Byte(c) == n as bv64
  {
  }

  lemma MixA()
    ensures Mix(FNV_OFFSET, 'a') == 0xaf63dc4c8601ec8c
  {
    ByteIs('a', 97);
    assert FNV_OFFSET ^ 97 == 0xcbf29ce484222344;
    assert (0xcbf29ce484222344 as bv64) * FNV_PRIME == 0xaf63dc4c8601ec8c;
  }

  /** The values of the 64-bit FNV-1a hash for "" and "a". */
  lemma FnvValues()
    ensures Fnv("", FNV_OFFSET) == 0xcbf29ce484222325
    ensures Fnv("a", FNV_OFFSET) == 0xaf63dc4c8601ec8c
  {
    MixA();
    assert "a"[1..] == "";
  }

  function ActionHash(tool: string, args: Option<string>): bv64 {
    Fnv(OrElse(args, ""), Fnv(":", Fnv(tool, FNV_OFFSET)))
  }

  /** `fnv1a_hash_str`. */
  method Fnv1a(s: string, seed: bv64) returns (h: bv64)
    ensures h == Fnv(s, seed)
  {
    h := seed;
    var p := 0;
    while p < |s|
      invariant 0 <= p <= |s| && Fnv(s, seed) == Fnv(s[p..], h)
    {
      h := Mix(h, s[p]);
      assert s[p..][1..] == s[p + 1..];
      p := p + 1;
    }
  }

  lemma {:induction false} FnvConcat(a: string, b: string, h: bv64)
    ensures Fnv(a + b, h) == Fnv(b, Fnv(a, h))
    decreases |a|
  {
    if a == "" {
      assert a + b == b;
    } else {
      assert (a + b)[1..] == a[1..] + b;
      FnvConcat(a[1..], b, Mix(h, a[0]));
    }
  }

  /** The hash is that of the text "tool:args"; absent arguments count as none. */
  lemma {:induction false} HashIsOfText(tool: string, args: Option<string>)
    ensures ActionHash(tool, args) == Fnv(Joined(tool, args), FNV_OFFSET)
  {
    FnvConcat(tool, ":", FNV_OFFSET);
    FnvConcat(tool + ":", OrElse(args, ""), FNV_OFFSET);
  }

  /** Two calls with one hash by construction: the joined texts are the same. */
  lemma {:induction false} HashForgetsBoundary(t: string, a: Option<string>, u: string, b: Option<string>)
    requires SameCall(t, a, u, b) || Shifted(t, a, u, b) || Shifted(u, b, t, a)
    ensures ActionHash(t, a) == ActionHash(u, b)
  {
    JoinedCoincide(t, a, u, b);
    HashIsOfText(t, a);
    HashIsOfText(u, b);
  }

  /** `compute_action_hash`. */
  method ComputeActionHash(tool: string, args: Option<string>) returns (h: bv64)
    ensures h == ActionHash(tool, args)
  {
    h := Fnv1a(tool, FNV_OFFSET);
    h := Fnv1a(":", h);
    h := Fnv1a(OrElse(args, ""), h);
  }
}
