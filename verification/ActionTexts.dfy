/** The texts that are hashed for a tool call (belya_harness.c), and which calls share one. */
module ActionTexts {
  import opened Text

  function Joined(tool: string, args: Option<string>): string {
    tool + ":" + OrElse(args, "")
  }

  /** Absent arguments and empty ones are not told apart. */
  predicate SameCall(t: string, a: Option<string>, u: string, b: Option<string>) {
    t == u && OrElse(a, "") == OrElse(b, "")
  }

  /** `u` is `t` and a colon and the beginning of the arguments `a`, up to a colon in
      them behind which `b` follows. */
  predicate Shifted(t: string, a: Option<string>, u: string, b: Option<string>) {
    && |t| < |u| && u[..|t|] == t && u[|t|] == ':'
    && OrElse(a, "") == u[|t| + 1..] + ":" + OrElse(b, "")
  }

  lemma JoinedParts(t: string, a: Option<string>)
    ensures var x, n := Joined(t, a), |t|;
            x[..n] == t && x[n] == ':' && x[n + 1..] == OrElse(a, "")
  {
  }

  lemma PartsWithinName(u: string, b: Option<string>, n: nat)
    requires n < |u|
    ensures var y := Joined(u, b);
            y[..n] == u[..n] && y[n] == u[n] && y[n + 1..] == u[n + 1..] + ":" + OrElse(b, "")
  {
  }

  lemma PartsDecide(x: string, y: string, n: nat)
    requires n < |x| && n < |y|
    ensures x == y <==> x[..n] == y[..n] && x[n] == y[n] && x[n + 1..] == y[n + 1..]
  {
    assert x == x[..n] + [x[n]] + x[n + 1..];
    assert y == y[..n] + [y[n]] + y[n + 1..];
  }

  lemma {:induction false} ShiftedJoins(t: string, a: Option<string>, u: string, b: Option<string>)
    requires |t| < |u|
    ensures Joined(t, a) == Joined(u, b) <==> Shifted(t, a, u, b)
  {
    JoinedParts(t, a);
    PartsWithinName(u, b, |t|);
    PartsDecide(Joined(t, a), Joined(u, b), |t|);
  }

  /** Two calls share a text exactly when they are the same call or one shifts the
      boundary between name and arguments over a colon of the other. */
  lemma {:induction false} JoinedCoincide(t: string, a: Option<string>, u: string, b: Option<string>)
    ensures Joined(t, a) == Joined(u, b) <==>
            SameCall(t, a, u, b) || Shifted(t, a, u, b) || Shifted(u, b, t, a)
  {
    if |t| < |u| {
      ShiftedJoins(t, a, u, b);
    } else if |u| < |t| {
      ShiftedJoins(u, b, t, a);
    } else {
      JoinedParts(t, a);
      JoinedParts(u, b);
      PartsDecide(Joined(t, a), Joined(u, b), |t|);
    }
  }

  /** Among tool names without colons the text identifies the call. */
  lemma {:induction false} ColonFreeIdentifies(t: string, a: Option<string>, u: string, b: Option<string>)
    requires ':' !in t && ':' !in u
    ensures Joined(t, a) == Joined(u, b) <==> SameCall(t, a, u, b)
  {
    JoinedCoincide(t, a, u, b);
    if |t| < |u| { assert u[|t|] in u; } else if |u| < |t| { assert t[|u|] in t; }
  }
}
