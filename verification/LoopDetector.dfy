/**
 The circuit breaker of belya_harness.c: repeated failures of one call, and the
 periods found by the action ring, over the full log of observations.
 */
module LoopDetector {
  import opened Text
  import opened ActionRing

  datatype Observation = Observation(tool: string, args: Option<string>, text: Option<string>)

  /** The substrings that mark an observation as a failure. */
  const FAILURE_SIGNS: seq<string> :=
    ["error:", "failed", "exit status", "command not found", "AddressSanitizer", "fatal:"]

  /** What the breaker is built on: the failure signs and the action hash. */
  datatype Rules<!H> = Rules(signs: seq<string>, hash: (string, Option<string>) -> H)

  ghost predicate Failed(o: Observation, signs: seq<string>) {
    o.text.None? || exists k :: 0 <= k < |signs| && Contains(LowerAll(o.text.value), LowerAll(signs[k]))
  }

  lemma FailedBySigns(o: Observation, signs: seq<string>)
    requires o.text.Some?
    ensures Failed(o, signs) <==> exists k :: 0 <= k < |signs| && ContainsIgnoringCase(o.text.value, signs[k])
  {
    forall k | 0 <= k < |signs|
      ensures Contains(LowerAll(o.text.value), LowerAll(signs[k])) <==> ContainsIgnoringCase(o.text.value, signs[k])
    {
      LoweredContains(o.text.value, signs[k]);
    }
  }

  /** A call failed when it gave no text, or one with a sign of failure in any case. */
  lemma {:induction false} FailureIs(o: Observation)
    ensures Failed(o, FAILURE_SIGNS) <==>
            || o.text == None
            || ContainsIgnoringCase(o.text.value, "error:") || ContainsIgnoringCase(o.text.value, "failed")
            || ContainsIgnoringCase(o.text.value, "exit status")
            || ContainsIgnoringCase(o.text.value, "command not found")
            || ContainsIgnoringCase(o.text.value, "AddressSanitizer")
            || ContainsIgnoringCase(o.text.value, "fatal:")
  {
    var signs := FAILURE_SIGNS;
    assert |signs| == 6 && signs[0] == "error:" && signs[1] == "failed" && signs[2] == "exit status";
    assert signs[3] == "command not found" && signs[4] == "AddressSanitizer" && signs[5] == "fatal:";
    if o.text.Some? {
      FailedBySigns(o, signs);
    }
  }

  function Hashes<H>(log: seq<Observation>, hash: (string, Option<string>) -> H): (hs: seq<H>)
    ensures |hs| == |log|
  {
    if log == [] then []
    else Hashes(log[..|log| - 1], hash) + [hash(log[|log| - 1].tool, log[|log| - 1].args)]
  }

  /** The hash of every action, in order. */
  lemma {:induction false} HashAt<H>(log: seq<Observation>, hash: (string, Option<string>) -> H, i: nat)
    requires i < |log|
    ensures Hashes(log, hash)[i] == hash(log[i].tool, log[i].args)
    decreases |log|
  {
    if i < |log| - 1 { HashAt(log[..|log| - 1], hash, i); }
  }

  const NAME_SIZE: nat := 63
  const ARGS_SIZE: nat := 255

  function ArgsPrefix(o: Observation): string {
    Take(OrElse(o.args, ""), ARGS_SIZE)
  }

  /** The remembered (cut) name and argument prefix of `prev` equal those of `cur`. */
  predicate Repeats(prev: Observation, cur: Observation) {
    Take(prev.tool, NAME_SIZE) == cur.tool && ArgsPrefix(prev) == ArgsPrefix(cur)
  }

  // ---------- Streaks ----------

  /** What the breaker takes from one observation: it failed, it repeats the failure
      just before it, and it closes a loop. */
  datatype Mark = Mark(failed: bool, repeat: bool, looping: bool)

  /** Length of the failure streak as the last observation is counted. */
  function Counted(ms: seq<Mark>): nat
    decreases |ms|, 0
  {
    if ms == [] || !ms[|ms| - 1].failed then 0
    else if ms[|ms| - 1].repeat then LeftBehind(ms[..|ms| - 1]) + 1
    else 1
  }

  /** Recording the last observation trips the breaker. */
  predicate TripsOn(ms: seq<Mark>)
    decreases |ms|, 1
  {
    ms != [] && (Counted(ms) >= 3 || ms[|ms| - 1].looping)
  }

  /** The streak left behind: a trip ends it. */
  function LeftBehind(ms: seq<Mark>): nat
    decreases |ms|, 2
  {
    if TripsOn(ms) then 0 else Counted(ms)
  }

  lemma CountStep(ms: seq<Mark>, m: Mark)
    ensures Counted(ms + [m]) == if !m.failed then 0 else if m.repeat then LeftBehind(ms) + 1 else 1
    ensures TripsOn(ms + [m]) <==> Counted(ms + [m]) >= 3 || m.looping
    ensures LeftBehind(ms + [m]) == if TripsOn(ms + [m]) then 0 else Counted(ms + [m])
  {
    assert (ms + [m])[..|ms|] == ms;
  }

  /** Between calls the streak is 0, 1 or 2. */
  lemma {:induction false} StreakIsSmall(ms: seq<Mark>)
    ensures LeftBehind(ms) <= 2 && Counted(ms) <= 3
  {
    if ms != [] { assert LeftBehind(ms[..|ms| - 1]) <= 2; }
  }

  /** The last `n` observations failed, each but the first repeating the one before, and
      none but the last of them tripped the breaker. */
  ghost predicate Streak(ms: seq<Mark>, n: nat) {
    && n <= |ms|
    && (forall i :: |ms| - n <= i < |ms| ==> ms[i].failed)
    && forall i :: |ms| - n < i < |ms| ==> ms[i].repeat && !TripsOn(ms[..i])
  }

  lemma StreakStep(ms: seq<Mark>, n: nat)
    requires ms != []
    ensures var before, last := ms[..|ms| - 1], ms[|ms| - 1];
            Streak(ms, n + 1) <==>
            last.failed && (n == 0 || (last.repeat && !TripsOn(before) && Streak(before, n)))
  {
    var before := ms[..|ms| - 1];
    forall i | 0 <= i < |before| ensures before[i] == ms[i] && before[..i] == ms[..i] {
    }
    if n > 0 && Streak(ms, n + 1) { assert ms[|ms| - 1].repeat && !TripsOn(ms[..|ms| - 1]); }
  }

  /** What is counted is the length of the longest such streak. */
  lemma {:induction false} StreakMeans(ms: seq<Mark>, n: nat)
    ensures Streak(ms, n) <==> n <= Counted(ms)
    decreases |ms|
  {
    if ms != [] && n > 0 {
      StreakStep(ms, n - 1);
      StreakMeans(ms[..|ms| - 1], n - 1);
    }
  }

  /** So a trip is a loop or three observations of one streak. */
  lemma {:induction false} TripsBy(ms: seq<Mark>)
    requires ms != []
    ensures TripsOn(ms) <==> ms[|ms| - 1].looping || Streak(ms, 3)
  {
    StreakMeans(ms, 3);
  }

  ghost function MarkOf<H>(log: seq<Observation>, r: Rules<H>): Mark
    requires log != []
  {
    var n := |log|;
    var failed := Failed(log[n - 1], r.signs);
    Mark(failed, n >= 2 && failed && Failed(log[n - 2], r.signs) && Repeats(log[n - 2], log[n - 1]),
         Period(Hashes(log, r.hash)) > 0)
  }

  ghost function Marks<H>(log: seq<Observation>, r: Rules<H>): (ms: seq<Mark>)
    ensures |ms| == |log|
  {
    if log == [] then [] else Marks(log[..|log| - 1], r) + [MarkOf(log, r)]
  }

  ghost predicate Trips<H>(log: seq<Observation>, r: Rules<H>) {
    TripsOn(Marks(log, r))
  }

  /** The remembered name and argument prefix. */
  ghost function LastFailed(log: seq<Observation>, signs: seq<string>): (string, string) {
    if log != [] && Failed(log[|log| - 1], signs)
    then (Take(log[|log| - 1].tool, NAME_SIZE), ArgsPrefix(log[|log| - 1])) else ("", "")
  }

  // ---------- What a trip means ----------

  /** The first `n` characters of both are the same, or both end before that. */
  ghost predicate SameStart(a: string, b: string, n: nat) {
    a == b || (|a| >= n && |b| >= n && a[..n] == b[..n])
  }

  /** A call repeats another one when it has its name, in full or the first 63 bytes of a
      longer one, and both begin with the same 255 bytes of arguments. */
  lemma RepeatsMeans(prev: Observation, cur: Observation)
    ensures Repeats(prev, cur) <==>
            && (cur.tool == prev.tool || |prev.tool| > 63) && |cur.tool| <= 63 && SameStart(cur.tool, prev.tool, 63)
            && SameStart(OrElse(cur.args, ""), OrElse(prev.args, ""), 255)
  {
    var a, b := OrElse(prev.args, ""), OrElse(cur.args, "");
    assert |a| >= 255 && |b| >= 255 && a[..255] == b[..255] ==> Take(a, 255) == Take(b, 255);
  }

  lemma {:induction false} MarksAt<H>(log: seq<Observation>, i: nat, r: Rules<H>)
    requires i <= |log|
    ensures Marks(log, r)[..i] == Marks(log[..i], r)
    ensures i < |log| ==> Marks(log, r)[i] == MarkOf(log[..i + 1], r)
    decreases |log|
  {
    if i == |log| {
      assert log[..i] == log && Marks(log, r)[..i] == Marks(log, r);
    } else {
      var before := log[..|log| - 1];
      MarksAt(before, i, r);
      assert before[..i] == log[..i];
      if i < |log| - 1 { assert before[..i + 1] == log[..i + 1]; } else { assert log[..i + 1] == log; }
    }
  }

  /** The last three observations failed, the last two repeat the one before, and neither of
      the first two tripped the breaker. */
  ghost predicate ThreeFailing<H>(log: seq<Observation>, r: Rules<H>) {
    var n := |log|;
    && n >= 3
    && Failed(log[n - 3], r.signs) && Failed(log[n - 2], r.signs) && Failed(log[n - 1], r.signs)
    && Repeats(log[n - 3], log[n - 2]) && Repeats(log[n - 2], log[n - 1])
    && !Trips(log[..n - 2], r) && !Trips(log[..n - 1], r)
  }

  lemma StreakThree(ms: seq<Mark>)
    requires |ms| >= 3
    ensures var n := |ms|;
            Streak(ms, 3) <==>
            && ms[n - 3].failed && ms[n - 2].failed && ms[n - 1].failed && ms[n - 2].repeat && ms[n - 1].repeat
            && !TripsOn(ms[..n - 2]) && !TripsOn(ms[..n - 1])
  {
  }

  lemma LastMark<H>(log: seq<Observation>, r: Rules<H>)
    requires log != []
    ensures MarkOf(log, r).failed <==> Failed(log[|log| - 1], r.signs)
    ensures MarkOf(log, r).looping <==> Period(Hashes(log, r.hash)) > 0
    ensures MarkOf(log, r).repeat <==>
            |log| >= 2 && Failed(log[|log| - 1], r.signs) && Failed(log[|log| - 2], r.signs)
            && Repeats(log[|log| - 2], log[|log| - 1])
  {
  }

  lemma {:induction false} StreakOfThree<H>(log: seq<Observation>, r: Rules<H>)
    requires |log| >= 3
    ensures Streak(Marks(log, r), 3) <==> ThreeFailing(log, r)
  {
    var n := |log|;
    StreakThree(Marks(log, r));
    MarksAt(log, n - 3, r);
    MarksAt(log, n - 2, r);
    MarksAt(log, n - 1, r);
    LastMark(log[..n - 2], r);
    LastMark(log[..n - 1], r);
    LastMark(log[..n], r);
  }

  /** The breaker trips exactly when the actions end in three copies of one block of one,
      two or three, or in three failures of the same call. */
  lemma {:induction false} TripMeans<H>(log: seq<Observation>, r: Rules<H>)
    requires log != []
    ensures Trips(log, r) <==> Loops(Hashes(log, r.hash)) || ThreeFailing(log, r)
  {
    TripsBy(Marks(log, r));
    MarksAt(log, |log| - 1, r);
    assert log[..|log|] == log;
    LastMark(log, r);
    PeriodMeans(Hashes(log, r.hash));
    if |log| >= 3 { StreakOfThree(log, r); }
  }

  // ---------- The code ----------

  class Breaker<H(==)> {
    const ring: Ring<H>
    const rules: Rules<H>
    var cycleMatches: nat
    var detectedPeriod: nat
    var lastTool: string
    var lastArgs: string
    var failures: nat
    var tripped: bool
    /** Everything recorded since the turn state was reset. */
    ghost var log: seq<Observation>

    /** The remembered call is the last of these observations if that failed, and the
        count is the streak they leave behind. */
    ghost predicate Remembers(seen: seq<Observation>)
      reads this`lastTool, this`lastArgs, this`failures
    {
      && failures == LeftBehind(Marks(seen, rules))
      && lastTool == LastFailed(seen, rules.signs).0 && lastArgs == LastFailed(seen, rules.signs).1
    }

    ghost predicate Valid()
      reads this`lastTool, this`lastArgs, this`failures, this`log, ring, ring.history
    {
      ring.Valid() && ring.log == Hashes(log, rules.hash) && Remembers(log)
    }

    constructor (rules: Rules<H>, zero: H)
      ensures Valid() && log == [] && this.rules == rules && !tripped && fresh(ring) && fresh(ring.history)
    {
      ring := new Ring(zero);
      this.rules := rules;
      cycleMatches, detectedPeriod := 0, 0;
      lastTool, lastArgs, failures, tripped := "", "", 0, false;
      log := [];
    }

    /** `belya_harness_reset_turn_state`. */
    method ResetTurn()
      requires Valid()
      modifies this, ring, ring.history
      ensures Valid() && log == [] && !tripped && cycleMatches == detectedPeriod == 0
    {
      failures, lastTool, lastArgs, tripped := 0, "", "", false;
      ring.Reset();
      cycleMatches, detectedPeriod, log := 0, 0, [];
    }

    /** The classification of an observation; the prefix test for "Error:" is covered
        by the sign "error:". */
    method IsFailure(o: Observation) returns (failure: bool)
      ensures failure == Failed(o, rules.signs)
    {
      if o.text.None? { return true; }
      var k := 0;
      while k < |rules.signs|
        invariant 0 <= k <= |rules.signs|
        invariant forall j :: 0 <= j < k ==> !Contains(LowerAll(o.text.value), LowerAll(rules.signs[j]))
      {
        var found := ContainsCaseInsensitive(o.text.value, rules.signs[k]);
        if found { return true; }
        k := k + 1;
      }
      return false;
    }

    /** The update of the remembered call and its count, before a trip resets it. */
    method CountFailure(o: Observation)
      requires Remembers(log) && Failed(o, rules.signs)
      modifies this`lastTool, this`lastArgs, this`failures
      ensures (lastTool, lastArgs) == LastFailed(log + [o], rules.signs)
      ensures failures == Counted(Marks(log + [o], rules))
    {
      CountFailed(log, o, rules);
      var argsPrefix := ArgsPrefix(o);
      if lastTool == o.tool && lastArgs == argsPrefix {
        failures := failures + 1;
      } else {
        lastTool := Take(o.tool, NAME_SIZE);
        lastArgs := argsPrefix;
        failures := 1;
      }
    }

    /** A success forgets the remembered call. */
    method Forget(o: Observation)
      requires !Failed(o, rules.signs)
      modifies this`lastTool, this`lastArgs, this`failures
      ensures (lastTool, lastArgs) == LastFailed(log + [o], rules.signs)
      ensures failures == Counted(Marks(log + [o], rules))
    {
      CountSuccess(log, o, rules);
      failures, lastTool, lastArgs := 0, "", "";
    }

    /** The two branches that decide whether the breaker trips. */
    method Judge(o: Observation, failure: bool, looping: bool) returns (trip: bool)
      requires Remembers(log) && failure == Failed(o, rules.signs)
      requires looping <==> Period(Hashes(log + [o], rules.hash)) > 0
      modifies this`lastTool, this`lastArgs, this`failures
      ensures Remembers(log + [o]) && (trip <==> Trips(log + [o], rules)) && (looping ==> trip)
    {
      if failure { CountFailure(o); } else { Forget(o); }
      CountBehind(log, o, rules, failures);
      trip := failures >= 3 || looping;
      if trip { failures := 0; }
    }

    /** The record in the ring and the scan of the ring. */
    method StoreAndDetect(o: Observation) returns (k: nat)
      requires ring.Valid() && ring.log == Hashes(log, rules.hash)
      modifies ring, ring.history
      ensures ring.Valid() && ring.log == Hashes(log + [o], rules.hash) && k == Period(ring.log)
    {
      Snoc(log, o, rules);
      ring.Store(rules.hash(o.tool, o.args));
      k := ring.DetectLoop();
    }

    /** The flags that report a trip. */
    method Report(k: nat)
      modifies this`tripped, this`cycleMatches, this`detectedPeriod
      ensures tripped
      ensures if k > 0 then detectedPeriod == k && cycleMatches == old(cycleMatches) + 1
              else detectedPeriod == old(detectedPeriod) && cycleMatches == old(cycleMatches)
    {
      tripped := true;
      if k > 0 { cycleMatches, detectedPeriod := cycleMatches + 1, k; }
    }

    /** Everything but those flags. */
    method Observe(o: Observation) returns (trip: bool, k: nat)
      requires Valid()
      modifies this`lastTool, this`lastArgs, this`failures, this`log, ring, ring.history
      ensures Valid() && log == old(log) + [o]
      ensures (trip <==> Trips(log, rules)) && (k > 0 ==> trip)
      ensures k == Period(Hashes(log, rules.hash))
    {
      var failure := IsFailure(o);
      k := StoreAndDetect(o);
      trip := Judge(o, failure, k > 0);
      log := log + [o];
    }

    /** `belya_harness_record_tool_observation`. */
    method Record(o: Observation) returns (trip: bool)
      requires Valid()
      modifies this, ring, ring.history
      ensures Valid() && log == old(log) + [o]
      ensures trip <==> Trips(log, rules)
      ensures tripped <==> old(tripped) || trip
      ensures var k := Period(Hashes(log, rules.hash));
              if k > 0 then detectedPeriod == k && cycleMatches == old(cycleMatches) + 1
              else detectedPeriod == old(detectedPeriod) && cycleMatches == old(cycleMatches)
    {
      var k: nat;
      trip, k := Observe(o);
      if trip { Report(k); }
    }
  }

  lemma Snoc<H>(log: seq<Observation>, o: Observation, r: Rules<H>)
    ensures Hashes(log + [o], r.hash) == Hashes(log, r.hash) + [r.hash(o.tool, o.args)]
    ensures Marks(log + [o], r) == Marks(log, r) + [MarkOf(log + [o], r)]
    ensures MarkOf(log + [o], r).failed == Failed(o, r.signs)
    ensures MarkOf(log + [o], r).looping <==> Period(Hashes(log + [o], r.hash)) > 0
    ensures MarkOf(log + [o], r).repeat <==>
            Failed(o, r.signs) && log != [] && Failed(log[|log| - 1], r.signs) && Repeats(log[|log| - 1], o)
  {
    var now := log + [o];
    assert now[..|now| - 1] == log && now[|log|] == o;
  }

  /** How a failure is counted, in terms of what is remembered. */
  lemma CountFailed<H>(log: seq<Observation>, o: Observation, r: Rules<H>)
    requires Failed(o, r.signs)
    ensures var streak := LeftBehind(Marks(log, r));
            Counted(Marks(log + [o], r)) ==
            if LastFailed(log, r.signs) == (o.tool, ArgsPrefix(o)) then streak + 1 else 1
    ensures LastFailed(log + [o], r.signs) == (Take(o.tool, NAME_SIZE), ArgsPrefix(o))
    ensures LastFailed(log, r.signs) == (o.tool, ArgsPrefix(o)) ==> Take(o.tool, NAME_SIZE) == o.tool
  {
    Snoc(log, o, r);
    CountStep(Marks(log, r), MarkOf(log + [o], r));
    if log == [] || !Failed(log[|log| - 1], r.signs) {
      assert LeftBehind(Marks(log, r)) == 0;
    }
  }

  /** The streak and the decision once it is counted. */
  lemma CountBehind<H>(log: seq<Observation>, o: Observation, r: Rules<H>, counted: nat)
    requires counted == Counted(Marks(log + [o], r))
    ensures var trip := counted >= 3 || Period(Hashes(log + [o], r.hash)) > 0;
            && (Trips(log + [o], r) <==> trip)
            && LeftBehind(Marks(log + [o], r)) == (if trip then 0 else counted)
  {
    Snoc(log, o, r);
    CountStep(Marks(log, r), MarkOf(log + [o], r));
  }

  lemma CountSuccess<H>(log: seq<Observation>, o: Observation, r: Rules<H>)
    requires !Failed(o, r.signs)
    ensures Counted(Marks(log + [o], r)) == 0 && LastFailed(log + [o], r.signs) == ("", "")
  {
    Snoc(log, o, r);
    CountStep(Marks(log, r), MarkOf(log + [o], r));
  }

  // ---------- What the breaker guarantees ----------

  lemma ThreeMarksTrip(ms: seq<Mark>, a: Mark, b: Mark, c: Mark)
    requires a.failed && b.failed && c.failed && b.repeat && c.repeat
    ensures TripsOn(ms + [a]) || TripsOn(ms + [a] + [b]) || TripsOn(ms + [a] + [b] + [c])
  {
    CountStep(ms, a);
    CountStep(ms + [a], b);
    CountStep(ms + [a] + [b], c);
  }

  /** A failing call made three times in a row, with the same name and argument
      prefix, trips the breaker by the third, if its name fits what is remembered. */
  lemma {:induction false} ThreeFailuresTrip<H>(
    log: seq<Observation>, a: Observation, b: Observation, c: Observation, r: Rules<H>)
    requires Failed(a, r.signs) && Failed(b, r.signs) && Failed(c, r.signs)
    requires a.tool == b.tool == c.tool && |a.tool| <= NAME_SIZE
    requires ArgsPrefix(a) == ArgsPrefix(b) == ArgsPrefix(c)
    ensures Trips(log + [a], r) || Trips(log + [a] + [b], r) || Trips(log + [a] + [b] + [c], r)
  {
    Snoc(log, a, r);
    Snoc(log + [a], b, r);
    Snoc(log + [a] + [b], c, r);
    ThreeMarksTrip(Marks(log, r), MarkOf(log + [a], r), MarkOf(log + [a] + [b], r), MarkOf(log + [a] + [b] + [c], r));
  }

  /** The breaker recognises a call as a repeat of itself exactly when its tool name
      fits the 63 bytes remembered; longer names never build a streak. */
  lemma {:induction false} RepeatNeedsShortName<H>(o: Observation, log: seq<Observation>, r: Rules<H>)
    ensures Repeats(o, o) <==> |o.tool| <= NAME_SIZE
    ensures |o.tool| > NAME_SIZE ==> Counted(Marks(log + [o], r)) <= 1
  {
    Snoc(log, o, r);
    CountStep(Marks(log, r), MarkOf(log + [o], r));
  }
}
