/** Whole conversations: every sequence of messages, model turns and compactions. */
module Runs {
  import opened Text
  import opened History

  datatype Event =
    | Say(role: string, content: string)
    | Turn(config: Config, answer: Option<string>, calls: seq<ParsedCall>, results: seq<string>)
    | UserCompact(keep: nat)

  /** The harness appends one result for each call of a response. */
  ghost predicate Complete(e: Event) {
    e.Turn? ==> |e.results| == |e.calls|
  }

  /** A turn starts with the trigger and ends with the results of its calls. */
  ghost function Apply(h: seq<Message>, e: Event, w: Wording): seq<Message>
    requires Complete(e)
  {
    match e
    case Say(role, content) => h + [Plain(role, content)]
    case Turn(c, answer, calls, results) => Tick(c, h, w) + Reply(answer, calls, w) + Results(calls, results)
    case UserCompact(keep) => Compacted(h, keep)
  }

  /** Calls and results are paired, and the two pinned messages call nothing. */
  ghost predicate Healthy(h: seq<Message>) {
    Paired(h) && |h| >= 1 && h[0].calls == [] && (|h| >= 2 ==> h[1].calls == [])
  }

  /** A manual compaction that drops nothing, drops all, or leaves a message without
      calls behind message 0. */
  ghost predicate Compactable(h: seq<Message>, keep: nat) {
    || |h| <= 1 + keep
    || FirstKept(h, |h| - keep) == |h|
    || h[FirstKept(h, |h| - keep)].calls == []
  }

  /** What can be checked before the event: no tool result is said without a call; every
      call of a response has an id, or there is none if the response is refused or comes
      right behind message 0; and a manual compaction is `Compactable`. */
  ghost predicate Allowed(h: seq<Message>, e: Event, w: Wording) {
    match e
    case Say(role, _) => role != "tool"
    case Turn(_, answer, calls, _) => Answerable(answer, calls, w) && (|h| >= 2 || calls == [])
    case UserCompact(keep) => Compactable(h, keep)
  }

  lemma {:induction false} CompactKeepsHealthy(h: seq<Message>, keep: nat)
    requires Healthy(h)
    ensures Healthy(Compacted(h, keep)) <==> Compactable(h, keep)
  {
    if |h| > 1 + keep { CompactedPairing(h, keep); }
  }

  /** The compaction at the start of a turn. */
  lemma {:induction false} TickKeepsHealthy(c: Config, h: seq<Message>, w: Wording)
    requires Healthy(h)
    ensures Healthy(Tick(c, h, w))
    ensures |h| >= 2 ==> |Tick(c, h, w)| >= 2 && Tick(c, h, w)[..2] == h[..2]
    ensures |h| == 1 ==> Tick(c, h, w) == h
  {
    if Trigger(c, h).Some? {
      var t := Tick(c, h, w);
      LadderSize(h, Trigger(c, h).value, w);
      LadderKeeps(h, Trigger(c, h).value, w);
      assert t[0] == t[..2][0] == h[..2][0] && t[1] == t[..2][1] == h[..2][1];
    }
  }

  lemma {:induction false} TurnKeepsHealthy(
    t: seq<Message>, content: Option<string>, calls: seq<ParsedCall>, contents: seq<string>, w: Wording)
    requires Healthy(t) && |contents| == |calls|
    ensures Healthy(t + Reply(content, calls, w) + Results(calls, contents)) <==>
            Answerable(content, calls, w) && (|t| >= 2 || calls == [])
  {
    TurnKeepsPairing(t, content, calls, contents, w);
    var r := t + Reply(content, calls, w) + Results(calls, contents);
    assert r[0] == t[0];
    if |t| >= 2 {
      assert r[1] == t[1];
    } else if !Refused(content, w) {
      assert r[1] == Assistant(OrElse(content, ""), calls);
      assert r[1].calls == [] <==> calls == [];
    }
  }

  /** One event keeps the history healthy exactly when it is allowed. */
  lemma {:induction false} EventKeepsHealthy(h: seq<Message>, e: Event, w: Wording)
    requires Healthy(h) && Complete(e)
    ensures Healthy(Apply(h, e, w)) <==> Allowed(h, e, w)
  {
    match e
    case Say(role, content) =>
      SayKeepsPairing(h, role, content);
    case Turn(c, answer, calls, results) =>
      TickKeepsHealthy(c, h, w);
      TurnKeepsHealthy(Tick(c, h, w), answer, calls, results, w);
    case UserCompact(keep) =>
      CompactKeepsHealthy(h, keep);
  }

  /** No event touches message 0, and none but a manual compaction message 1. */
  lemma {:induction false} EventPins(h: seq<Message>, e: Event, w: Wording)
    requires h != [] && Complete(e)
    ensures Apply(h, e, w) != [] && Apply(h, e, w)[0] == h[0]
    ensures |h| >= 2 && !e.UserCompact? ==> |Apply(h, e, w)| >= 2 && Apply(h, e, w)[1] == h[1]
  {
    if e.Turn? && Trigger(e.config, h).Some? {
      var t := Tick(e.config, h, w);
      LadderSize(h, Trigger(e.config, h).value, w);
      assert t[0] == t[..2][0] == h[..2][0] && t[1] == t[..2][1] == h[..2][1];
    }
  }

  ghost predicate AllComplete(events: seq<Event>) {
    forall e :: e in events ==> Complete(e)
  }

  ghost predicate AllowedRun(h: seq<Message>, events: seq<Event>, w: Wording)
    requires AllComplete(events)
    decreases |events|
  {
    events == [] || (Allowed(h, events[0], w) && AllowedRun(Apply(h, events[0], w), events[1..], w))
  }

  ghost function RunAll(h: seq<Message>, events: seq<Event>, w: Wording): seq<Message>
    requires AllComplete(events)
    decreases |events|
  {
    if events == [] then h else RunAll(Apply(h, events[0], w), events[1..], w)
  }

  /** The history is healthy now and after each of the events. */
  ghost predicate AlwaysHealthy(h: seq<Message>, events: seq<Event>, w: Wording)
    requires AllComplete(events)
    decreases |events|
  {
    Healthy(h) && (events == [] || AlwaysHealthy(Apply(h, events[0], w), events[1..], w))
  }

  /** Over every run of messages, model turns and manual compactions, with the ladder
      firing whenever its trigger says so, calls and results stay paired and the pinned
      messages free of calls exactly when each event is allowed where it occurs. */
  lemma {:induction false} RunKeepsHealthy(h: seq<Message>, events: seq<Event>, w: Wording)
    requires Healthy(h) && AllComplete(events)
    ensures AlwaysHealthy(h, events, w) <==> AllowedRun(h, events, w)
    ensures AllowedRun(h, events, w) ==> Healthy(RunAll(h, events, w))
    decreases |events|
  {
    if events != [] {
      assert events[0] in events;
      EventKeepsHealthy(h, events[0], w);
      if Allowed(h, events[0], w) { RunKeepsHealthy(Apply(h, events[0], w), events[1..], w); }
    }
  }

  /** Over every run message 0 stays byte-identical, and without a manual compaction so
      does message 1, whether the events are allowed or not. */
  lemma {:induction false} RunPins(h: seq<Message>, events: seq<Event>, w: Wording)
    requires h != [] && AllComplete(events)
    ensures RunAll(h, events, w) != [] && RunAll(h, events, w)[0] == h[0]
    ensures |h| >= 2 && (forall e :: e in events ==> !e.UserCompact?) ==>
              |RunAll(h, events, w)| >= 2 && RunAll(h, events, w)[1] == h[1]
    decreases |events|
  {
    if events != [] {
      assert events[0] in events;
      EventPins(h, events[0], w);
      RunPins(Apply(h, events[0], w), events[1..], w);
    }
  }

  /** A system prompt, a question, one answered call and a closing word. */
  lemma {:induction false} SmallHistory(w: Wording) returns (h: seq<Message>)
    ensures Healthy(h) && |h| == 5 && h[2].calls != [] && !IsTool(h[2])
  {
    var system, user, call := Plain("system", ""), Plain("user", ""), ParsedCall(Some("c"), None, None);
    SayKeepsPairing([], "system", "");
    SayKeepsPairing([] + [system], "user", "");
    TurnKeepsPairing([] + [system] + [user], None, [call], [""], w);
    var asked := [] + [system] + [user] + Reply(None, [call], w) + Results([call], [""]);
    SayKeepsPairing(asked, "assistant", "");
    h := asked + [Plain("assistant", "")];
  }

  /** A manual compaction outside that condition: it keeps the pairing, but moves a
      calling message to index 1, where the next ladder strands its calls. */
  lemma {:induction false} UserCompactCanStrandCalls(w: Wording) returns (h: seq<Message>)
    ensures Healthy(h) && !Compactable(h, 3)
    ensures Paired(Compacted(h, 3)) && !Paired(Ladder(Compacted(h, 3), 1, w))
  {
    h := SmallHistory(w);
    CompactedPairing(h, 3);
    assert Compacted(h, 3) == [h[0], h[2], h[3], h[4]];
    LadderKeeps(Compacted(h, 3), 1, w);
  }
}
