/**
 The conversation history of belya_agent.c: what is appended, the compaction
 tiers, and the pairing of tool calls with tool results that a provider insists on.
 This module holds the specification; `Agents` holds the array code.
 */
module History {
  import opened Text
  import opened Folding
  import Tokens

  datatype ToolCall = ToolCall(id: string, name: string, arguments: string)

  datatype Message = Message(role: string, content: string, toolCallId: Option<string>, calls: seq<ToolCall>)

  predicate IsTool(m: Message) {
    m.role == "tool"
  }

  // ---------- Pairing ----------

  ghost function Ids(calls: seq<ToolCall>): multiset<string> {
    if calls == [] then multiset{} else multiset{calls[0].id} + Ids(calls[1..])
  }

  /** The call ids still awaiting a result, or `None` once a tool message has come
      without its call or another message before all results. */
  type Pending = Option<multiset<string>>

  ghost const SETTLED: Pending := Some(multiset{})

  ghost function Advance(p: Pending, m: Message): Pending {
    if p.None? then None
    else if IsTool(m) then
      if m.toolCallId.Some? && m.toolCallId.value in p.value
      then Some(p.value - multiset{m.toolCallId.value}) else None
    else if p.value == multiset{} then Some(Ids(m.calls)) else None
  }

  ghost function Awaited(p: Pending, h: seq<Message>): Pending
    decreases |h|
  {
    if h == [] then p else Awaited(Advance(p, h[0]), h[1..])
  }

  /** Every run of tool messages directly follows the message whose calls it
      answers, and every call is answered exactly once. */
  ghost predicate Paired(h: seq<Message>) {
    Awaited(SETTLED, h) == SETTLED
  }

  lemma {:induction false} AwaitedConcat(p: Pending, a: seq<Message>, b: seq<Message>)
    ensures Awaited(p, a + b) == Awaited(Awaited(p, a), b)
    decreases |a|
  {
    if a == [] {
      assert a + b == b;
    } else {
      assert (a + b)[1..] == a[1..] + b;
      AwaitedConcat(Advance(p, a[0]), a[1..], b);
    }
  }

  lemma AwaitedSnoc(p: Pending, h: seq<Message>, m: Message)
    ensures Awaited(p, h + [m]) == Advance(Awaited(p, h), m)
  {
    AwaitedConcat(p, h, [m]);
    assert [m][1..] == [];
    assert Awaited(Awaited(p, h), [m]) == Awaited(Advance(Awaited(p, h), m), []);
  }

  lemma {:induction false} BrokenStaysBroken(h: seq<Message>)
    ensures Awaited(None, h) == None
    decreases |h|
  {
    if h != [] { BrokenStaysBroken(h[1..]); }
  }

  /** Before a message that is no tool result, everything must be answered. */
  lemma {:induction false} SettledBefore(p: Pending, h: seq<Message>)
    requires h != [] && !IsTool(h[0]) && Awaited(p, h).Some?
    ensures p == SETTLED
  {
    if p.Some? && p.value != multiset{} {
      BrokenStaysBroken(h[1..]);
    } else if p.None? {
      BrokenStaysBroken(h);
    }
  }

  /** Only roles, ids and calls matter. */
  ghost predicate SameShape(a: seq<Message>, b: seq<Message>) {
    |a| == |b| && forall i :: 0 <= i < |a| ==> a[i].(content := "") == b[i].(content := "")
  }

  lemma {:induction false} ShapeDecides(p: Pending, a: seq<Message>, b: seq<Message>)
    requires SameShape(a, b)
    ensures Awaited(p, a) == Awaited(p, b)
    decreases |a|
  {
    if a != [] {
      assert a[0].(content := "") == b[0].(content := "");
      ShapeDecides(Advance(p, a[0]), a[1..], b[1..]);
    }
  }

  // ---------- Appending ----------

  /** How often each role occurs and which tools were called, for the summary. */
  datatype Census = Census(users: nat, assistants: nat, tools: nat, toolsUsed: string)

  /** The texts the code formats (the fold notice, the truncation notice and the summary
      of compressed turns), and those that a transport failure begins with. */
  datatype Wording = Wording(
    fold: Notice, truncation: nat -> string, summary: (nat, Census) -> string, refusals: seq<string>)

  /** A tool call as the model returned it; absent parts are NULL pointers. */
  datatype ParsedCall = ParsedCall(id: Option<string>, name: Option<string>, arguments: Option<string>)

  function Stored(c: ParsedCall): ToolCall {
    ToolCall(OrElse(c.id, ""), OrElse(c.name, ""), OrElse(c.arguments, "{}"))
  }

  function StoredAll(calls: seq<ParsedCall>): seq<ToolCall> {
    seq(|calls|, i requires 0 <= i < |calls| => Stored(calls[i]))
  }

  function Plain(role: string, content: string): Message {
    Message(role, content, None, [])
  }

  function Assistant(content: string, calls: seq<ParsedCall>): Message {
    Message("assistant", content, None, StoredAll(calls))
  }

  /** The response carries a transport failure instead of words of the model. */
  predicate Refused(content: Option<string>, w: Wording) {
    content.Some? && exists r :: r in w.refusals && r <= content.value
  }

  /** What a response appends: nothing when it is refused, whatever it calls. */
  function Reply(content: Option<string>, calls: seq<ParsedCall>, w: Wording): seq<Message> {
    if Refused(content, w) then [] else [Assistant(OrElse(content, ""), calls)]
  }

  function ToolResult(id: Option<string>, content: string): Message {
    Message("tool", content, Some(OrElse(id, "call_default")), [])
  }

  /** The results the harness appends for the calls of one response, in order. */
  function Results(calls: seq<ParsedCall>, contents: seq<string>): seq<Message>
    requires |contents| == |calls|
  {
    seq(|calls|, i requires 0 <= i < |calls| => ToolResult(calls[i].id, contents[i]))
  }

  /** The call as it is stored, and the message that answers it; what stands for absent
      parts differs between the two. */
  predicate StoredAndAnswered(c: ParsedCall, content: string, stored: ToolCall, answer: Message) {
    && stored.id == (match c.id case Some(id) => id case None => "")
    && stored.name == (match c.name case Some(name) => name case None => "")
    && stored.arguments == (match c.arguments case Some(arguments) => arguments case None => "{}")
    && answer.role == "tool" && answer.content == content && answer.calls == []
    && answer.toolCallId == (match c.id case Some(id) => Some(id) case None => Some("call_default"))
  }

  lemma StoredAs(c: ParsedCall, content: string)
    ensures StoredAndAnswered(c, content, Stored(c), ToolResult(c.id, content))
  {
  }

  /** A response that is not refused leaves one message with its text, "" if it has none. */
  lemma {:induction false} ReplyIs(content: Option<string>, calls: seq<ParsedCall>, w: Wording)
    requires !Refused(content, w)
    ensures var text := match content case Some(text) => text case None => "";
            Reply(content, calls, w) == [Message("assistant", text, None, StoredAll(calls))]
  {
  }

  /** Each of its calls is stored and answered in order. */
  lemma {:induction false} CallsAre(calls: seq<ParsedCall>, contents: seq<string>)
    requires |contents| == |calls|
    ensures var stored, results := StoredAll(calls), Results(calls, contents);
            && |stored| == |results| == |calls|
            && forall i :: 0 <= i < |calls| ==> StoredAndAnswered(calls[i], contents[i], stored[i], results[i])
  {
    forall i | 0 <= i < |calls|
      ensures StoredAndAnswered(calls[i], contents[i], StoredAll(calls)[i], Results(calls, contents)[i])
    {
      StoredAs(calls[i], contents[i]);
    }
  }

  ghost function AnswerIds(calls: seq<ParsedCall>): multiset<string> {
    if calls == [] then multiset{}
    else multiset{OrElse(calls[0].id, "call_default")} + AnswerIds(calls[1..])
  }

  lemma {:induction false} ResultsStep(p: multiset<string>, calls: seq<ParsedCall>, contents: seq<string>)
    requires |contents| == |calls| > 0
    ensures var id := OrElse(calls[0].id, "call_default");
            Awaited(Some(p), Results(calls, contents)) ==
            if id in p then Awaited(Some(p - multiset{id}), Results(calls[1..], contents[1..])) else None
  {
    var rs := Results(calls, contents);
    assert rs[1..] == Results(calls[1..], contents[1..]);
    BrokenStaysBroken(rs[1..]);
  }

  lemma TakeOut(p: multiset<string>, id: string, rest: multiset<string>)
    ensures p == multiset{id} + rest <==> id in p && p - multiset{id} == rest
  {
    if id in p { assert p == multiset{id} + (p - multiset{id}); }
    assert (multiset{id} + rest) - multiset{id} == rest;
  }

  /** Results settle exactly the awaited ids when they are the same multiset. */
  lemma {:induction false} ResultsSettle(p: multiset<string>, calls: seq<ParsedCall>, contents: seq<string>)
    requires |contents| == |calls|
    ensures Awaited(Some(p), Results(calls, contents)) == SETTLED <==> p == AnswerIds(calls)
    decreases |calls|
  {
    if calls != [] {
      var id := OrElse(calls[0].id, "call_default");
      ResultsStep(p, calls, contents);
      TakeOut(p, id, AnswerIds(calls[1..]));
      if id in p { ResultsSettle(p - multiset{id}, calls[1..], contents[1..]); }
    }
  }

  ghost predicate AllHaveIds(calls: seq<ParsedCall>) {
    forall c :: c in calls ==> c.id.Some?
  }

  lemma StoredTail(calls: seq<ParsedCall>)
    requires calls != []
    ensures Ids(StoredAll(calls)) == multiset{OrElse(calls[0].id, "")} + Ids(StoredAll(calls[1..]))
    ensures AllHaveIds(calls) <==> calls[0].id.Some? && AllHaveIds(calls[1..])
  {
    assert StoredAll(calls)[1..] == StoredAll(calls[1..]);
    assert calls == [calls[0]] + calls[1..];
  }

  lemma {:induction false} IdsMatch(calls: seq<ParsedCall>)
    requires AllHaveIds(calls)
    ensures Ids(StoredAll(calls)) == AnswerIds(calls)
    decreases |calls|
  {
    if calls != [] {
      StoredTail(calls);
      IdsMatch(calls[1..]);
    }
  }

  /** A missing id is stored as "" but answered as "call_default", so the two sides
      never balance again. */
  lemma {:induction false} MissingIdUnbalances(calls: seq<ParsedCall>)
    ensures var stored, answered := Ids(StoredAll(calls))["call_default"], AnswerIds(calls)["call_default"];
            stored <= answered && (!AllHaveIds(calls) ==> stored < answered)
    decreases |calls|
  {
    if calls != [] {
      StoredTail(calls);
      MissingIdUnbalances(calls[1..]);
    }
  }

  /** The results of a response's calls settle: its calls are stored, and with the ids
      they are answered with; or there are none. */
  ghost predicate Answerable(content: Option<string>, calls: seq<ParsedCall>, w: Wording) {
    if Refused(content, w) then calls == [] else AllHaveIds(calls)
  }

  lemma {:induction false} AnswersMatch(calls: seq<ParsedCall>)
    ensures Ids(StoredAll(calls)) == AnswerIds(calls) <==> AllHaveIds(calls)
    ensures multiset{} == AnswerIds(calls) <==> calls == []
  {
    if AllHaveIds(calls) { IdsMatch(calls); } else { MissingIdUnbalances(calls); }
    if calls != [] { assert OrElse(calls[0].id, "call_default") in AnswerIds(calls); }
  }

  /** What a reply leaves to be answered. */
  lemma {:induction false} ReplyAwaits(content: Option<string>, calls: seq<ParsedCall>, w: Wording)
    ensures Awaited(SETTLED, Reply(content, calls, w)) ==
            Some(if Refused(content, w) then multiset{} else Ids(StoredAll(calls)))
  {
    if !Refused(content, w) {
      AwaitedSnoc(SETTLED, [], Assistant(OrElse(content, ""), calls));
    }
  }

  /** One model response with its tool results keeps the history paired exactly when
      every call came with an id, or, on a refused response, when there is no call. */
  lemma {:induction false} TurnKeepsPairing(
    h: seq<Message>, content: Option<string>, calls: seq<ParsedCall>, contents: seq<string>, w: Wording)
    requires Paired(h) && |contents| == |calls|
    ensures Paired(h + Reply(content, calls, w) + Results(calls, contents)) <==> Answerable(content, calls, w)
  {
    var reply := Reply(content, calls, w);
    AwaitedConcat(SETTLED, h + reply, Results(calls, contents));
    AwaitedConcat(SETTLED, h, reply);
    ReplyAwaits(content, calls, w);
    ResultsSettle(Awaited(SETTLED, reply).value, calls, contents);
    AnswersMatch(calls);
  }

  /** A plain message keeps it paired exactly when it is no tool result. */
  lemma {:induction false} SayKeepsPairing(h: seq<Message>, role: string, content: string)
    requires Paired(h)
    ensures Paired(h + [Plain(role, content)]) <==> role != "tool"
  {
    AwaitedSnoc(SETTLED, h, Plain(role, content));
    assert Ids([]) == multiset{};
  }

  // ---------- Dropping messages ----------

  /** First position from `i` on that does not hold a tool message. */
  function FirstKept(h: seq<Message>, i: nat): (r: nat)
    requires i <= |h|
    ensures i <= r <= |h|
    ensures forall j :: i <= j < r ==> IsTool(h[j])
    ensures r < |h| ==> !IsTool(h[r])
    decreases |h| - i
  {
    if i < |h| && IsTool(h[i]) then FirstKept(h, i + 1) else i
  }

  /** What is left behind the orphan filter is paired on its own. */
  lemma {:induction false} KeptIsPaired(h: seq<Message>, i: nat)
    requires i <= |h| && Paired(h)
    ensures Paired(h[FirstKept(h, i)..])
  {
    var s := FirstKept(h, i);
    assert h == h[..s] + h[s..];
    AwaitedConcat(SETTLED, h[..s], h[s..]);
    if s < |h| { SettledBefore(Awaited(SETTLED, h[..s]), h[s..]); }
  }

  /** Putting a new head before such a rest: it must end settled. */
  lemma {:induction false} HeadDecides(head: seq<Message>, rest: seq<Message>)
    requires Paired(rest) && (rest != [] ==> !IsTool(rest[0]))
    ensures Paired(head + rest) <==> Paired(head)
  {
    AwaitedConcat(SETTLED, head, rest);
    if rest != [] && Paired(head + rest) { SettledBefore(Awaited(SETTLED, head), rest); }
  }

  /** `belya_agent_compact_history`. */
  function Compacted(h: seq<Message>, keep: nat): seq<Message> {
    if |h| <= 1 + keep then h else h[..1] + h[FirstKept(h, |h| - keep)..]
  }

  function AddName(used: string, name: string): string {
    if Find(used, name, 0).Some? then used
    else (if used == "" then "" else used + ", ") + name
  }

  function AddNames(used: string, calls: seq<ToolCall>): string {
    if calls == [] then used
    else AddName(AddNames(used, calls[..|calls| - 1]), calls[|calls| - 1].name)
  }

  function Tally(c: Census, m: Message): Census {
    if m.role == "user" then c.(users := c.users + 1)
    else if m.role == "assistant" then
      c.(assistants := c.assistants + 1, toolsUsed := AddNames(c.toolsUsed, m.calls))
    else if IsTool(m) then c.(tools := c.tools + 1)
    else c
  }

  function CensusOf(h: seq<Message>): Census {
    if h == [] then Census(0, 0, 0, "") else Tally(CensusOf(h[..|h| - 1]), h[|h| - 1])
  }

  lemma ContainsInLonger(s: string, t: string, needle: string)
    requires Contains(s, needle) && s <= t
    ensures Contains(t, needle)
  {
    var i :| At(s, needle, i);
    assert t[i..i + |needle|] == s[i..i + |needle|];
    assert At(t, needle, i);
  }

  lemma {:induction false} AddNamesLists(used: string, calls: seq<ToolCall>)
    ensures used <= AddNames(used, calls)
    ensures forall c :: c in calls ==> Contains(AddNames(used, calls), c.name)
    decreases |calls|
  {
    if calls != [] {
      var before, name := calls[..|calls| - 1], calls[|calls| - 1].name;
      AddNamesLists(used, before);
      var s, t := AddNames(used, before), AddNames(used, calls);
      assert s <= t;
      if Find(s, name, 0).None? {
        assert t[|t| - |name|..|t|] == name;
        assert At(t, name, |t| - |name|);
      } else {
        assert At(s, name, Find(s, name, 0).value);
      }
      forall c | c in calls ensures Contains(t, c.name) {
        if c in before { ContainsInLonger(s, t, c.name); }
      }
    }
  }

  /** The summary names every tool called by the assistant messages it replaces. */
  lemma {:induction false} EveryToolIsListed(h: seq<Message>)
    ensures forall i, c :: 0 <= i < |h| && h[i].role == "assistant" && c in h[i].calls ==>
              Contains(CensusOf(h).toolsUsed, c.name)
    decreases |h|
  {
    if h != [] {
      var before, m := h[..|h| - 1], h[|h| - 1];
      EveryToolIsListed(before);
      var s, t := CensusOf(before).toolsUsed, CensusOf(h).toolsUsed;
      AddNamesLists(s, m.calls);
      forall i, c | 0 <= i < |h| && h[i].role == "assistant" && c in h[i].calls ensures Contains(t, c.name) {
        if i < |h| - 1 {
          assert before[i] == h[i];
          ContainsInLonger(s, t, c.name);
        }
      }
    }
  }

  /** The message that stands for those from 2 up to `dropEnd`. */
  function SummaryMessage(h: seq<Message>, dropEnd: nat, w: Wording): Message
    requires 2 <= dropEnd <= |h|
  {
    Plain("assistant", w.summary(dropEnd, CensusOf(h[2..dropEnd])))
  }

  /** The pinned pair, the summary, and the rest behind the orphan filter. */
  function Replaced(h: seq<Message>, dropEnd: nat, summary: Message): seq<Message>
    requires 2 <= dropEnd <= |h|
  {
    h[..2] + [summary] + h[FirstKept(h, dropEnd)..]
  }

  /** `belya_agent_compact_history_middle_out`. */
  function MiddleOut(h: seq<Message>, keep: nat, w: Wording): seq<Message> {
    if |h| <= 2 + keep then h
    else
      var dropEnd := |h| - keep;
      Replaced(h, dropEnd, SummaryMessage(h, dropEnd, w))
  }

  /** Compressing the middle keeps the history paired exactly when nothing is
      awaited after the two pinned messages. */
  lemma {:induction false} MiddleOutPairing(h: seq<Message>, keep: nat, w: Wording)
    requires Paired(h) && |h| > 2 + keep
    ensures Paired(MiddleOut(h, keep, w)) <==> Paired(h[..2])
  {
    var rest := h[FirstKept(h, |h| - keep)..];
    var summary := SummaryMessage(h, |h| - keep, w);
    KeptIsPaired(h, |h| - keep);
    HeadDecides(h[..2] + [summary], rest);
    AwaitedSnoc(SETTLED, h[..2], summary);
    assert Ids(summary.calls) == multiset{};
  }

  /** A message that calls something leaves it to be answered. */
  lemma CallsAreAwaited(m: Message)
    ensures Ids(m.calls) == multiset{} <==> m.calls == []
  {
    if m.calls != [] { assert m.calls[0].id in Ids(m.calls); }
  }

  /** The first messages of a paired history are no dangling results. */
  lemma {:induction false} PrefixIsUnbroken(h: seq<Message>, n: nat)
    requires Paired(h) && n <= |h|
    ensures Awaited(SETTLED, h[..n]).Some?
  {
    assert h == h[..n] + h[n..];
    AwaitedConcat(SETTLED, h[..n], h[n..]);
    BrokenStaysBroken(h[n..]);
  }

  /** One message alone is settled exactly when it calls nothing. */
  lemma {:induction false} FirstSettles(h: seq<Message>)
    requires Paired(h) && h != []
    ensures Paired(h[..1]) <==> h[0].calls == []
  {
    assert h[..1] == [] + [h[0]];
    AwaitedSnoc(SETTLED, [], h[0]);
    PrefixIsUnbroken(h, 1);
    CallsAreAwaited(h[0]);
  }

  /** Under a first message that calls nothing, "settled after two" just says that
      the second one calls nothing either. */
  lemma {:induction false} PinnedPairing(h: seq<Message>)
    requires Paired(h) && |h| >= 2 && h[0].calls == []
    ensures Paired(h[..2]) <==> h[1].calls == []
  {
    FirstSettles(h);
    assert h[..2] == h[..1] + [h[1]];
    AwaitedSnoc(SETTLED, h[..1], h[1]);
    PrefixIsUnbroken(h, 2);
    CallsAreAwaited(h[1]);
  }

  lemma {:induction false} CompactedPairing(h: seq<Message>, keep: nat)
    requires Paired(h) && |h| > 1 + keep
    ensures Paired(Compacted(h, keep)) <==> h[0].calls == []
  {
    KeptIsPaired(h, |h| - keep);
    HeadDecides(h[..1], h[FirstKept(h, |h| - keep)..]);
    FirstSettles(h);
  }

  // ---------- The ladder ----------

  predicate IsTrailingBlank(c: char) {
    c == ' ' || c == '\t' || c == '\r' || c == '\n'
  }

  function StripTrailing(s: string): (r: string)
    ensures r <= s
  {
    if s != "" && IsTrailingBlank(s[|s| - 1]) then StripTrailing(s[..|s| - 1]) else s
  }

  /** Messages 0 and 1 are the cache-stable prefix. */
  const STABLE_PREFIX: nat := 2
  const TRUNCATE_ABOVE: nat := 1200
  const TRUNCATE_KEEP: nat := 400

  /** Tier 1. */
  function Pruned(h: seq<Message>): seq<Message> {
    seq(|h|, i requires 0 <= i < |h| =>
      if i < STABLE_PREFIX then h[i] else h[i].(content := StripTrailing(h[i].content)))
  }

  function TruncatedText(s: string, w: Wording): string
    requires |s| > TRUNCATE_ABOVE
  {
    s[..TRUNCATE_KEEP] + w.truncation(|s| - 2 * TRUNCATE_KEEP) + s[|s| - TRUNCATE_KEEP..]
  }

  function TruncateMessage(m: Message, w: Wording): Message {
    if (IsTool(m) || m.toolCallId.Some?) && |m.content| > TRUNCATE_ABOVE
    then m.(content := TruncatedText(m.content, w)) else m
  }

  function TruncationCutoff(n: nat): nat {
    if n > 3 then n - 3 else STABLE_PREFIX
  }

  /** Tier 2. */
  function Truncated(h: seq<Message>, w: Wording): seq<Message> {
    seq(|h|, i requires 0 <= i < |h| =>
      if STABLE_PREFIX <= i < TruncationCutoff(|h|) then TruncateMessage(h[i], w) else h[i])
  }

  /** Tier 3 reads a `keep` of 0 as 8. */
  function Window(keep: nat): nat {
    if keep > 0 then keep else 8
  }

  /** Tiers 1, 2 and 3 in order. */
  function Ladder(h: seq<Message>, keep: nat, w: Wording): seq<Message> {
    MiddleOut(Truncated(Pruned(h), w), Window(keep), w)
  }

  lemma {:induction false} LightTiersKeepShape(h: seq<Message>, w: Wording)
    ensures SameShape(h, Pruned(h)) && SameShape(h, Truncated(h, w))
    ensures |h| >= 2 ==> Pruned(h)[..2] == h[..2] == Truncated(h, w)[..2]
  {
  }

  /** What tier 2 shortens keeps its first and its last 400 bytes around a notice with
      the exact number of bytes between them. */
  lemma TruncationKeepsEnds(m: Message, w: Wording) returns (omitted: nat)
    requires TruncateMessage(m, w) != m
    ensures var s, t := m.content, TruncateMessage(m, w).content;
            && |s| == TRUNCATE_KEEP + omitted + TRUNCATE_KEEP
            && |t| == TRUNCATE_KEEP + |w.truncation(omitted)| + TRUNCATE_KEEP
            && t[..TRUNCATE_KEEP] == s[..TRUNCATE_KEEP]
            && t[TRUNCATE_KEEP..|t| - TRUNCATE_KEEP] == w.truncation(omitted)
            && t[|t| - TRUNCATE_KEEP..] == s[|s| - TRUNCATE_KEEP..]
  {
    omitted := |m.content| - 2 * TRUNCATE_KEEP;
  }

  lemma {:induction false} FirstKeptByShape(a: seq<Message>, b: seq<Message>, i: nat)
    requires SameShape(a, b) && i <= |a|
    ensures FirstKept(a, i) == FirstKept(b, i)
    decreases |a| - i
  {
    if i < |a| {
      assert a[i].(content := "") == b[i].(content := "");
      FirstKeptByShape(a, b, i + 1);
    }
  }

  /** The lighter tiers do not move where the kept window opens. */
  lemma {:induction false} LightTiersKeepStart(h: seq<Message>, i: nat, w: Wording)
    requires i <= |h|
    ensures FirstKept(Truncated(Pruned(h), w), i) == FirstKept(h, i)
  {
    LightTiersKeepShape(h, w);
    LightTiersKeepShape(Pruned(h), w);
    FirstKeptByShape(h, Pruned(h), i);
    FirstKeptByShape(Pruned(h), Truncated(Pruned(h), w), i);
  }

  /** The exact number of messages the ladder leaves. */
  lemma {:induction false} LadderLength(h: seq<Message>, keep: nat, w: Wording)
    ensures var n := Window(keep);
            |Ladder(h, keep, w)| == if |h| <= 2 + n then |h| else 3 + |h| - FirstKept(h, |h| - n)
  {
    if |h| > 2 + Window(keep) { LightTiersKeepStart(h, |h| - Window(keep), w); }
  }

  /** The ladder pins messages 0 and 1, never grows the history, and leaves at most
      three messages more than the window. */
  lemma {:induction false} LadderSize(h: seq<Message>, keep: nat, w: Wording)
    requires |h| >= 2
    ensures var r := Ladder(h, keep, w);
            |r| >= 2 && r[..2] == h[..2] && |r| <= |h| && |r| <= Window(keep) + 3
  {
    LadderLength(h, keep, w);
    var b := Truncated(Pruned(h), w);
    LightTiersKeepShape(h, w);
    LightTiersKeepShape(Pruned(h), w);
    if |b| > 2 + Window(keep) { assert MiddleOut(b, Window(keep), w)[..2] == b[..2]; }
  }

  /** It keeps the pairing exactly when it does not fire or message 1 calls nothing. */
  lemma {:induction false} LadderKeeps(h: seq<Message>, keep: nat, w: Wording)
    requires Paired(h) && |h| >= 2 && h[0].calls == []
    ensures Paired(Ladder(h, keep, w)) <==> |h| <= 2 + Window(keep) || h[1].calls == []
  {
    var a := Pruned(h);
    var b := Truncated(a, w);
    LightTiersKeepShape(h, w);
    LightTiersKeepShape(a, w);
    ShapeDecides(SETTLED, h, a);
    ShapeDecides(SETTLED, a, b);
    assert b[..2][0] == h[..2][0] && b[..2][1] == h[..2][1];
    if |b| > 2 + Window(keep) {
      MiddleOutPairing(b, Window(keep), w);
      PinnedPairing(b);
    }
  }

  // ---------- Tokens ----------

  ghost function ArgumentTokens(calls: seq<ToolCall>): nat {
    if calls == [] then 0
    else ArgumentTokens(calls[..|calls| - 1]) + Tokens.Estimate(calls[|calls| - 1].arguments)
  }

  ghost function MessageTokens(m: Message): nat {
    4 + Tokens.Estimate(m.content) + ArgumentTokens(m.calls)
  }

  ghost function TotalTokens(h: seq<Message>): nat {
    if h == [] then 0 else TotalTokens(h[..|h| - 1]) + MessageTokens(h[|h| - 1])
  }

  lemma TokensStep(h: seq<Message>, i: nat)
    requires i < |h|
    ensures TotalTokens(h[..i + 1]) == TotalTokens(h[..i]) + MessageTokens(h[i])
  {
    assert h[..i + 1][..i] == h[..i];
  }

  lemma {:induction false} TokensPointwise(a: seq<Message>, b: seq<Message>)
    requires |a| == |b| && forall i :: 0 <= i < |a| ==> MessageTokens(a[i]) <= MessageTokens(b[i])
    ensures TotalTokens(a) <= TotalTokens(b)
    decreases |a|
  {
    if a != [] { TokensPointwise(a[..|a| - 1], b[..|b| - 1]); }
  }

  /** Tier 1 never raises the token total. */
  lemma {:induction false} PruningSavesTokens(h: seq<Message>)
    ensures TotalTokens(Pruned(h)) <= TotalTokens(h)
  {
    var a := Pruned(h);
    forall i | 0 <= i < |h| ensures MessageTokens(a[i]) <= MessageTokens(h[i]) {
      var s, t := h[i].content, StripTrailing(h[i].content);
      assert s == t + s[|t|..];
      Tokens.EstimateOfConcat(t, s[|t|..]);
    }
    TokensPointwise(a, h);
  }

  lemma {:induction false} StripIsIdempotent(s: string)
    ensures StripTrailing(StripTrailing(s)) == StripTrailing(s)
  {
    if s != "" && IsTrailingBlank(s[|s| - 1]) { StripIsIdempotent(s[..|s| - 1]); }
  }

  /** A second pass of either light tier changes nothing, provided a truncation
      notice is shorter than the 400 bytes left over below the threshold. */
  lemma {:induction false} LightTiersAreIdempotent(h: seq<Message>, w: Wording)
    requires forall m :: m in h && |m.content| > TRUNCATE_ABOVE ==>
               |w.truncation(|m.content| - 2 * TRUNCATE_KEEP)| <= TRUNCATE_ABOVE - 2 * TRUNCATE_KEEP
    ensures Pruned(Pruned(h)) == Pruned(h)
    ensures Truncated(Truncated(h, w), w) == Truncated(h, w)
  {
    forall i | 0 <= i < |h| ensures Pruned(Pruned(h))[i] == Pruned(h)[i] {
      StripIsIdempotent(h[i].content);
    }
    forall i | 0 <= i < |h| ensures Truncated(Truncated(h, w), w)[i] == Truncated(h, w)[i] {
      assert h[i] in h;
    }
  }

  // ---------- The trigger ----------

  datatype Config = Config(
    hasDb: bool, maxContextMessages: nat, maxContextTokens: nat, compactionPercent: nat,
    compactionKeep: nat, turnCount: nat, schemaTokens: nat)

  function TokenThreshold(c: Config): nat {
    var budget := if c.maxContextTokens > 0 then c.maxContextTokens else 128000;
    if budget >= 128000 then 96000 else (budget / 100) * c.compactionPercent
  }

  function KeepSetting(c: Config): nat {
    if c.compactionKeep > 0 then c.compactionKeep else 15
  }

  /** The window size chosen at the start of a step, or `None` when nothing fires. */
  ghost function Trigger(c: Config, h: seq<Message>): Option<nat> {
    if |h| <= 1 || !c.hasDb then None
    else if TotalTokens(h) + c.schemaTokens >= TokenThreshold(c) && |h| > KeepSetting(c) then Some(KeepSetting(c))
    else if c.turnCount >= 100 && |h| > 20 then Some(15)
    else if c.maxContextMessages > 0 && |h| > c.maxContextMessages then
      Some(if c.maxContextMessages > 20 then 20 else c.maxContextMessages / 2)
    else None
  }

  ghost function Tick(c: Config, h: seq<Message>, w: Wording): seq<Message> {
    match Trigger(c, h)
    case None => h
    case Some(keep) => Ladder(h, keep, w)
  }

  /** When the trigger fires, the unsigned `msg_count - 1 - keep` does not wrap. The
      ladder then leaves at most `keep + 3` messages, exactly unless `keep` is 0
      (which a message limit of 1 causes): then the window is really 8, and more
      than 3 messages are left whenever there were 4 to 10, or more of which the
      last 8 are not all tool results. */
  lemma {:induction false} TickBound(c: Config, h: seq<Message>, w: Wording)
    requires Trigger(c, h).Some?
    ensures var keep := Trigger(c, h).value;
            && keep <= |h| - 1
            && (keep == 0 ==> c.maxContextMessages == 1)
            && |Tick(c, h, w)| <= Window(keep) + 3
            && (|Tick(c, h, w)| <= keep + 3 <==>
                  keep > 0 || |h| <= 3 || (|h| > 10 && FirstKept(h, |h| - 8) == |h|))
  {
    LadderLength(h, Trigger(c, h).value, w);
  }

  /** A message limit of 1 asks for a window of 0, and all four messages stay. */
  lemma WindowOfZero(w: Wording) returns (c: Config, h: seq<Message>)
    ensures Trigger(c, h) == Some(0) && |h| == 4 && |Tick(c, h, w)| == 4
  {
    c := Config(true, 1, 0, 80, 15, 0, 0);
    var m := Plain("user", "");
    h := [m, m, m, m];
  }
}
