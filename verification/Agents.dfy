/** The message array of belya_agent.c, rewritten in place. */
module Agents {
  import opened Archive
  import opened Text
  import opened Decimal
  import opened Folding
  import opened History
  import opened Machine
  import Tokens

  /** What `free_single_message` leaves behind. */
  const FREED: Message := Message("", "", None, [])

  const INITIAL_CAP: nat := 64

  class Agent {
    var messages: array<Message>
    var msgCount: nat
    var config: Config
    const wording: Wording
    /** The rows of `session_messages_archived`. */
    ghost var archive: seq<Row>

    ghost predicate Valid()
      reads this
    {
      msgCount <= messages.Length && messages.Length > 0
    }

    ghost function Messages(): seq<Message>
      reads this, messages
      requires Valid()
    {
      messages[..msgCount]
    }

    constructor (config: Config, wording: Wording, system: string)
      ensures Valid() && fresh(messages)
      ensures this.config == config && this.wording == wording && archive == []
      ensures Messages() == [Plain("system", system)]
    {
      messages := new Message[INITIAL_CAP](_ => FREED);
      this.config, this.wording, archive := config, wording, [];
      msgCount := 1;
      new;
      messages[0] := Plain("system", system);
    }

    /** The growth step shared by all appends, and the append itself. */
    method Push(m: Message)
      requires Valid()
      modifies this`messages, this`msgCount, messages
      ensures Valid() && (messages == old(messages) || fresh(messages))
      ensures Messages() == old(Messages()) + [m]
    {
      if msgCount >= messages.Length {
        var grown := new Message[2 * messages.Length](_ => FREED);
        forall i | 0 <= i < messages.Length {
          grown[i] := messages[i];
        }
        messages := grown;
      }
      assert messages[..msgCount] == old(Messages());
      messages[msgCount] := m;
      msgCount := msgCount + 1;
      assert messages[..msgCount] == messages[..msgCount - 1] + [m];
    }

    /** `belya_agent_add_message`. */
    method AddMessage(role: string, content: string)
      requires Valid()
      modifies this`messages, this`msgCount, messages
      ensures Valid() && (messages == old(messages) || fresh(messages))
      ensures Messages() == old(Messages()) + [Plain(role, content)]
    {
      Push(Plain(role, content));
    }

    /** `belya_agent_add_tool_result`; a NULL result is stored as "". */
    method AddToolResult(id: Option<string>, result: Option<string>, limitEnv: Option<int>)
      requires Valid()
      modifies this`messages, this`msgCount, messages
      ensures Valid() && (messages == old(messages) || fresh(messages))
      ensures Messages() == old(Messages()) +
              [ToolResult(id, Folded(OrElse(result, ""), LimitFromEnv(limitEnv), wording.fold))]
    {
      var content := FoldToolOutput(OrElse(result, ""), LimitFromEnv(limitEnv), wording.fold);
      Push(ToolResult(id, content));
    }

    /** `belya_agent_compact_history`. */
    method CompactHistory(keepRecent: nat)
      requires Valid()
      modifies this`msgCount, messages
      ensures Valid() && Messages() == Compacted(old(Messages()), keepRecent)
    {
      if msgCount <= 1 + keepRecent { return; }
      var dropCount: nat := msgCount - 1 - keepRecent;
      Remove(1, 1 + dropCount);
    }

    /** Frees the messages from `from` up to `to` and the tool results behind them, and
        moves the rest down. */
    method Remove(from: nat, to: nat)
      requires Valid() && from <= to <= msgCount
      modifies this`msgCount, messages
      ensures Valid()
      ensures Messages() == old(Messages())[..from] + old(Messages())[FirstKept(old(Messages()), to)..]
    {
      ghost var h := Messages();
      FreeRange(from, to);
      var start := FreeLeadingTools(h, to);
      assert messages[..from] == h[..from];
      CloseGap(h[start..], from, start);
    }

    /** Frees the messages at positions `from` up to `to`. */
    method FreeRange(from: nat, to: nat)
      requires Valid() && from <= to <= msgCount
      modifies messages
      ensures forall k :: 0 <= k < from || to <= k < msgCount ==> messages[k] == old(messages[k])
    {
      var i := from;
      while i < to
        invariant from <= i <= to
        invariant forall k :: 0 <= k < from || to <= k < msgCount ==> messages[k] == old(messages[k])
      {
        messages[i] := FREED;
        i := i + 1;
      }
    }

    /** Frees the tool messages from `from` on and returns where they end. */
    method FreeLeadingTools(ghost h: seq<Message>, from: nat) returns (start: nat)
      requires Valid() && |h| == msgCount && from <= msgCount
      requires forall k :: from <= k < msgCount ==> messages[k] == h[k]
      modifies messages
      ensures start == FirstKept(h, from)
      ensures forall k :: 0 <= k < from ==> messages[k] == old(messages[k])
      ensures forall k :: start <= k < msgCount ==> messages[k] == h[k]
    {
      start := from;
      while start < msgCount && IsTool(messages[start])
        invariant from <= start <= msgCount
        invariant FirstKept(h, from) == FirstKept(h, start)
        invariant forall k :: 0 <= k < from ==> messages[k] == old(messages[k])
        invariant forall k :: start <= k < msgCount ==> messages[k] == h[k]
      {
        messages[start] := FREED;
        start := start + 1;
      }
    }

    /** The in-place shift: the rest from `start` moves down to `dst`. Every message
        is read before its slot is written, because `dst` is not behind `start`. */
    method CloseGap(ghost kept: seq<Message>, dst: nat, start: nat)
      requires Valid() && dst <= start <= msgCount && |kept| == msgCount - start
      requires forall k :: 0 <= k < |kept| ==> messages[start + k] == kept[k]
      modifies this`msgCount, messages
      ensures Valid() && Messages() == old(messages[..dst]) + kept
    {
      ghost var head := messages[..dst];
      var remaining := msgCount - start;
      var i := 0;
      while i < remaining
        modifies messages
        invariant 0 <= i <= remaining
        invariant messages[..dst] == head
        invariant forall k :: 0 <= k < i ==> messages[dst + k] == kept[k]
        invariant forall k :: i <= k < remaining ==> messages[start + k] == kept[k]
      {
        messages[dst + i] := messages[start + i];
        i := i + 1;
      }
      msgCount := dst + remaining;
      GapClosed(messages[..], head, kept);
    }

    /** `belya_agent_clear_history`. */
    method ClearHistory()
      requires Valid()
      modifies this`msgCount, messages
      ensures Valid()
      ensures Messages() == if |old(Messages())| <= 1 then old(Messages()) else old(Messages())[..1]
    {
      if msgCount <= 1 { return; }
      FreeRange(1, msgCount);
      msgCount := 1;
    }

    method ListTools(listed: string, calls: seq<ToolCall>) returns (used: string)
      ensures used == AddNames(listed, calls)
    {
      used := listed;
      var t := 0;
      while t < |calls|
        invariant 0 <= t <= |calls| && used == AddNames(listed, calls[..t])
      {
        assert calls[..t + 1][..t] == calls[..t];
        used := AddName(used, calls[t].name);
        t := t + 1;
      }
      assert calls[..t] == calls;
    }

    /** The census of the messages from 2 up to `dropEnd`. */
    method TakeCensus(dropEnd: nat) returns (c: Census)
      requires Valid() && 2 <= dropEnd <= msgCount
      ensures c == CensusOf(Messages()[2..dropEnd])
    {
      ghost var h := Messages();
      c := Census(0, 0, 0, "");
      var i := 2;
      while i < dropEnd
        invariant 2 <= i <= dropEnd && c == CensusOf(h[2..i])
      {
        var m := messages[i];
        ghost var was := c;
        if m.role == "user" {
          c := c.(users := c.users + 1);
        } else if m.role == "assistant" {
          var used := ListTools(c.toolsUsed, m.calls);
          c := c.(assistants := c.assistants + 1, toolsUsed := used);
        } else if IsTool(m) {
          c := c.(tools := c.tools + 1);
        }
        assert c == Tally(was, m);
        assert h[2..i + 1][..i - 2] == h[2..i] && h[2..i + 1][i - 2] == m;
        i := i + 1;
      }
    }

    method Summarise(dropEnd: nat) returns (m: Message)
      requires Valid() && 2 <= dropEnd <= msgCount
      ensures m == SummaryMessage(Messages(), dropEnd, wording)
    {
      var census := TakeCensus(dropEnd);
      m := Plain("assistant", wording.summary(dropEnd, census));
    }

    /** One inserted row for each message from 2 up to `dropEnd`. */
    method ArchiveUpTo(dropEnd: nat)
      requires Valid() && 2 <= dropEnd <= msgCount
      modifies this`archive
      ensures archive == old(archive) + Rows(Messages(), 2, dropEnd)
    {
      var j := 2;
      while j < dropEnd
        modifies this`archive
        invariant 2 <= j <= dropEnd && archive == old(archive) + Rows(Messages(), 2, j)
      {
        var row := RowOf(j, messages[j]);
        assert Rows(Messages(), 2, j + 1) == Rows(Messages(), 2, j) + [row];
        assert archive + [row] == old(archive) + (Rows(Messages(), 2, j) + [row]);
        archive := archive + [row];
        j := j + 1;
      }
    }

    /** The archive loop of the middle-out compaction. */
    method ArchiveOlder(keepRecent: nat)
      requires Valid() && msgCount > 2 + keepRecent
      modifies this`archive
      ensures archive == old(archive) + if config.hasDb then ArchivedBy(Messages(), keepRecent) else []
    {
      if config.hasDb { ArchiveUpTo(msgCount - keepRecent); }
    }

    /** The summary and the rewriting of the array. */
    method ReplaceOlder(keepRecent: nat)
      requires Valid() && msgCount > 2 + keepRecent
      modifies this`msgCount, messages
      ensures Valid() && Messages() == MiddleOut(old(Messages()), keepRecent, wording)
    {
      var dropEnd: nat := msgCount - keepRecent;
      var summary := Summarise(dropEnd);
      ReplaceMiddle(dropEnd, summary);
    }

    /** `belya_agent_compact_history_middle_out`. */
    method CompactMiddleOut(keepRecent: nat)
      requires Valid()
      modifies this`msgCount, this`archive, messages
      ensures Valid() && Messages() == MiddleOut(old(Messages()), keepRecent, wording)
      ensures archive == old(archive) + if config.hasDb then ArchivedBy(old(Messages()), keepRecent) else []
    {
      if msgCount <= 2 + keepRecent { return; }
      ArchiveOlder(keepRecent);
      ReplaceOlder(keepRecent);
    }

    /** Everything from 2 up to `dropEnd` and the tool results behind it give way to
        the summary at index 2. */
    method ReplaceMiddle(dropEnd: nat, summary: Message)
      requires Valid() && 2 < dropEnd <= msgCount
      modifies this`msgCount, messages
      ensures Valid()
      ensures Messages() == Replaced(old(Messages()), dropEnd, summary)
    {
      ghost var h := Messages();
      FreeRange(2, dropEnd);
      var start := FreeLeadingTools(h, dropEnd);
      messages[2] := summary;
      assert messages[..3] == h[..2] + [summary];
      CloseGap(h[start..], 3, start);
    }

    method Strip(content: string) returns (r: string)
      ensures r == StripTrailing(content)
    {
      var clen := |content|;
      assert content[..clen] == content;
      while clen > 0 && IsTrailingBlank(content[clen - 1])
        invariant 0 <= clen <= |content|
        invariant StripTrailing(content[..clen]) == StripTrailing(content)
      {
        assert content[..clen][..clen - 1] == content[..clen - 1];
        clen := clen - 1;
      }
      r := content[..clen];
    }

    /** Tier 1. */
    method Prune()
      requires Valid()
      modifies messages
      ensures Valid() && Messages() == Pruned(old(Messages()))
    {
      ghost var h := Messages();
      var i := STABLE_PREFIX;
      while i < msgCount
        invariant STABLE_PREFIX <= i
        invariant forall k :: 0 <= k < i && k < msgCount ==> messages[k] == Pruned(h)[k]
        invariant forall k :: i <= k < msgCount ==> messages[k] == h[k]
      {
        var stripped := Strip(messages[i].content);
        messages[i] := messages[i].(content := stripped);
        i := i + 1;
      }
    }

    /** Tier 2. */
    method TruncateTools()
      requires Valid()
      modifies messages
      ensures Valid() && Messages() == Truncated(old(Messages()), wording)
    {
      ghost var h := Messages();
      var cutoff := if msgCount > 3 then msgCount - 3 else STABLE_PREFIX;
      var i := STABLE_PREFIX;
      while i < cutoff
        invariant STABLE_PREFIX <= i && (i <= cutoff || i == STABLE_PREFIX)
        invariant forall k :: 0 <= k < i && k < msgCount ==> messages[k] == Truncated(h, wording)[k]
        invariant forall k :: i <= k < msgCount ==> messages[k] == h[k]
      {
        messages[i] := TruncateOne(messages[i]);
        i := i + 1;
      }
    }

    method TruncateOne(m: Message) returns (r: Message)
      ensures r == TruncateMessage(m, wording)
    {
      r := m;
      if IsTool(m) || m.toolCallId.Some? {
        if |m.content| > TRUNCATE_ABOVE {
          var oldLen := |m.content|;
          r := m.(content := m.content[..400] + wording.truncation(oldLen - 800) + m.content[oldLen - 400..]);
        }
      }
    }

    /** The three calls of `belya_agent_compact_5tier` made by the trigger; each
        tier returns at once on a history of at most two messages. */
    method RunLadder(keep: nat)
      requires Valid()
      modifies this`msgCount, this`archive, messages
      ensures Valid() && Messages() == Ladder(old(Messages()), keep, wording)
      ensures archive == old(archive) + if config.hasDb
                then ArchivedBy(Truncated(Pruned(old(Messages())), wording), Window(keep)) else []
    {
      ghost var h := Messages();
      if msgCount <= 2 {
        assert Truncated(Pruned(h), wording) == h;
        return;
      }
      Prune();
      TruncateTools();
      CompactMiddleOut(if keep > 0 then keep else 8);
    }

    method ArgumentCost(calls: seq<ToolCall>) returns (total: nat)
      ensures total == ArgumentTokens(calls)
    {
      total := 0;
      var k := 0;
      while k < |calls|
        invariant 0 <= k <= |calls| && total == ArgumentTokens(calls[..k])
      {
        assert calls[..k + 1][..k] == calls[..k];
        var t := Tokens.CountEstimatedTokens(calls[k].arguments);
        total := total + t;
        k := k + 1;
      }
      assert calls[..k] == calls;
    }

    /** `belya_agent_total_tokens`. */
    method TotalTokenCount() returns (total: nat)
      requires Valid()
      ensures total == TotalTokens(Messages()) + config.schemaTokens
    {
      ghost var h := Messages();
      total := 0;
      var i := 0;
      while i < msgCount
        invariant 0 <= i <= msgCount && total == TotalTokens(h[..i])
      {
        TokensStep(h, i);
        var content := Tokens.CountEstimatedTokens(messages[i].content);
        var arguments := ArgumentCost(messages[i].calls);
        total := total + 4 + content + arguments;
        i := i + 1;
      }
      assert h[..i] == h;
      total := total + config.schemaTokens;
    }

    /** The decision at the head of `belya_agent_step`. */
    method ChooseWindow() returns (window: Option<nat>)
      requires Valid()
      ensures window == Trigger(config, Messages())
    {
      if msgCount <= 1 { return None; }
      var needsCompaction, keep := false, 10;
      if config.maxContextMessages > 0 && msgCount > config.maxContextMessages {
        keep := if config.maxContextMessages > 20 then 20 else config.maxContextMessages / 2;
        needsCompaction := true;
      }
      var estimate := TotalTokenCount();
      var setting := if config.compactionKeep > 0 then config.compactionKeep else 15;
      if estimate >= TokenThreshold(config) && msgCount > setting {
        keep := setting;
        needsCompaction := true;
      } else if config.turnCount >= 100 && msgCount > 20 {
        keep := 15;
        needsCompaction := true;
      }
      return if needsCompaction && config.hasDb then Some(keep) else None;
    }

    /** The compaction block of `belya_agent_step`. */
    method CompactIfNeeded()
      requires Valid()
      modifies this`msgCount, this`archive, messages
      ensures Valid() && Messages() == Tick(config, old(Messages()), wording)
      ensures archive == old(archive) + TickRows(config, old(Messages()), wording)
    {
      var window := ChooseWindow();
      if window.Some? {
        var dropCount: nat := msgCount - 1 - window.value;
        RunLadder(window.value);
      }
    }

    /** `belya_agent_step` around the request: the compaction before it, and afterwards
        the assistant message and the turn count, unless the response starts like a
        transport failure. */
    method Step(content: Option<string>, calls: seq<ParsedCall>)
      requires Valid()
      modifies this, messages
      ensures Valid() && (messages == old(messages) || fresh(messages))
      ensures Messages() == Tick(old(config), old(Messages()), wording) + Reply(content, calls, wording)
      ensures archive == old(archive) + TickRows(old(config), old(Messages()), wording)
      ensures config == if Refused(content, wording) then old(config)
                        else old(config).(turnCount := old(config).turnCount + 1)
    {
      CompactIfNeeded();
      var refused := StartsRefused(content);
      if refused { return; }
      Push(Assistant(OrElse(content, ""), calls));
      config := config.(turnCount := config.turnCount + 1);
    }

    /** The `strncmp` tests on the response. */
    method StartsRefused(content: Option<string>) returns (refused: bool)
      ensures refused <==> Refused(content, wording)
    {
      if content.None? { return false; }
      var k := 0;
      while k < |wording.refusals|
        invariant 0 <= k <= |wording.refusals|
        invariant forall j :: 0 <= j < k ==> !(wording.refusals[j] <= content.value)
      {
        var prefix := wording.refusals[k];
        if |prefix| <= |content.value| && content.value[..|prefix|] == prefix {
          assert prefix in wording.refusals && prefix <= content.value;
          return true;
        }
        k := k + 1;
      }
      return false;
    }
  }

  lemma GapClosed(s: seq<Message>, head: seq<Message>, kept: seq<Message>)
    requires |head| + |kept| <= |s| && s[..|head|] == head
    requires forall k :: 0 <= k < |kept| ==> s[|head| + k] == kept[k]
    ensures s[..|head| + |kept|] == head + kept
  {
    assert s[|head|..|head| + |kept|] == kept;
  }

  // ---------- The texts ----------

  function TruncationNotice(omitted: nat): string {
    "\n\n[... Truncated " + Numeral(omitted) + " bytes of older tool observation ...]\n\n"
  }

  /** On a 64-bit machine the truncation notice is short enough for the light tiers
      to be idempotent. */
  lemma TruncationNoticeIsShort(omitted: nat)
    requires omitted <= SIZE_MAX
    ensures |TruncationNotice(omitted)| <= TRUNCATE_ABOVE - 2 * TRUNCATE_KEEP
  {
    NumeralOfSize(omitted);
  }

  /** So it meets what `LadderRowsAreOriginal` asks for. */
  lemma BelyaNoticesAreShort(h: seq<Message>)
    requires forall m :: m in h ==> |m.content| <= SIZE_MAX
    ensures ShortNotices(h, BELYA_WORDING)
  {
    forall m, n: nat | m in h && n <= |m.content|
      ensures |BELYA_WORDING.truncation(n)| <= TRUNCATE_ABOVE - 2 * TRUNCATE_KEEP
    {
      TruncationNoticeIsShort(n);
    }
  }

  /** A refused response begins with one of two texts. */
  lemma RefusedIs(content: string)
    ensures Refused(Some(content), BELYA_WORDING) <==> "Network Error:" <= content || "API Error:" <= content
  {
    var a, b := TRANSPORT_FAILURES[0], TRANSPORT_FAILURES[1];
    assert BELYA_WORDING.refusals == [a, b] && a == "Network Error:" && b == "API Error:";
    assert a in [a, b] && b in [a, b];
  }

  function SummaryTitle(dropEnd: nat): string {
    "[CONTEXT COMPACTOR: INTERMEDIATE TURNS 2-" + Numeral(if dropEnd > 0 then dropEnd - 1 else 0) + " COMPRESSED]\n" +
    "- Summary: Compressed " + Numeral(if dropEnd > 1 then dropEnd - 2 else 0) + " intermediate turns ("
  }

  function SummaryHead(dropEnd: nat, c: Census): string {
    SummaryTitle(dropEnd) + (Numeral(c.users) + " user inputs") + ", " +
    (Numeral(c.assistants) + " assistant reasoning steps") + ", " +
    (Numeral(c.tools) + " tool outputs") + ").\n- Tools Executed: "
  }

  const SUMMARY_TAIL: string :=
    "\n- Status: Root mission constraints pinned; full intermediate traces archived in SQLite session_messages_archived."

  function SummaryText(dropEnd: nat, c: Census): string {
    SummaryHead(dropEnd, c) + (if c.toolsUsed != "" then c.toolsUsed else "none") + SUMMARY_TAIL
  }

  lemma ContainsItself(s: string)
    ensures Contains(s, s)
  {
    assert At(s, s, 0);
  }

  lemma Pieces(a: string, b: string, c: string, d: string, e: string, f: string, g: string, t: string)
    ensures var s := a + b + c + d + e + f + g + t;
            Contains(s, b) && Contains(s, d) && Contains(s, f)
  {
    var s := a + b + c + d + e + f + g + t;
    assert s == a + b + (c + d + e + f + g + t);
    assert s == (a + b + c) + d + (e + f + g + t);
    assert s == (a + b + c + d + e) + f + (g + t);
    ContainsItself(b);
    ContainsItself(d);
    ContainsItself(f);
    Between(a, b, c + d + e + f + g + t, b);
    Between(a + b + c, d, e + f + g + t, d);
    Between(a + b + c + d + e, f, g + t, f);
  }

  /** The truncation notice says how many bytes were cut out. */
  lemma {:induction false} NoticeCounts(n: nat)
    ensures Contains(TruncationNotice(n), Numeral(n) + " bytes of older tool observation ...]\n\n")
  {
    EndsTheText("\n\n[... Truncated ", Numeral(n), " bytes of older tool observation ...]\n\n");
  }

  lemma EndsTheText(a: string, b: string, c: string)
    ensures Contains(a + b + c, b + c)
  {
    assert a + b + c == a + (b + c);
    assert At(a + (b + c), b + c, |a|);
  }

  lemma TitleParts(a: string, b: string, c: string, d: string, e: string, f: string)
    ensures Contains(a + b + c + d + e + f, a + b + c) && Contains(a + b + c + d + e + f, d + e + f)
  {
    assert a + b + c + d + e + f == (a + b + c) + (d + e + f);
    assert At(a + b + c + d + e + f, a + b + c, 0);
    assert At(a + b + c + d + e + f, d + e + f, |a + b + c|);
  }

  /** The summary says which messages it stands for, and how many they are. */
  lemma {:induction false} SummaryRange(dropEnd: nat, c: Census)
    requires dropEnd >= 2
    ensures var s := SummaryText(dropEnd, c);
            && Contains(s, "[CONTEXT COMPACTOR: INTERMEDIATE TURNS 2-" + Numeral(dropEnd - 1) + " COMPRESSED]\n")
            && Contains(s, "- Summary: Compressed " + Numeral(dropEnd - 2) + " intermediate turns (")
  {
    var a, b := "[CONTEXT COMPACTOR: INTERMEDIATE TURNS 2-", Numeral(dropEnd - 1);
    var d, e := "- Summary: Compressed ", Numeral(dropEnd - 2);
    TitleParts(a, b, " COMPRESSED]\n", d, e, " intermediate turns (");
    var title, s := SummaryTitle(dropEnd), SummaryText(dropEnd, c);
    assert title <= s;
    ContainsInLonger(title, s, a + b + " COMPRESSED]\n");
    ContainsInLonger(title, s, d + e + " intermediate turns (");
  }

  /** It says how many messages of each role there were. */
  lemma SummaryCounts(dropEnd: nat, c: Census)
    ensures var s := SummaryText(dropEnd, c);
            && Contains(s, Numeral(c.users) + " user inputs")
            && Contains(s, Numeral(c.assistants) + " assistant reasoning steps")
            && Contains(s, Numeral(c.tools) + " tool outputs")
  {
    var tools := if c.toolsUsed != "" then c.toolsUsed else "none";
    var last := ").\n- Tools Executed: ";
    Pieces(SummaryTitle(dropEnd), Numeral(c.users) + " user inputs", ", ",
           Numeral(c.assistants) + " assistant reasoning steps", ", ", Numeral(c.tools) + " tool outputs", last,
           tools + SUMMARY_TAIL);
    assert SummaryText(dropEnd, c) == SummaryHead(dropEnd, c) + (tools + SUMMARY_TAIL);
  }

  lemma Between(head: string, s: string, tail: string, needle: string)
    requires Contains(s, needle)
    ensures Contains(head + s + tail, needle)
  {
    var i :| At(s, needle, i);
    var t := head + s + tail;
    assert t[|head| + i..|head| + i + |needle|] == s[i..i + |needle|];
    assert At(t, needle, |head| + i);
  }

  /** The message that stands for the compressed ones names every tool they called. */
  lemma {:induction false} SummaryNamesTools(h: seq<Message>, dropEnd: nat, i: nat, call: ToolCall)
    requires 2 <= i < dropEnd <= |h| && h[i].role == "assistant" && call in h[i].calls && call.name != ""
    ensures Contains(SummaryMessage(h, dropEnd, BELYA_WORDING).content, call.name)
  {
    var middle := h[2..dropEnd];
    var c := CensusOf(middle);
    EveryToolIsListed(middle);
    assert middle[i - 2] == h[i];
    Between(SummaryHead(dropEnd, c), c.toolsUsed, SUMMARY_TAIL, call.name);
  }

  const TRANSPORT_FAILURES: seq<string> := ["Network Error:", "API Error:"]

  const BELYA_WORDING: Wording := Wording(Marker, TruncationNotice, SummaryText, TRANSPORT_FAILURES)

  /** A response that starts like a transport failure is dropped although it calls a
      tool with an id; the result of that call is left without its call. */
  lemma {:induction false} RefusedTurnStrandsResult(h: seq<Message>)
    requires Paired(h)
    ensures var content, call := Some("API Error: 503"), ParsedCall(Some("c1"), None, None);
            Refused(content, BELYA_WORDING) && AllHaveIds([call]) &&
            !Paired(h + Reply(content, [call], BELYA_WORDING) + Results([call], [""]))
  {
    var content, call := "API Error: 503", ParsedCall(Some("c1"), None, None);
    var prefix := TRANSPORT_FAILURES[1];
    assert content[..10] == prefix && prefix in BELYA_WORDING.refusals;
    TurnKeepsPairing(h, Some(content), [call], [""], BELYA_WORDING);
  }
}
