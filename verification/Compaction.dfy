/**
 What compaction makes of a history, written out message by message and without the
 functions of `History` that compute it.
 */
module Compaction {
  import opened Archive
  import opened Text
  import opened History
  import Tokens

  // ---------- Tier 1 ----------

  /** `r` is `s` without the blanks at its end. */
  ghost predicate IsStripped(s: string, r: string) {
    && r <= s
    && (forall k :: |r| <= k < |s| ==> s[k] == ' ' || s[k] == '\t' || s[k] == '\r' || s[k] == '\n')
    && (r != "" ==> var c := r[|r| - 1]; c != ' ' && c != '\t' && c != '\r' && c != '\n')
  }

  lemma {:induction false} StripRemovesBlanks(s: string)
    ensures IsStripped(s, StripTrailing(s))
  {
    if s != "" && IsTrailingBlank(s[|s| - 1]) {
      var t := s[..|s| - 1];
      StripRemovesBlanks(t);
      assert forall k :: 0 <= k < |t| ==> t[k] == s[k];
    }
  }

  /** There is no other text like that. */
  lemma StrippedIsUnique(s: string, a: string, b: string)
    requires IsStripped(s, a) && IsStripped(s, b)
    ensures a == b
  {
    assert a != "" ==> a[|a| - 1] == s[|a| - 1];
    assert b != "" ==> b[|b| - 1] == s[|b| - 1];
  }

  /** Stripping removes the blanks at the end, all of them and nothing else. */
  lemma {:induction false} StripIs(s: string, r: string)
    ensures r == StripTrailing(s) <==> IsStripped(s, r)
  {
    StripRemovesBlanks(s);
    if IsStripped(s, r) { StrippedIsUnique(s, r, StripTrailing(s)); }
  }

  /** Tier 1 leaves the two pinned messages alone and strips all others. */
  lemma {:induction false} PrunedIs(h: seq<Message>)
    ensures |Pruned(h)| == |h|
    ensures forall i :: 0 <= i < |h| && i < 2 ==> Pruned(h)[i] == h[i]
    ensures forall i :: 2 <= i < |h| ==>
              Pruned(h)[i].(content := "") == h[i].(content := "") && IsStripped(h[i].content, Pruned(h)[i].content)
  {
    forall i | 2 <= i < |h| ensures IsStripped(h[i].content, Pruned(h)[i].content) {
      StripRemovesBlanks(h[i].content);
    }
  }

  // ---------- The ladder ----------

  /** `now` is `t`, or its first and last 400 bytes around a notice if it has more than
      1200 and may be cut. */
  ghost predicate IsShortened(t: string, now: string, mayCut: bool, w: Wording) {
    now == if mayCut && |t| > 1200 then t[..400] + w.truncation(|t| - 800) + t[|t| - 400..] else t
  }

  /** What the lighter tiers make of a message: the blanks at its end are gone, and an old
      tool result is shortened. */
  ghost predicate Lightened(was: Message, now: Message, isOld: bool, w: Wording) {
    && now.(content := "") == was.(content := "")
    && exists t :: IsStripped(was.content, t) &&
         IsShortened(t, now.content, isOld && (was.role == "tool" || was.toolCallId.Some?), w)
  }

  lemma {:induction false} MessageLightened(m: Message, isOld: bool, w: Wording)
    ensures var stripped := m.(content := StripTrailing(m.content));
            Lightened(m, if isOld then TruncateMessage(stripped, w) else stripped, isOld, w)
  {
    var t := StripTrailing(m.content);
    var stripped := m.(content := t);
    StripRemovesBlanks(m.content);
    var now := if isOld then TruncateMessage(stripped, w) else stripped;
    assert IsShortened(t, now.content, isOld && (m.role == "tool" || m.toolCallId.Some?), w);
  }

  /** Tier 2 spares the last three messages. */
  lemma {:induction false} LightTiersAre(h: seq<Message>, i: nat, w: Wording)
    requires i < |h|
    ensures var now := Truncated(Pruned(h), w)[i];
            if i < 2 then now == h[i] else Lightened(h[i], now, i + 3 < |h|, w)
  {
    if i >= 2 { MessageLightened(h[i], i + 3 < |h|, w); }
  }

  /** Short histories only go through the lighter tiers. */
  lemma {:induction false} LadderOnShort(h: seq<Message>, keep: nat, w: Wording)
    requires |h| <= 2 + (if keep > 0 then keep else 8)
    ensures var r := Ladder(h, keep, w);
            && |r| == |h|
            && (forall i :: 0 <= i < |h| && i < 2 ==> r[i] == h[i])
            && forall i :: 2 <= i < |h| ==> Lightened(h[i], r[i], i + 3 < |h|, w)
  {
    forall i: nat | i < |h|
      ensures if i < 2 then Ladder(h, keep, w)[i] == h[i] else Lightened(h[i], Ladder(h, keep, w)[i], i + 3 < |h|, w)
    {
      LightTiersAre(h, i, w);
    }
  }

  lemma SplicedParts(b: seq<Message>, summary: Message, start: nat, r: seq<Message>)
    requires 2 <= start <= |b| && r == b[..2] + [summary] + b[start..]
    ensures |r| == 3 + |b| - start && r[0] == b[0] && r[1] == b[1] && r[2] == summary
    ensures forall i {:trigger b[i]} :: start <= i < |b| ==> r[3 + i - start] == b[i]
  {
  }

  lemma {:induction false} WindowIs(h: seq<Message>, keep: nat, w: Wording) returns (summary: Message)
    requires |h| > 2 + Window(keep)
    ensures summary.role == "assistant" && summary.toolCallId == None && summary.calls == []
    ensures var b, start := Truncated(Pruned(h), w), FirstKept(h, |h| - Window(keep));
            Ladder(h, keep, w) == b[..2] + [summary] + b[start..]
  {
    var d := |h| - Window(keep);
    LightTiersKeepStart(h, d, w);
    summary := SummaryMessage(Truncated(Pruned(h), w), d, w);
  }

  /** Of longer ones the ladder leaves the two pinned messages, a plain assistant message
      and the window from `start` on: the last `keep` messages (8 for 0) without the tool
      results they open with. Each message of the window is only lightened. */
  lemma {:induction false} LadderOnLong(h: seq<Message>, keep: nat, w: Wording) returns (start: nat)
    requires |h| > 2 + (if keep > 0 then keep else 8)
    ensures |h| - (if keep > 0 then keep else 8) <= start <= |h|
    ensures forall i :: |h| - (if keep > 0 then keep else 8) <= i < start ==> h[i].role == "tool"
    ensures start < |h| ==> h[start].role != "tool"
    ensures var r := Ladder(h, keep, w);
            && |r| == 3 + |h| - start && r[0] == h[0] && r[1] == h[1]
            && r[2].role == "assistant" && r[2].toolCallId == None && r[2].calls == []
            && forall i :: start <= i < |h| ==> Lightened(h[i], r[3 + i - start], i + 3 < |h|, w)
  {
    var r, b := Ladder(h, keep, w), Truncated(Pruned(h), w);
    start := FirstKept(h, |h| - Window(keep));
    var summary := WindowIs(h, keep, w);
    SplicedParts(b, summary, start, r);
    LightTiersAre(h, 0, w);
    LightTiersAre(h, 1, w);
    forall i | start <= i < |h| ensures Lightened(h[i], r[3 + i - start], i + 3 < |h|, w) {
      assert r[3 + i - start] == b[i];
      LightTiersAre(h, i, w);
    }
  }

  lemma {:induction false} CensusOfShape(a: seq<Message>, b: seq<Message>)
    requires SameShape(a, b)
    ensures CensusOf(a) == CensusOf(b)
    decreases |a|
  {
    if a != [] {
      var n := |a| - 1;
      assert a[n].(content := "") == b[n].(content := "");
      assert a[n].role == b[n].role && a[n].calls == b[n].calls;
      CensusOfShape(a[..n], b[..n]);
    }
  }

  /** That message summarises exactly the messages it stands for, as they were. */
  lemma {:induction false} SummaryIs(h: seq<Message>, keep: nat, w: Wording)
    requires |h| > 2 + (if keep > 0 then keep else 8)
    ensures var d := |h| - (if keep > 0 then keep else 8);
            |Ladder(h, keep, w)| > 2 && Ladder(h, keep, w)[2].content == w.summary(d, CensusOf(h[2..d]))
  {
    var b, d := Truncated(Pruned(h), w), |h| - Window(keep);
    forall i | 2 <= i < d ensures b[i].(content := "") == h[i].(content := "") { LightTiersAre(h, i, w); }
    CensusOfShape(b[2..d], h[2..d]);
    LightTiersKeepStart(h, d, w);
    SplicedParts(b, SummaryMessage(b, d, w), FirstKept(h, d), Ladder(h, keep, w));
  }

  // ---------- The archive ----------

  /** The row has the position of the message and, but for its ids, the message as the
      lighter tiers leave it. */
  ghost predicate RowHolds(row: Row, i: nat, m: Message, isOld: bool, w: Wording) {
    && row.turnIdx == i && row.role == m.role && |row.calls| == |m.calls|
    && (forall t :: 0 <= t < |m.calls| ==> row.calls[t] == (m.calls[t].name, m.calls[t].arguments))
    && Lightened(m, m.(content := row.content), isOld, w)
  }

  lemma {:induction false} RowOfLightened(i: nat, m: Message, now: Message, isOld: bool, w: Wording)
    requires Lightened(m, now, isOld, w)
    ensures RowHolds(RowOf(i, now), i, m, isOld, w)
  {
    assert now == m.(content := now.content) by {
      assert now.(content := "").role == m.role && now.(content := "").calls == m.calls;
      assert now.(content := "").toolCallId == m.toolCallId;
    }
  }

  /** Before a model call either nothing happens, or every message that the ladder replaces
      by its summary gets a row, in order. */
  lemma {:induction false} TickArchives(c: Config, h: seq<Message>, w: Wording)
    ensures Trigger(c, h) == None ==> Tick(c, h, w) == h && TickRows(c, h, w) == []
    ensures Trigger(c, h).Some? ==>
              var rows, window := TickRows(c, h, w), if Trigger(c, h) == Some(0) then 8 else Trigger(c, h).value;
              && |rows| == (if |h| > 2 + window then |h| - 2 - window else 0)
              && forall k :: 0 <= k < |rows| ==> RowHolds(rows[k], 2 + k, h[2 + k], 2 + k + 3 < |h|, w)
  {
    if Trigger(c, h).Some? {
      var rows, b := TickRows(c, h, w), Truncated(Pruned(h), w);
      forall k | 0 <= k < |rows| ensures RowHolds(rows[k], 2 + k, h[2 + k], 2 + k + 3 < |h|, w) {
        LightTiersAre(h, 2 + k, w);
        RowOfLightened(2 + k, h[2 + k], b[2 + k], 2 + k + 3 < |h|, w);
        assert rows[k] == RowOf(2 + k, b[2 + k]);
      }
    }
  }

  // ---------- The manual compaction ----------

  /** Message 0 and the last `keep` messages stay, without the tool results the latter
      open with; all between is dropped. */
  lemma {:induction false} CompactedConserves(h: seq<Message>, keep: nat)
    returns (dropped: seq<Message>, orphans: seq<Message>, kept: seq<Message>)
    requires |h| > 1 + keep
    ensures h == [h[0]] + dropped + orphans + kept && Compacted(h, keep) == [h[0]] + kept
    ensures |orphans| + |kept| == keep
    ensures forall k :: 0 <= k < |orphans| ==> orphans[k].role == "tool"
    ensures kept != [] ==> kept[0].role != "tool"
  {
    var d := |h| - keep;
    var s := FirstKept(h, d);
    dropped, orphans, kept := h[1..d], h[d..s], h[s..];
    assert h[..1] == [h[0]];
  }

  // ---------- The census ----------

  ghost predicate HasRole(h: seq<Message>, role: string, i: nat) {
    i < |h| && h[i].role == role
  }

  ghost function Having(h: seq<Message>, role: string): set<nat> {
    set i: nat | i < |h| && HasRole(h, role, i)
  }

  lemma RoleSnoc(h: seq<Message>, m: Message, role: string, i: nat)
    ensures HasRole(h + [m], role, i) <==> HasRole(h, role, i) || (i == |h| && m.role == role)
  {
  }

  lemma HavingSnoc(h: seq<Message>, m: Message, role: string)
    ensures |Having(h + [m], role)| == |Having(h, role)| + (if m.role == role then 1 else 0)
  {
    var now, before := Having(h + [m], role), Having(h, role);
    var added: set<nat> := if m.role == role then {|h|} else {};
    forall i: nat ensures i in now <==> i in before + added {
      RoleSnoc(h, m, role, i);
    }
    assert now == before + added && before !! added;
  }

  /** The census counts the messages of each role. */
  lemma {:induction false} CensusCounts(h: seq<Message>)
    ensures var c := CensusOf(h);
            c.users == |Having(h, "user")| && c.assistants == |Having(h, "assistant")| && c.tools == |Having(h, "tool")|
    decreases |h|
  {
    if h == [] {
      assert Having(h, "user") == Having(h, "assistant") == Having(h, "tool") == {};
    } else {
      var before, m := h[..|h| - 1], h[|h| - 1];
      CensusCounts(before);
      HavingSnoc(before, m, "user");
      HavingSnoc(before, m, "assistant");
      HavingSnoc(before, m, "tool");
      assert before + [m] == h;
    }
  }

  /** Names with a comma and a blank between them. */
  ghost function Listed(names: seq<string>): string {
    if names == [] then ""
    else if |names| == 1 then names[0]
    else Listed(names[..|names| - 1]) + ", " + names[|names| - 1]
  }

  ghost predicate Names(calls: seq<ToolCall>, name: string) {
    exists k :: 0 <= k < |calls| && calls[k].name == name
  }

  ghost predicate Called(h: seq<Message>, name: string) {
    exists i :: 0 <= i < |h| && h[i].role == "assistant" && Names(h[i].calls, name)
  }

  lemma AddNameIsList(names: seq<string>, name: string) returns (now: seq<string>)
    requires "" !in names
    ensures AddName(Listed(names), name) == Listed(now) && "" !in now
    ensures now == names || now == names + [name]
  {
    if Find(Listed(names), name, 0).None? {
      assert name != "" by { assert At(Listed(names), "", 0); }
      ListedSnoc(names, name);
      now := names + [name];
    } else {
      now := names;
    }
  }

  lemma {:induction false} AddNamesIsList(names: seq<string>, calls: seq<ToolCall>) returns (now: seq<string>)
    requires "" !in names
    ensures AddNames(Listed(names), calls) == Listed(now) && "" !in now
    ensures forall n :: n in now ==> n in names || Names(calls, n)
    decreases |calls|
  {
    now := names;
    if calls != [] {
      var last, before := |calls| - 1, calls[..|calls| - 1];
      var mid := AddNamesIsList(names, before);
      now := AddNameIsList(mid, calls[last].name);
      forall n | n in now ensures n in names || Names(calls, n) {
        if n !in mid {
          assert calls[last].name == n;
        } else if Names(before, n) {
          var k :| 0 <= k < |before| && before[k].name == n;
          assert calls[k].name == n;
        }
      }
    }
  }

  lemma ListedSnoc(names: seq<string>, name: string)
    requires "" !in names
    ensures Listed(names + [name]) == (if Listed(names) == "" then "" else Listed(names) + ", ") + name
    ensures Listed(names) == "" <==> names == []
  {
    assert (names + [name])[..|names|] == names;
    if |names| == 1 { assert names[0] in names; }
  }

  /** The tool list of the summary is a list of names of called tools. */
  lemma {:induction false} CensusListsCalls(h: seq<Message>) returns (names: seq<string>)
    ensures CensusOf(h).toolsUsed == Listed(names) && "" !in names
    ensures forall n :: n in names ==> Called(h, n)
    decreases |h|
  {
    names := [];
    if h != [] {
      var last, before := |h| - 1, h[..|h| - 1];
      var mid := CensusListsCalls(before);
      names := mid;
      if h[last].role == "assistant" { names := AddNamesIsList(mid, h[last].calls); }
      forall n | n in names ensures Called(h, n) {
        if n in mid {
          var i :| 0 <= i < |before| && before[i].role == "assistant" && Names(before[i].calls, n);
          assert h[i] == before[i];
        } else {
          assert h[last].role == "assistant" && Names(h[last].calls, n);
        }
      }
    }
  }

  // ---------- Tokens and the trigger ----------

  /** A history costs what its parts cost. */
  lemma {:induction false} TokensAdd(a: seq<Message>, b: seq<Message>)
    ensures TotalTokens(a + b) == TotalTokens(a) + TotalTokens(b)
    decreases |b|
  {
    if b == [] {
      assert a + b == a;
    } else {
      assert (a + b)[..|a + b| - 1] == a + b[..|b| - 1];
      TokensAdd(a, b[..|b| - 1]);
    }
  }

  /** A message costs 4 tokens, its content, and the arguments of its calls. */
  lemma {:induction false} TokensOfOne(m: Message)
    ensures m.calls == [] ==> TotalTokens([m]) == 4 + Tokens.Estimate(m.content)
    ensures m.calls != [] ==>
              var last := |m.calls| - 1;
              TotalTokens([m]) ==
              TotalTokens([m.(calls := m.calls[..last])]) + Tokens.Estimate(m.calls[last].arguments)
  {
    OneMessage(m);
    if m.calls != [] { OneMessage(m.(calls := m.calls[..|m.calls| - 1])); }
  }

  lemma OneMessage(m: Message)
    ensures TotalTokens([m]) == MessageTokens(m)
  {
    assert [m][..0] == [];
  }

  /** The token threshold: 96000 for no budget or one of at least 128000, and otherwise the
      set percentage of the budget, short of it by less than one such percentage point. */
  lemma ThresholdIs(c: Config)
    ensures var t, budget, percent := TokenThreshold(c), c.maxContextTokens, c.compactionPercent;
            if budget == 0 || budget >= 128000 then t == 96000
            else 100 * t <= budget * percent <= 100 * t + 99 * percent
  {
    if 0 < c.maxContextTokens < 128000 { Percentage(c.maxContextTokens, c.compactionPercent); }
  }

  lemma Percentage(budget: nat, percent: nat)
    ensures 100 * (budget / 100 * percent) <= budget * percent <= 100 * (budget / 100 * percent) + 99 * percent
  {
    var q, r := budget / 100, budget % 100;
    calc {
      budget * percent;
      (100 * q + r) * percent;
      100 * (q * percent) + r * percent;
    }
    Scale(r, 99, percent);
  }

  lemma Scale(x: nat, y: nat, k: nat)
    requires x <= y
    ensures x * k <= y * k
  {
  }

  /** Three limits call for compaction: tokens, turns and messages. */
  ghost predicate OverTokens(c: Config, h: seq<Message>) {
    && TotalTokens(h) + c.schemaTokens >= TokenThreshold(c)
    && |h| > (if c.compactionKeep == 0 then 15 else c.compactionKeep)
  }

  ghost predicate OverTurns(c: Config, h: seq<Message>) {
    c.turnCount >= 100 && |h| > 20
  }

  ghost predicate OverMessages(c: Config, h: seq<Message>) {
    0 < c.maxContextMessages < |h|
  }

  /** Compaction fires exactly when there is a database, more than one message, and one of
      the three limits is passed; the first of them sets the window. */
  lemma TriggerIs(c: Config, h: seq<Message>)
    ensures Trigger(c, h).Some? <==>
            c.hasDb && |h| > 1 && (OverTokens(c, h) || OverTurns(c, h) || OverMessages(c, h))
    ensures Trigger(c, h).Some? ==>
              var keep := Trigger(c, h).value;
              if OverTokens(c, h) then keep == if c.compactionKeep == 0 then 15 else c.compactionKeep
              else if OverTurns(c, h) then keep == 15
              else if c.maxContextMessages > 20 then keep == 20
              else 2 * keep <= c.maxContextMessages <= 2 * keep + 1
  {
  }

  /** Nothing that fires stops firing because more is said. */
  lemma {:induction false} TriggerIsMonotone(c: Config, h: seq<Message>, more: seq<Message>)
    requires Trigger(c, h).Some?
    ensures Trigger(c, h + more).Some?
  {
    TokensAdd(h, more);
  }
}
