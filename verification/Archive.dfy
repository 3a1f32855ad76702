/** What compaction writes to the archive table, and what of the history it lets go. */
module Archive {
  import opened Text
  import opened History

  /** The columns of `session_messages_archived`. */
  datatype Row = Row(turnIdx: nat, role: string, content: string, calls: seq<(string, string)>)

  function RowOf(i: nat, m: Message): Row {
    Row(i, m.role, m.content, seq(|m.calls|, t requires 0 <= t < |m.calls| => (m.calls[t].name, m.calls[t].arguments)))
  }

  function Rows(h: seq<Message>, from: nat, to: nat): seq<Row>
    requires from <= to <= |h|
  {
    seq(to - from, k requires 0 <= k < to - from => RowOf(from + k, h[from + k]))
  }

  /** The rows that a compaction with this `keep` writes. */
  function ArchivedBy(h: seq<Message>, keep: nat): seq<Row> {
    if |h| <= 2 + keep then [] else Rows(h, 2, |h| - keep)
  }

  lemma RowsOfPrefix(h: seq<Message>, to: nat)
    requires 2 <= to <= |h|
    ensures Rows(h, 2, to) == Rows(h[..to], 2, to)
  {
    forall k | 0 <= k < to - 2 ensures Rows(h, 2, to)[k] == Rows(h[..to], 2, to)[k] {
      assert h[..to][2 + k] == h[2 + k];
    }
  }

  lemma FourParts<T>(s: seq<T>, a: nat, b: nat, c: nat)
    requires a <= b <= c <= |s|
    ensures s[..b] == s[..a] + s[a..b]
    ensures s == s[..a] + s[a..b] + s[b..c] + s[c..]
  {
  }

  /** Conservation: the old history is, in order, the pinned pair, the archived
      messages, tool results freed without being archived, and the kept window.
      Nothing goes unarchived exactly when the window does not open on a tool result. */
  lemma {:induction false} MiddleOutConserves(h: seq<Message>, keep: nat, w: Wording)
    returns (archived: seq<Message>, lost: seq<Message>, kept: seq<Message>, summary: Message)
    requires |h| > 2 + keep
    ensures h == h[..2] + archived + lost + kept
    ensures MiddleOut(h, keep, w) == h[..2] + [summary] + kept
    ensures |archived| == |h| - keep - 2 && ArchivedBy(h, keep) == Rows(h[..2] + archived, 2, 2 + |archived|)
    ensures forall k :: 0 <= k < |lost| ==> IsTool(lost[k])
    ensures kept != [] ==> !IsTool(kept[0])
    ensures lost == [] <==> keep == 0 || !IsTool(h[|h| - keep])
  {
    var d := |h| - keep;
    var s := FirstKept(h, d);
    archived, lost, kept := h[2..d], h[d..s], h[s..];
    summary := SummaryMessage(h, d, w);
    FourParts(h, 2, d, s);
    RowsOfPrefix(h, d);
    assert |archived| == d - 2 && ArchivedBy(h, keep) == Rows(h[..2] + archived, 2, d);
    assert MiddleOut(h, keep, w) == Replaced(h, d, summary);
    assert lost == [] <==> s == d;
  }

  // ---------- What a row holds ----------

  /** The message without the ids that tie calls to results. */
  function Anonymous(m: Message): Message {
    m.(toolCallId := None,
       calls := seq(|m.calls|, t requires 0 <= t < |m.calls| => m.calls[t].(id := "")))
  }

  /** A row determines its position and its message except for the ids, and no more. */
  lemma {:induction false} RowDetermines(i: nat, m: Message, j: nat, n: Message)
    ensures RowOf(i, m) == RowOf(j, n) <==> i == j && Anonymous(m) == Anonymous(n)
  {
    var rm, rn, am, an := RowOf(i, m).calls, RowOf(j, n).calls, Anonymous(m).calls, Anonymous(n).calls;
    if rm == rn {
      forall t | 0 <= t < |am| ensures am[t] == an[t] { assert rm[t] == rn[t]; }
      assert am == an;
    } else if |rm| == |rn| && am == an {
      forall t | 0 <= t < |rm| ensures rm[t] == rn[t] { assert am[t] == an[t]; }
    }
  }

  /** The message read back from the columns of its row. */
  function Restored(row: Row): Message {
    Message(row.role, row.content, None,
            seq(|row.calls|, t requires 0 <= t < |row.calls| => ToolCall("", row.calls[t].0, row.calls[t].1)))
  }

  /** A row gives back its position and its message except for the ids. */
  lemma {:induction false} RowRestores(i: nat, m: Message)
    ensures RowOf(i, m).turnIdx == i && Restored(RowOf(i, m)) == Anonymous(m)
  {
    var a, b := Restored(RowOf(i, m)).calls, Anonymous(m).calls;
    assert |a| == |b| && forall t :: 0 <= t < |a| ==> a[t] == b[t];
  }

  lemma {:induction false} CallAndResult(h: seq<Message>, call: Message, result: Message)
    requires Paired(h) && !IsTool(call) && |call.calls| == 1
    requires IsTool(result) && result.toolCallId.Some? && result.calls == []
    ensures Awaited(SETTLED, h + [call] + [result]) ==
            if result.toolCallId.value == call.calls[0].id then SETTLED else None
  {
    var id := call.calls[0].id;
    assert call.calls[1..] == [] && Ids(call.calls) == multiset{id};
    AwaitedSnoc(SETTLED, h, call);
    AwaitedSnoc(SETTLED, h + [call], result);
    assert multiset{id} - multiset{id} == multiset{};
  }

  /** So the archive cannot tell an answered call from a stranded one. */
  lemma {:induction false} RowsForgetPairing() returns (a: seq<Message>, b: seq<Message>)
    ensures ArchivedBy(a, 1) == ArchivedBy(b, 1) && |ArchivedBy(a, 1)| == 2
    ensures Paired(a) && !Paired(b)
  {
    var system, user, last := Plain("system", ""), Plain("user", ""), Plain("assistant", "");
    var call := Assistant("", [ParsedCall(Some("c"), None, None)]);
    var right, wrong := ToolResult(Some("c"), ""), ToolResult(Some("d"), "");
    SayKeepsPairing([], "system", "");
    SayKeepsPairing([] + [system], "user", "");
    var h := [] + [system] + [user];
    CallAndResult(h, call, right);
    CallAndResult(h, call, wrong);
    SayKeepsPairing(h + [call] + [right], "assistant", "");
    AwaitedSnoc(SETTLED, h + [call] + [wrong], last);
    a, b := h + [call] + [right] + [last], h + [call] + [wrong] + [last];
    RowDetermines(3, right, 3, wrong);
    assert ArchivedBy(a, 1) == [RowOf(2, call), RowOf(3, right)];
    assert ArchivedBy(b, 1) == [RowOf(2, call), RowOf(3, wrong)];
  }

  // ---------- What the lighter tiers do to it ----------

  /** Neither tier 1 nor tier 2 changes message `i`: it does not end in a blank, and it
      is no tool result above the threshold before the last three messages. */
  predicate Untouched(h: seq<Message>, i: nat)
    requires i < |h|
  {
    var m := h[i];
    && (m.content == "" || !IsTrailingBlank(m.content[|m.content| - 1]))
    && (i < TruncationCutoff(|h|) && (IsTool(m) || m.toolCallId.Some?) ==> |m.content| <= TRUNCATE_ABOVE)
  }

  /** Every truncation notice for these messages fits the 400 bytes left over below the
      threshold. */
  ghost predicate ShortNotices(h: seq<Message>, w: Wording) {
    forall m, n: nat :: m in h && n <= |m.content| ==> |w.truncation(n)| <= TRUNCATE_ABOVE - 2 * TRUNCATE_KEEP
  }

  lemma {:induction false} UntouchedRow(h: seq<Message>, i: nat, w: Wording)
    requires 2 <= i < |h| && ShortNotices(h, w)
    ensures RowOf(i, Truncated(Pruned(h), w)[i]) == RowOf(i, h[i]) <==> Untouched(h, i)
  {
    var m, m' := h[i], Truncated(Pruned(h), w)[i];
    var stripped := StripTrailing(m.content);
    assert m in h;
    assert m'.(content := "") == m.(content := "");
    RowDetermines(i, m', i, m);
    assert Anonymous(m').(content := "") == Anonymous(m).(content := "");
    assert m'.content == m.content <==> Untouched(h, i);
  }

  lemma {:induction false} UntouchedRows(h: seq<Message>, from: nat, to: nat, w: Wording)
    requires 2 <= from <= to <= |h| && ShortNotices(h, w)
    ensures Rows(Truncated(Pruned(h), w), from, to) == Rows(h, from, to) <==>
            forall i :: from <= i < to ==> Untouched(h, i)
  {
    var before, after := Rows(h, from, to), Rows(Truncated(Pruned(h), w), from, to);
    forall i | from <= i < to ensures after[i - from] == before[i - from] <==> Untouched(h, i) {
      UntouchedRow(h, i, w);
    }
    if before == after {
      forall i | from <= i < to ensures Untouched(h, i) { assert after[i - from] == before[i - from]; }
    } else {
      var k :| 0 <= k < |before| && before[k] != after[k];
      assert !Untouched(h, k + from);
    }
  }

  /** The rows written within the ladder are those of the untouched history exactly when
      the two lighter tiers change none of the archived messages. */
  lemma {:induction false} LadderRowsAreOriginal(h: seq<Message>, keep: nat, w: Wording)
    requires ShortNotices(h, w)
    ensures ArchivedBy(Truncated(Pruned(h), w), keep) == ArchivedBy(h, keep) <==>
            forall i :: 2 <= i < |h| - keep ==> Untouched(h, i)
  {
    if |h| > 2 + keep {
      UntouchedRows(h, 2, |h| - keep, w);
    } else {
      assert ArchivedBy(h, keep) == [];
    }
  }

  /** What can be read back after the ladder: the rows it wrote, and the kept messages at
      their old positions. */
  function Recovered(h: seq<Message>, keep: nat, w: Wording): seq<Row>
    requires |h| > 2 + keep
  {
    var b := Truncated(Pruned(h), w);
    var start := FirstKept(b, |b| - keep);
    assert MiddleOut(b, keep, w)[3..] == b[start..];
    ArchivedBy(b, keep) + Rows(b, start, |b|)
  }

  lemma RowsJoin(h: seq<Message>, a: nat, b: nat, c: nat)
    requires a <= b <= c <= |h|
    ensures Rows(h, a, b) + Rows(h, b, c) == Rows(h, a, c)
  {
  }

  lemma {:induction false} RecoveredRows(h: seq<Message>, keep: nat, w: Wording)
    requires |h| > 2 + keep
    ensures var b, d := Truncated(Pruned(h), w), |h| - keep;
            var start := FirstKept(h, d);
            && Recovered(h, keep, w) == Rows(b, 2, d) + Rows(b, start, |h|)
            && |Recovered(h, keep, w)| == d - 2 + (|h| - start)
  {
    LightTiersKeepStart(h, |h| - keep, w);
  }

  lemma RowsWithoutGap(b: seq<Message>, h: seq<Message>, d: nat, s: nat)
    requires 2 <= d <= s <= |b| == |h|
    ensures Rows(b, 2, d) + Rows(b, s, |h|) == Rows(h, 2, |h|) <==> s == d && Rows(b, 2, |h|) == Rows(h, 2, |h|)
  {
    if s == d {
      RowsJoin(b, 2, d, |h|);
    } else {
      assert |Rows(b, 2, d) + Rows(b, s, |h|)| < |Rows(h, 2, |h|)|;
    }
  }

  lemma WindowOpens(h: seq<Message>, d: nat)
    requires d <= |h|
    ensures FirstKept(h, d) == d <==> d == |h| || !IsTool(h[d])
  {
  }

  /** The ladder is lossless, up to ids, exactly when its window does not open on a tool
      result and the lighter tiers change no message behind the two pinned ones. */
  lemma {:induction false} LadderIsLossless(h: seq<Message>, keep: nat, w: Wording)
    requires |h| > 2 + keep && ShortNotices(h, w)
    ensures Recovered(h, keep, w) == Rows(h, 2, |h|) <==>
            (keep == 0 || !IsTool(h[|h| - keep])) && forall i :: 2 <= i < |h| ==> Untouched(h, i)
  {
    var b, d := Truncated(Pruned(h), w), |h| - keep;
    RecoveredRows(h, keep, w);
    RowsWithoutGap(b, h, d, FirstKept(h, d));
    WindowOpens(h, d);
    UntouchedRows(h, 2, |h|, w);
  }

  // ---------- A whole step ----------

  /** The rows written by the compaction at the start of a step. */
  ghost function TickRows(c: Config, h: seq<Message>, w: Wording): seq<Row> {
    match Trigger(c, h)
    case None => []
    case Some(keep) => ArchivedBy(Truncated(Pruned(h), w), Window(keep))
  }
}
