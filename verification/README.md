# Belya: verified model of the in-memory algorithms

A Dafny model of the parts of Belya that work on memory alone: the conversation
history and its compaction, the folding of tool output, the editing tools, the
background task table and its output rings, the loop detector and circuit breaker,
the growable string with JSON escaping and JSON extraction, the token estimator, the
mesh and LSP wire protocols, and the line editor. `dafny verify dfyconfig.toml` checks
all of it.

## How the model is laid out

| source | modules |
|---|---|
| `common.h` | `DynStrings`, `JsonText`, `Braces` (its scanner on any text), `Tokens`, `Text` |
| `belya_agent.c` | `Folding`, `History` (messages, compaction and its trigger), `Compaction` (what it does, written out), `Archive`, `Runs`, `Agents` (the message array) |
| `belya_harness.c` | `Patch`, `EditMatch`, `TaskRing`, `TaskTable`, `ActionTexts`, `ActionHashing`, `ActionRing`, `LoopDetector` |
| `agent_mesh.c` | `MeshFraming`, `MeshMatching` |
| `lsp_client.c` | `LspFraming` |
| `linenoise.c` | `LineEditor`, `LineKeys` (what each key does, written out), `LineHistory` |

`Lines`, `Decimal`, `Cyclic`, `Files` and `Machine` hold what several of these share.

Code that changes fields and arrays in place is a class with loops, each method proved
against a function of the old state; the properties over all inputs and all runs are
lemmas about these functions. Such a function is in turn characterised without naming it
or its helpers: by positions, slices and literal bytes. C strings are `string` values without `'\0'`; a `char`
stands for a byte, so the theorems hold for all characters, not only for 256 of them.
`size_t` quantities are `nat`; where the code subtracts one from another, the result is
bound to a `nat`, which proves that it does not wrap. Calls to `abort` are a boolean
result. What the operating system decides (short reads and writes, exit reports,
failed opens, timeouts) is a parameter or a free choice.

Texts that the code formats are parameters of the proofs (`Wording`, `Notice`,
`Protocol`, `Marks`, `Rules`), so the theorems hold whatever the wording; the actual
values (`Agents.BELYA_WORDING`, `LspFraming.LSP`, `Patch.BELYA_MARKS`,
`LoopDetector.FAILURE_SIGNS`) are given, with the few facts about them that matter.

## Main results

- Over every run of messages, model turns and manual compactions, with the compaction
  ladder firing whenever its trigger says so, tool calls and results stay paired and the
  two pinned messages free of calls exactly when each event meets a condition that can
  be checked before it. Message 0 never changes, message 1 only by `/compact`.
- The ladder loses nothing but ids exactly when its window does not open on a tool
  result and its two lighter tiers change no message.
- An object printed by the grammar of RFC 8259 is cut out of surrounding text exactly,
  and repeated extraction recovers all of them. Of any other text the piece is cut out
  whose braces, those in strings aside, balance first.
- Printing search/replace hunks and parsing them back is the identity exactly when
  every hunk avoids the markers; every text is such a printed patch, whole or broken off.
  Applying it follows one chain of documents, each made by replacing the leftmost
  occurrence of a search text, or names the first search text that does not occur.
- An edit replaces the leftmost occurrence, or the leftmost run of whole lines that differ
  from those of the old text only in blanks at their ends.
- Compaction changes a message only by removing the blanks at its end or shortening an
  old tool result, and what it keeps, drops and counts is exact for every history.
- Under every interleaving of the locked regions, a mesh consult returns a reply to
  the id it reserved, the latest that came, and this is its own request exactly when no
  other send intruded.
- The breaker trips exactly on a loop or on three failures of one streak, over the full
  log; its 32-slot action ring answers like that log. The task ring shows the end of
  its full log; the mesh receive buffer delivers the lines of the whole stream, however
  it is cut; LSP frames survive every pattern of short reads.
- The line editor, fed any bytes, is a line split at its cursor; each key has its effect on
  text and cursor, and text typed and entered comes back as far as it fits.

## Where the code falls short of what it says

Each of these is proved, and where the code keeps its promise on other inputs, so is the
exact condition on which it does.

- `/compact` may leave a calling message at index 1; the next ladder then strands its
  calls (`Runs.UserCompactCanStrandCalls`). It does not exactly when it drops nothing,
  drops all, or the first message it keeps calls nothing (`Runs.CompactKeepsHealthy`).
- A response whose call has no id is stored with id `""` but answered as
  `"call_default"`; one that starts like a transport failure is not stored, yet its
  calls are answered (`Agents.RefusedTurnStrandsResult`). Pairing holds exactly when
  every call of a stored response has an id and a refused one has no call
  (`History.TurnKeepsPairing`).
- The comment at `belya_agent.c:719` calls the archive lossless. Ids are not archived, so
  it cannot tell an answered call from a stranded one (`Archive.RowsForgetPairing`); all
  else is in the rows (`Archive.RowDetermines`). Tool results at the head of the kept
  window are freed without being archived (`Archive.MiddleOutConserves`), and tiers 1
  and 2 rewrite texts before they are archived. The rows are those of the old history
  exactly when no archived message ends in a blank or is an old tool result above 1200
  bytes (`Archive.LadderRowsAreOriginal`, `Archive.LadderIsLossless`).
- With `max_context_messages` set to 1 the window is 0 and the ladder keeps up to 8
  messages (`History.WindowOfZero`, `History.TickBound`).
- The action hash does not see where the tool name ends
  (`ActionHashing.HashForgetsBoundary`): two calls share a text exactly when they are
  the same or shift that boundary over a colon (`ActionTexts.JoinedCoincide`), which
  tool names without colons rule out (`ActionTexts.ColonFreeIdentifies`).
- A tool name above 63 bytes never builds a failure streak
  (`LoopDetector.RepeatNeedsShortName`).
- A send between the two locked regions of a consult takes its id; the consult then
  returns the answer to that other message (`MeshMatching.IntrusionMisleads`).
- A mesh line of 4095 bytes or more ends the connection
  (`MeshFraming.Receiver.Serve`).
- An LSP payload that is empty or above 10 MiB is sent but never received
  (`LspFraming.FrameRoundTrip`); a timeout leaves the rest of a frame for the next
  receive (`LspFraming.RecvPayload`).
- The window arithmetic of `refreshLine` goes below zero exactly when the prompt is at
  least as wide as the screen (`LineEditor.RefreshWindow`).
- A line that fills the editor's buffer loses its last character when the user steps
  through the history and back (`LineEditor.RecallReturns`).
- An edit with an empty `old_text` is always refused as ambiguous
  (`EditMatch.EmptyOldText`); one found by stripped lines is never checked for a second
  match (`EditMatch.LooseEdit`, `EditMatch.LooseEditTakesFirst`). A revert is reported
  even when the file cannot be opened again, and then the edited text stays
  (`EditMatch.EditFile`).

## Model

| member | source | states |
|---|---|---|
| `DynStrings.DynString.Grow` | common.h:45-67 | The contents survive a growth; there is room for `needed` more characters and a NUL; no size computation passes SIZE_MAX; it aborts exactly when the size would. |
| `DynStrings.DynString.AppendLen` | common.h:91-105 | Appending is concatenation, under the invariant that the capacity exceeds the length and a NUL ends the text; it aborts exactly on size overflow. |
| `DynStrings.DynString.Append` | common.h:73-89 | The same for a whole string. |
| `DynStrings.DynString.AppendEscaped` | common.h:130-153 | Appends exactly the escaped form, or aborts exactly when that form does not fit the address range. |
| `DynStrings.DynString.Clear` | common.h:123-128 | Empties the text and keeps the buffer. |
| `DynStrings.DynString.Free` | common.h:155-161 | Leaves an empty string without a buffer, to which one may append again. |
| `DynStrings.CapacityIs` | common.h:45-67 | The capacity after an append is 512 or the old one, doubled as often as needed and no more, or exactly the need where the next doubling would not fit a size. |
| `JsonText.EscapesAre` | common.h:133-150 | What is written for each character. |
| `DynStrings.GrowDoubles` | common.h:50-58 | Up to half the address range growth at least doubles and stays below twice the need. |
| `DynStrings.AppendsAreAmortised` | common.h:45-67 | Over every run of appends, all memory ever allocated is below twice the current capacity and linear in the length. |
| `JsonText.UnescapeEscape` | common.h:130-153 | Section 7 of RFC 8259 decodes every escaped string to the original. |
| `JsonText.EscapeHasNoControls` | common.h:143-146 | The escaped form holds no control character. |
| `JsonText.ExtractJsonObject` | common.h:188-227 | The scanning loop computes `Extract`, the text from the first brace to the one that closes it. |
| `JsonText.Extract` | common.h:206-217 | The result is the piece of the text that ends at the returned offset, and the offset is past 0. |
| `JsonText.UnescapeReadsBodies` | common.h:130-153 | The decoder accepts only string bodies of RFC 8259. |
| `JsonText.EscapeIsBody` | common.h:130-153 | Every escaped string is such a body. |
| `JsonText.RunValue` | common.h:198-223 | Inside an object, the text of any JSON value, with any string bodies of RFC 8259, never closes it and leaves the scanner at the same depth, outside strings. |
| `JsonText.ExtractPrinted` | common.h:188-227 | An object printed by the RFC grammar is returned exactly, behind any brace-free prefix and before any suffix. |
| `JsonText.ExtractAllPrinted` | common.h:188-227 | Repeated calls recover every object of a stream, in order, and nothing else. |
| `JsonText.ExtractTruncated` | common.h:188-227 | An object that breaks off before its last brace is not returned, nor any part of it. |
| `Braces.ExtractBalanced` | common.h:188-227 | On any text: what is cut out begins at the first brace and ends where the braces outside strings come back to 0; if they never do, nothing is. |
| `Braces.EveryTextIsPieces` | common.h:188-227 | Every text with a brace is of one of these two kinds. |
| `Text.ContainsCaseInsensitive` | common.h:229-241 | True exactly when the needle occurs in the haystack but for the case of ASCII letters. |
| `Text.LoweredAt` | common.h:229-241 | Lowered texts agree where the texts do but for the case of letters. |
| `Tokens.CountEstimatedTokens` | common.h:163-186 | The larger of a quarter of the length, rounded up, and punctuation marks plus maximal word runs. |
| `Tokens.MarksAre` | common.h:169-177 | The marks are the printable ASCII characters that are neither letters nor digits; words are made of letters, digits and what is behind the tilde. |
| `Tokens.Snoc` | common.h:169-182 | One more character adds a mark, starts a word, or adds nothing. |
| `Tokens.EstimateBounds` | common.h:163-186 | The estimate lies between a quarter of the length and the length. |
| `Tokens.EstimateOfConcat` | common.h:163-186 | It is monotone under extension and subadditive under concatenation. |
| `Folding.FoldToolOutput` | belya_agent.c:391-454 | The stored content is `Folded` of the result; no unsigned subtraction wraps. |
| `Folding.ByteCutIsLong` | belya_agent.c:425-442 | The byte fallback is reached only when the text is longer than the limit. |
| `Folding.FoldingKeeps` | belya_agent.c:388-452 | Text of at most 60 lines and within the limit is kept; of any other the first 15 and last 30 lines stay, or else fixed numbers of bytes, around an exact count, and never more than the limit. |
| `Folding.LimitAndNotice` | belya_agent.c:388-449 | The limit is 8000 unless the environment sets one above 500; the notice gives the bytes left out and the total. |
| `Lines.LinesOfIs` | belya_agent.c:394-399 | Lines are newlines plus an unterminated last line. |
| `History.TurnKeepsPairing` | belya_agent.c:2860-2884 | A response with its tool results keeps the history paired exactly when every call has an id or, if the response is refused, there is no call. |
| `History.ReplyIs` | belya_agent.c:2869-2884 | A response that is not refused leaves one assistant message with its text, "" if it has none. |
| `History.CallsAre` | belya_agent.c:373-387 | Its calls are stored in order with "", "" and "{}" for absent parts; the i-th result answers the i-th call under its id, or "call_default". |
| `Agents.RefusedIs` | belya_agent.c:2864-2867 | Refused are exactly the responses that begin with "Network Error:" or "API Error:". |
| `History.SayKeepsPairing` | belya_agent.c:357-371 | A message without calls keeps it paired exactly when it is no tool result. |
| `Agents.RefusedTurnStrandsResult` | belya_agent.c:2860-2867 | A response that starts like a transport failure and calls a tool with an id leaves a result without its call. |
| `History.KeptIsPaired` | belya_agent.c:694-703 | What the orphan filter leaves is paired on its own. |
| `History.CompactedPairing` | belya_agent.c:686-711 | Manual compaction keeps the pairing exactly when message 0 calls nothing. |
| `History.MiddleOutPairing` | belya_agent.c:712-822 | Middle-out compaction keeps the pairing exactly when nothing is awaited after the two pinned messages. |
| `History.PinnedPairing` | belya_agent.c:717-719 | For a message 0 without calls that condition says that message 1 has none. |
| `Archive.MiddleOutConserves` | belya_agent.c:722-819 | The old history is, in order, pinned, archived, freed tool results and kept window; no tool result is freed unarchived exactly when the window does not open on one. |
| `Archive.RowDetermines` | belya_agent.c:725-745 | A row determines the position and all of the message but the ids, and nothing more. |
| `Archive.RowRestores` | belya_agent.c:725-745 | The columns of a row give back the position and the message but for the ids. |
| `Archive.RowsForgetPairing` | belya_agent.c:725-745 | A paired and an unpaired history with the same rows. |
| `Archive.LadderRowsAreOriginal` | belya_agent.c:838-882 | The rows written within the ladder are those of the old history exactly when no archived message ends in a blank and no old tool result among them exceeds 1200 bytes. |
| `Archive.LadderIsLossless` | belya_agent.c:712-882 | Rows and kept messages give back the old history, up to ids, exactly when moreover the window does not open on a tool result and its messages are unchanged too. |
| `History.EveryToolIsListed` | belya_agent.c:758-776 | The summary names every tool that the replaced assistant messages called. |
| `History.LadderLength` | belya_agent.c:838-882 | The exact number of messages that the ladder leaves. |
| `History.LadderSize` | belya_agent.c:838-882 | The ladder pins messages 0 and 1, never grows the history, and leaves at most three more than its window. |
| `History.LadderKeeps` | belya_agent.c:838-882 | It keeps the pairing exactly when it does not fire or message 1 calls nothing. |
| `History.TickBound` | belya_agent.c:2465-2493 | The count of dropped messages never wraps; at most `keep + 3` messages remain exactly unless `keep` is 0 and the stated sizes occur. |
| `History.WindowOfZero` | belya_agent.c:2470-2473 | A message limit of 1 asks for a window of 0, and four messages stay four. |
| `Runs.CompactKeepsHealthy` | belya_agent.c:686-711 | A manual compaction keeps pairing and call-free pinned messages exactly when it is `Compactable`. |
| `Runs.EventKeepsHealthy` | belya_agent.c:2421-2890 | So does any message, model turn or manual compaction exactly when it is `Allowed`. |
| `Runs.EventPins` | belya_agent.c:2421-2890 | No event changes message 0, and only a manual compaction message 1. |
| `Runs.RunKeepsHealthy` | belya_agent.c:2421-2890 | Over every run the history stays healthy throughout exactly when each event is allowed where it occurs. |
| `Runs.RunPins` | belya_agent.c:2421-2890 | Over every run message 0 stays byte-identical, and without manual compaction message 1. |
| `Runs.UserCompactCanStrandCalls` | belya_harness.c:7407-7416 | A healthy history that a manual compaction keeps paired and the next ladder breaks. |
| `History.PruningSavesTokens` | belya_agent.c:841-853 | Tier 1 never raises the token total. |
| `History.LightTiersAreIdempotent` | belya_agent.c:841-878 | A second pass of tier 1 or tier 2 changes nothing. |
| `History.TruncationKeepsEnds` | belya_agent.c:862-872 | What tier 2 shortens keeps its first and last 400 bytes around an exact count of the rest. |
| `Agents.Agent.AddMessage` | belya_agent.c:357-371 | Appends one message; the array grows when full. |
| `Agents.Agent.AddToolResult` | belya_agent.c:373-455 | Appends the tool message with the folded result. |
| `Agents.Agent.CompactHistory` | belya_agent.c:686-711 | The array afterwards holds `Compacted` of the old history. |
| `Agents.Agent.CloseGap` | belya_agent.c:814-819 | The in-place shift moves every kept message unchanged. |
| `Agents.Agent.CompactMiddleOut` | belya_agent.c:712-822 | The array afterwards holds `MiddleOut` of the old history, and the archive gains one row for each message of the middle. |
| `Agents.Agent.Prune` | belya_agent.c:841-853 | Tier 1 leaves `Pruned` of the old history. |
| `Compaction.StripIs` | belya_agent.c:844-850 | Stripping removes the spaces, tabs, returns and newlines at the end, all of them and nothing else. |
| `Compaction.PrunedIs` | belya_agent.c:841-853 | So it is for every message of `Pruned` but the two pinned ones, which stay. |
| `Compaction.LadderOnShort` | belya_agent.c:838-882 | In a history within the window each message behind the pinned ones only loses such blanks or, as an old tool result above 1200 bytes, all but its first and last 400. |
| `Compaction.LadderOnLong` | belya_agent.c:712-882 | Of a longer one stay the pinned messages, a plain assistant message and the window, without the tool results it opens with, each message changed only like that. |
| `Compaction.SummaryIs` | belya_agent.c:756-787 | The assistant message summarises exactly the messages it stands for, as they were before the lighter tiers. |
| `Compaction.TickArchives` | belya_agent.c:722-754 | Before a model call either nothing happens, or each message that the summary replaces gets a row, in order, holding it as the lighter tiers leave it. |
| `Compaction.CompactedConserves` | belya_agent.c:686-711 | A manual compaction keeps message 0 and the last messages, without the tool results these open with, and drops the rest. |
| `Compaction.CensusCounts` | belya_agent.c:759-777 | The census counts the messages of each role. |
| `Compaction.CensusListsCalls` | belya_agent.c:764-775 | Its tool list is a list of names of called tools. |
| `Agents.SummaryNamesTools` | belya_agent.c:779-787 | The summary message names every tool that the replaced messages called. |
| `Agents.SummaryCounts` | belya_agent.c:779-787 | It gives the number of messages of each role. |
| `Agents.SummaryRange` | belya_agent.c:779-787 | It says which messages it stands for and how many they are. |
| `Agents.NoticeCounts` | belya_agent.c:870-871 | The truncation notice gives the number of bytes cut out. |
| `Compaction.TokensAdd` | belya_agent.c:951-980 | A history costs what its parts cost. |
| `Compaction.TokensOfOne` | belya_agent.c:951-980 | A message costs 4 tokens, its content and the arguments of its calls. |
| `Compaction.ThresholdIs` | belya_agent.c:2475-2477 | The threshold is 96000 tokens without a budget or from 128000 on, and otherwise the set percentage of the budget, in whole hundreds. |
| `Compaction.TriggerIs` | belya_agent.c:2465-2489 | Compaction fires exactly when there is a database and one of the limits on tokens, turns and messages is passed; the first of them sets the window. |
| `Compaction.TriggerIsMonotone` | belya_agent.c:2465-2489 | What fires still fires when more is said. |
| `Agents.Agent.TruncateTools` | belya_agent.c:857-878 | Tier 2 shortens old long tool results and nothing else. |
| `Agents.Agent.RunLadder` | belya_agent.c:2545-2547 | The three tiers in order, and what is archived by them. |
| `Agents.Agent.ClearHistory` | belya_agent.c:824-830 | Only message 0 stays. |
| `Agents.Agent.TotalTokenCount` | belya_agent.c:951-980 | The sum over messages, arguments and schemas. |
| `Agents.Agent.ChooseWindow` | belya_agent.c:2465-2489 | The decision to compact and its window are `Trigger`. |
| `Agents.Agent.CompactIfNeeded` | belya_agent.c:2464-2547 | The history becomes `Tick` of the old one, and the archive gains the rows of the ladder, if it fires. |
| `Agents.Agent.Step` | belya_agent.c:2421-2890 | Compaction first, then the assistant message and the turn count, unless the response starts like a transport failure. |
| `Agents.TruncationNoticeIsShort` | belya_agent.c:870-871 | The notice is short enough for tier 2 to be idempotent. |
| `Agents.BelyaNoticesAreShort` | belya_agent.c:870-871 | So `LadderRowsAreOriginal` holds for the real wording. |
| `Patch.BelyaMarksAreSound` | belya_harness.c:1222-1224 | None of the three markers overlaps itself. |
| `Patch.RoundTrip` | belya_harness.c:1226-1295 | Printed blocks parse back to the same hunks exactly when no search text holds the divider and no replacement the end marker. |
| `Patch.EveryPatchIsPrinted` | belya_harness.c:1226-1295 | Every text is a printed patch of the hunks parsed from it, with a tail that has no further block or breaks off within one. |
| `Patch.PatchIsFold` | belya_harness.c:1226-1295 | Applying a printed patch is the left fold of its hunks; a block that breaks off is reported when they all apply. |
| `Patch.PatchedMeans` | belya_harness.c:1269-1290 | Hunks yield a document exactly when a chain of documents leads to it, each made by replacing the leftmost occurrence of the search text and nothing else. |
| `Patch.MismatchMeans` | belya_harness.c:1269-1279 | A mismatch names exactly the hunk whose search text does not occur in the document that those before it made. |
| `Patch.ApplyPatch` | belya_harness.c:1190-1320 | The file becomes the document at the end of that chain, or stays untouched on every error. |
| `Patch.ApplyBlocks` | belya_harness.c:1226-1295 | The block loop returns the document at the end of the chain, or the first search text that does not occur, over all parsed blocks. |
| `EditMatch.ReadStripped` | belya_harness.c:991-1007 | Reads the line with its outer blanks stripped and stops behind its newline. |
| `EditMatch.TrimmedLineIs` | belya_harness.c:991-1007 | That text is the line up to the newline or the end without the spaces, tabs and returns at both ends, all of them and nothing else. |
| `EditMatch.SameRunIs` | belya_harness.c:980-1025 | A candidate matches exactly when its lines, one by one, differ from those of the old text only in such blanks. |
| `EditMatch.FindFallback` | belya_harness.c:980-1025 | The nested scan terminates with the first matching candidate and its span. |
| `EditMatch.FallbackIsLeftmost` | belya_harness.c:980-1025 | That candidate is the leftmost line start whose trimmed lines equal those of the old text. |
| `EditMatch.EditFile` | belya_harness.c:964-1187 | The file becomes the edited text, or stays as it was on every refusal and on a revert whose reopening succeeds; the outcome is the one reported. |
| `EditMatch.ExactEdit` | belya_harness.c:977-1150 | The leftmost occurrence is replaced if none starts at or behind its end; else the lines of the two are reported. |
| `EditMatch.LineOfIs` | belya_harness.c:1133-1135 | Lines are counted by the newlines before. |
| `EditMatch.LooseEdit` | belya_harness.c:980-1150 | Without an occurrence, the leftmost run of whole lines that so match is replaced, never an empty one; it is not found exactly when no line start has such a run. |
| `EditMatch.LooseEditTakesFirst` | belya_harness.c:980-1150 | A file in which a second run of lines matches, and the first is replaced all the same. |
| `EditMatch.EmptyOldText` | belya_harness.c:977-1141 | An empty old text is refused as ambiguous. |
| `TaskRing.Ring.Write` | belya_harness.c:5857-5869 | Writing appends to the log that the ring stands for. |
| `TaskRing.Ring.ReadAll` | belya_harness.c:5871-5881 | Reading returns the last 65536 bytes of everything written since the spawn. |
| `TaskRing.Ring.Drain` | belya_harness.c:5883-5889 | The read loop appends all chunks in order. |
| `TaskTable.Harness.SpawnTask` | belya_harness.c:5910-6002 | The table and the returned id are those of `Apply`. |
| `TaskTable.Harness.KillTask` | belya_harness.c:6112-6146 | The same for a kill, which finds a task exactly when a used slot has the id. |
| `TaskTable.Harness.DrainTask` | belya_harness.c:6039-6054 | The same for a call that drains the task it names. |
| `TaskTable.Harness.DrainSlot` | belya_harness.c:5883-5906 | One slot changes as `Drained` says. |
| `TaskTable.ReportEnds` | belya_harness.c:5883-5906 | What each exit report makes of a running task, with all other slots unchanged. |
| `TaskTable.KillEnds` | belya_harness.c:6112-6146 | A kill ends the running task with the id and changes no other slot. |
| `TaskTable.SpawnTakes` | belya_harness.c:5910-6002 | A spawn takes the lowest unused slot, or else the lowest that has ended, for a running task with the next id. |
| `TaskTable.EventKeeps` | belya_harness.c:5883-6146 | Ids of used slots stay distinct and exit codes agree with states; a spawn hands out the next id; no old id starts to run. |
| `TaskTable.SpawnOutcome` | belya_harness.c:5919-5934 | A spawn fails exactly when all 16 slots still run after the drain; a running slot is never taken. |
| `TaskTable.OutcomeIsFinal` | belya_harness.c:5890-5906 | A finished record stays until a newer task takes its slot. |
| `TaskTable.RunKeeps` | belya_harness.c:5910-6002 | Over every run ids are distinct and handed out in order, records stay consistent, and an id that does not run never runs again. |
| `ActionHashing.Fnv1a` | belya_harness.c:7697-7705 | The loop computes the FNV-1a fold. |
| `ActionHashing.FnvValues` | belya_harness.c:7697-7705 | The values of the 64-bit FNV-1a hash for "" and "a". |
| `ActionHashing.ComputeActionHash` | belya_harness.c:7707-7713 | The hash of tool, colon and arguments. |
| `ActionHashing.HashIsOfText` | belya_harness.c:7707-7713 | It is the hash of the joined text. |
| `ActionHashing.HashForgetsBoundary` | belya_harness.c:7707-7713 | Calls that are the same or shift the boundary between name and arguments over a colon collide. |
| `ActionTexts.JoinedCoincide` | belya_harness.c:7707-7713 | No other calls share a hashed text. |
| `ActionTexts.ColonFreeIdentifies` | belya_harness.c:7707-7713 | Among tool names without colons the hashed text identifies the call. |
| `ActionRing.CycleIsThreeCopies` | belya_harness.c:7722-7743 | The scanned condition says that the last `3k` hashes are three copies of one block. |
| `ActionRing.Ring.DetectLoop` | belya_harness.c:7715-7749 | The 32 slots yield the least number from 1 to 3 of which the full log ends in three copies, and 0 exactly when there is none. |
| `ActionRing.PeriodMeans` | belya_harness.c:7722-7745 | `Period` is that number. |
| `ActionRing.Ring.Store` | belya_harness.c:7790-7799 | Recording appends to the log that the ring stands for. |
| `LoopDetector.Breaker.Record` | belya_harness.c:7763-7881 | It trips exactly when the log ends in a period or the failure streak reaches 3; the fields follow the log. |
| `LoopDetector.Breaker.ResetTurn` | belya_harness.c:7751-7761 | Starts an empty log. |
| `LoopDetector.StreakIsSmall` | belya_harness.c:7808-7842 | Between calls the streak is 0, 1 or 2. |
| `LoopDetector.StreakMeans` | belya_harness.c:7805-7855 | The streak is the length of the longest run of failing repeats at the end of the log since the last trip. |
| `LoopDetector.RepeatsMeans` | belya_harness.c:7805-7816 | A failure repeats another when it has its name, in at most 63 bytes, and both begin with the same 255 bytes of arguments. |
| `LoopDetector.FailureIs` | belya_harness.c:7775-7788 | A call failed exactly when it gave no text or one with a sign of failure, in any case. |
| `LoopDetector.HashAt` | belya_harness.c:7790-7792 | The ring holds the hash of every action, in order. |
| `LoopDetector.TripMeans` | belya_harness.c:7822-7881 | The breaker trips exactly when the actions end in three copies of one, two or three, or in three failures of the same call of which none tripped before. |
| `LoopDetector.ThreeFailuresTrip` | belya_harness.c:7805-7843 | Three failing repeats of a call trip the breaker by the third. |
| `LoopDetector.RepeatNeedsShortName` | belya_harness.c:7806-7813 | A call repeats itself exactly when its name has at most 63 bytes. |
| `MeshFraming.SplitConcat` | agent_mesh.c:161-181 | Cutting a stream anywhere does not change its lines. |
| `MeshFraming.FeedIsSplit` | agent_mesh.c:161-181 | Reads processed one by one deliver the lines of the whole stream. |
| `MeshFraming.FramesRoundTrip` | agent_mesh.c:335-340 | Messages sent with newlines split back exactly when none contains a newline. |
| `MeshFraming.Receiver.OnRead` | agent_mesh.c:161-180 | One read delivers the complete lines and leaves the unfinished one at the front of the buffer. |
| `MeshFraming.Receiver.Serve` | agent_mesh.c:194-228 | Under all read sizes the lines of the consumed stream are delivered; all is consumed exactly when every line fits the buffer. |
| `MeshMatching.AgentMesh.BeginConsult` | agent_mesh.c:367-375 | It reserves the next id, forgets earlier responses, and keeps the invariant of the whole system. |
| `MeshMatching.AgentMesh.Send` | agent_mesh.c:309-311 | The id it takes is that of no message on the wire. |
| `MeshMatching.AgentMesh.HandleResponse` | agent_mesh.c:68-77 | Exactly a reply to the reserved id is stored, "{}" for one without a payload; the delivery of any reply ever sent keeps the invariant. |
| `MeshMatching.AgentMesh.FinishConsult` | agent_mesh.c:396-406 | What it returns is a reply to the id reserved, which is its own request's exactly when no send intruded. |
| `MeshMatching.StepKeeps` | agent_mesh.c:306-407 | Every step keeps the matching invariant. |
| `MeshMatching.RunIsSafe` | agent_mesh.c:306-407 | Over all interleavings every answer is a reply to the reserved id, which is the own id exactly when no send intruded. |
| `MeshMatching.ConsultReturnsOwnReply` | agent_mesh.c:346-407 | With one sender an answer is a reply to the consult's own request. |
| `MeshMatching.ConsultReturnsLatest` | agent_mesh.c:346-407 | A consult returns the latest reply to its reserved id that came while it lasted, "{}" for one without a payload, and nothing exactly when none came. |
| `MeshMatching.IntrusionMisleads` | agent_mesh.c:309-369 | A run in which an intruding send makes a consult return another message's answer. |
| `LspFraming.WriteAll` | lsp_client.c:58-66 | Short writes add up to the text, or to what was accepted before a failure. |
| `LspFraming.SendPayload` | lsp_client.c:68-75 | Writes one frame and succeeds, or the beginning of one and fails, exactly as the writes do. |
| `LspFraming.RecvPayload` | lsp_client.c:77-136 | Under all short reads the result and the unread rest are `Receive` of the stream; a timeout returns nothing and has taken less than that. |
| `LspFraming.LspIsSound` | lsp_client.c:72-107 | The header wording has what the proofs need of it. |
| `LspFraming.LspIsUnbordered` | lsp_client.c:106-108 | Neither spelling of the field overlaps itself. |
| `LspFraming.LengthIsRead` | lsp_client.c:73-114 | The printed length is read back. |
| `LspFraming.FrameRoundTrip` | lsp_client.c:68-136 | A frame comes back whole exactly when its payload has 1 to 10485760 bytes. |
| `LspFraming.FrameIs` | lsp_client.c:70-75 | The bytes of a frame. |
| `LspFraming.RefusedFrame` | lsp_client.c:107-115 | Of an empty or oversized frame only the header is taken; its payload is read as what follows. |
| `LspFraming.CutFrame` | lsp_client.c:77-136 | A frame cut off by the end of the stream gives nothing and leaves nothing. |
| `LspFraming.OtherFrameIsRead` | lsp_client.c:87-136 | Whatever other lines a header has, and in either spelling of the field, behind any blanks and with any sign: the payload is as long as the number says, and only the header is taken if that is not from 1 to 10485760. |
| `LspFraming.NoFieldNoBody` | lsp_client.c:106-115 | Without the field only the header is taken. |
| `LspFraming.StreamRoundTrip` | lsp_client.c:68-136 | A list of such payloads comes back in order with the stream consumed. |
| `LineEditor.Editor.EditInsert` | linenoise.c:164-182 | Inserts before the cursor, unless the buffer is full. |
| `LineEditor.Editor.EditBackspace` | linenoise.c:212-220 | Removes the character before the cursor. |
| `LineEditor.Editor.EditDelete` | linenoise.c:222-229 | Removes the character at the cursor. |
| `LineEditor.Editor.EditTranspose` | linenoise.c:374-382 | Swaps the characters around the cursor. |
| `LineEditor.Editor.EditEraseWord` | linenoise.c:438-441 | Both loops terminate; the text before the cursor loses its spaces and its last word. |
| `LineEditor.Editor.EditHistoryNext` | linenoise.c:231-248 | Saves the line shown, then shows the neighbouring entry, cut to the buffer. |
| `LineEditor.Editor.Edit` | linenoise.c:342-447 | For every input the array, cursor, history and outcome are those of the abstract session. |
| `LineEditor.RefreshWindow` | linenoise.c:141-148 | The window holds the cursor, fits the screen and starts as far left as it can; a variable goes below zero exactly when the prompt fills the screen. |
| `LineKeys.PrintableByte` | linenoise.c:164-182 | A printable byte goes in at the cursor, which moves behind it, unless the line is full. |
| `LineKeys.BackspaceByte` | linenoise.c:212-220 | Bytes 8 and 127 remove the character before the cursor. |
| `LineKeys.DeleteByte` | linenoise.c:222-229 | Byte 4 and the delete key remove the one at the cursor. |
| `LineKeys.KillLineByte` | linenoise.c:418-422 | Byte 21 empties the line. |
| `LineKeys.KillRestByte` | linenoise.c:423-427 | Byte 11 removes what is behind the cursor. |
| `LineKeys.WordByte` | linenoise.c:438-441 | Byte 23 removes the spaces before the cursor and the word before these. |
| `LineKeys.HomeBytes` | linenoise.c:428-430 | Byte 1 and the home key go to the beginning. |
| `LineKeys.EndBytes` | linenoise.c:431-433 | Byte 5 and the end key go to the end. |
| `LineKeys.LeftBytes` | linenoise.c:383-385 | Byte 2 and arrow left go one character back. |
| `LineKeys.RightBytes` | linenoise.c:386-388 | Byte 6 and arrow right go one character on. |
| `LineKeys.SwapByte` | linenoise.c:374-382 | Byte 20 swaps the characters around the cursor. |
| `LineKeys.OlderBytes` | linenoise.c:231-248 | Byte 16 and arrow up save the line and show the next older entry. |
| `LineKeys.NewerBytes` | linenoise.c:231-248 | Byte 14 and arrow down save it and show the next newer one. |
| `LineKeys.AtTheEdges` | linenoise.c:212-229 | With nothing to remove or swap the keys do nothing. |
| `LineKeys.AloneInHistory` | linenoise.c:231-248 | Without earlier entries the history keys do nothing. |
| `LineKeys.PassedOver` | linenoise.c:395-437 | Byte 12 and all other escape sequences change nothing; three bytes are taken, or four behind a digit. |
| `LineKeys.CutSequence` | linenoise.c:395-400 | A sequence cut off by the end of the input changes nothing. |
| `LineKeys.EndingBytes` | linenoise.c:354-373 | Enter accepts, byte 3 cancels, and so does byte 4 on an empty line. |
| `LineKeys.TypedText` | linenoise.c:342-447 | Printable text goes in at the cursor as far as there is room. |
| `LineKeys.TypedLine` | linenoise.c:342-447 | Text typed on an empty line and entered comes back as far as it fits. |
| `LineEditor.KeysUndo` | linenoise.c:164-229 | Which keys undo which. |
| `LineEditor.MovesKeepText` | linenoise.c:184-210 | Moving the cursor keeps the text. |
| `LineEditor.TransposeSwaps` | linenoise.c:374-382 | Transposing swaps exactly the two characters around the cursor and steps over them unless at the end. |
| `LineEditor.RecallReturns` | linenoise.c:231-248 | One entry back and forward returns to the line exactly when it is shorter than the buffer. |
| `LineEditor.EraseWordIs` | linenoise.c:438-441 | What is erased is a maximal word and the spaces behind it. |
| `LineEditor.LineStaysWithin` | linenoise.c:342-447 | Whatever is typed, the line fits the buffer. |
| `LineHistory.History.Add` | linenoise.c:486-506 | Appends unless it repeats the last entry, dropping the oldest when full. |
| `LineHistory.History.SetMaxLen` | linenoise.c:508-524 | Keeps the newest entries. |
| `LineHistory.HistoryIsRecentLog` | linenoise.c:486-506 | After any run of additions the list is the end of the log without immediate repetitions. |
| `LineHistory.DedupIs` | linenoise.c:486-506 | That log has the same lines, no two equal ones in a row. |

## Left out

- AppendsAreAmortised: stated up to half the address range; beyond it growth clamps to the exact need and the bound no longer holds.
- SQLite, full-text search and sessions: archiving appends rows to a ghost sequence, and the memory entry written before a compaction is not modelled.
- Tiers 4 and 5 of the compactor: not part of the ladder that the agent runs; tier 5 keeps the last message whatever its role.
- JSON parsing and printing of messages (`minijson.c`): mesh steps start from parsed messages, and `\u` escapes of surrogates are not decoded.
- Sockets, processes, terminals, signals and clocks: only their bytes and outcomes appear; memory allocation always succeeds.
- NUL bytes inside files, messages and key strokes: the C code cuts its strings there.
- Integer widths of `int` counters (`depth`, `next_msg_id`, task ids, `strtol` results): unbounded here.
- The near-miss report of a failed edit and the texts of breaker messages, remedies and status listings: no decision depends on them.
- The per-turn flags for modified and verified files, and tool names and times in action records: written but not read by the modelled code.
- Command lines, process ids and times of background tasks: not part of the table state that decides anything.
- Tab completion and screen output of the line editor: the completion callback is taken as not set.
- Several threads in `agent_mesh_consult` at once: one consulting thread and any number of threads that only send are modelled.
- `agent_mesh_start` and reconnection: one connection, with replies late, repeated, reordered or lost.
- Path jail, permissions, command risk, sandboxing: security policy.
- The symbol indexer, web tools, chat channels, MCP and Jev clients, company phases: input and output, or fixed scripts.
