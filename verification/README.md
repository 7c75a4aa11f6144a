# OpenHarness: a verified model of its core

OpenHarness is an agent runtime. Before every provider request it packs a session into a bounded
context: it normalises the compacted history, weaves in the session's own items, removes duplicates,
shrinks what is required until it fits the token budget, and takes as much of the rest as still fits.
This project models that engine (`src/core.rs`) together with the parts of the same file it rests on
(UTF-8 truncation, canonical JSON, skill search, the scripted agent loop with its doom-loop
detector) and three pieces of the evaluation crate: the bad-case lifecycle with its redactor, shell
quoting, and the p95 baseline. The theorems are for all inputs, and a few more give
one concrete input on which an expectation fails; `dafny verify dfyconfig.toml` checks them.

How to read it:

- Code that loops over mutable state is a method with invariants, proved against a specification that
  does not mention the loop: `IsGreedy` for the projection, `IsWeave` for the interleaving, `Describes`
  for the history, `IsDeduped` and `Marks` for deduplication, `SoftPass`/`HardPass` for shedding, `Plan`
  and the `Advance` automaton for the agent loop. The lemmas then say what the specification means.
- Functions the source calls but this model does not contain are parameters about which nothing is
  assumed unless a lemma says so: the provider payload behind a token estimate, content fingerprints,
  digests, the normalisation of text before it is compared, and the string cleaner of the redactor.
  Where the size of a payload matters, `Payload` has the renderer itself.
- What a specification calls "ahead", "cut", "asked" or "legacy" is defined once, and a lemma beside it says
  what that means in terms of the fields of items, messages and script entries: `CutContent` for the bytes a
  cut keeps, `FirstComeFirstServed` for the rank, `HistoryFields` for the fate of a message, `ScriptRuns` for
  the entries of a script.
- The token estimator in particular is not assumed to grow with content. Only the second half of
  `FitRequiredItemToTokens` uses `Monotone`, and says so.

## What the proofs found

- Semantic deduplication keeps the first copy, not the best one. A pinned copy that fits can be dropped
  as the duplicate of an unpinned one that does not, and the pack does not count as overflowed
  (`PinnedCopyCanBeLost`). `LostInSilenceIff` and `PackLosesInSilenceIff` say exactly when: the first copy
  is not pinned, does not fit behind the items ranked ahead of it, and the required originals fit together.
- Fitting counts marked duplicates, which are never sent, so required items can be cut although every
  one that is sent would have fitted uncut. `CutForNothingIff` gives the exact condition, `CutForNothing`
  a case of two copies of the same 4000 bytes, with the estimates they get from the real rendering.
- Interleaving keeps every message, but a tool-call id, which any role may carry, replaces role and index in
  the id of its item, and deduplication by id then drops messages. The later of two results of one tool call
  is lost (`SecondToolResultIsLost`), and so is user message 5 behind an answer whose tool-call id is
  `user:5` (`UserMessageCanBeLost`). `MessageIdsCollideIff` says when two messages share an id and
  `MessageIsLostIff` when one is lost for it. Only an item that is no message's can take the place of the
  latest user message (`LatestUserMessageIsSent`).
- A line of a tool result cut to fewer than 19 characters still has 19 (`CutLineLength`).
- A compaction boundary that is not a system message still cuts off the prefix but leaves no work state
  behind (`PrefixCanBeLost`), although the comment at src/core.rs:2510-2514 calls a boundary a durable
  replacement. `PrefixReplacedIff` gives the exact condition.
- `doc/quality-governance.md` says that promotion requires an assertion. Only `promote_bad_case_to_fixture`
  checks that; a direct transition reaches `promoted` without one (`PromotedWithoutAFixture`,
  `PromotionAddsOneGuard`, `FixtureReachableIff`). Its diagram shows rejection only after capture; the code
  rejects from any state, also from `promoted` and `rejected`.
- The privacy guard at eval/src/bad_case.rs:295-297 exempts rejection, but is never reached for a failing
  case, because validation has refused the artifact before: such a case cannot even be rejected
  (`ChangeableIffValid`, `FailingScanIsFrozen`).
- Sanitising skips tags and the kind, path and operator of assertions, so a capture can fail its own scan
  (`CaptureCanFailItsScan`); `CaptureScanIff` says exactly when.
- Tool names are not quoted in the doom-loop key, yet two different calls never share a key
  (`CallKeyIsInjective`), because no printed JSON value ends in a colon followed by another one.
- The nearest-rank computation saturates only for lists of more than 194176253407468964 values, and is
  wrong for every such list of different values (`PercentileIsNearestRank`).

## Model

| member | source | states |
|---|---|---|
| JsonCanonical.CanonDecidesEquivalence | src/core.rs:5165-5198 | Sorting the keys at every depth identifies two JSON values exactly when they are equal up to the order of object fields |
| JsonCanonical.DumpsPrintsCanon | src/core.rs:5165-5198 | `stable_json_dumps` prints the key-sorted representative of its value |
| JsonParser.DumpsRoundTrips | src/core.rs:5165-5198 | A parser written to the grammar of RFC 8259, with the numbers of its section 6 and the escapes of its section 7, surrogate pairs included and lone halves refused, reads every dump back to the key-sorted value, with nothing left over |
| JsonParser.DumpsIsCanonical | src/core.rs:5165-5198 | Two values dump alike if and only if they are equal up to field order: canonical and injective |
| Json.KeyLeqIsLexicographic | src/core.rs:5185-5186 | Keys are compared as in a dictionary: a beginning first, else by the first different character |
| JsonCanonical.PrintedKeysAreInOrder | src/core.rs:5183-5196 | An object is printed with its keys in that order |
| PrintedSize.ArrayText | src/core.rs:5171-5178 | Items of an array are separated by a comma and a space |
| PrintedSize.TwoFieldsText | src/core.rs:5179-5196 | Two fields are printed in key order with a colon and a space behind the key and a comma and a space between them |
| JsonParser.EscapeForms | src/core.rs:5165-5198 | Only quotes, backslashes and control characters are escaped, five of the latter in their short form and the others by four lower-case digits |
| DoomKey.NoValueAfterAnInnerColon | src/core.rs:3936-3940 | No printed value is some text, a colon and another printed value, which is why an unquoted tool name is harmless |
| DoomKey.CallKeyIsInjective | src/core.rs:3936-3940 | Two tool calls share a doom-loop key if and only if they name the same tool and pass equal inputs |
| Utf8Text.Utf8Prefix | src/core.rs:2190-2196 | The loop returns the longest prefix within the limit that ends at a character boundary |
| Utf8Text.Utf8Suffix | src/core.rs:2198-2204 | The loop returns the longest suffix within the limit that starts at a character boundary |
| Utf8Text.PrefixIsTight | src/core.rs:2190-2196 | The cut of well-formed UTF-8 (section 3 of RFC 3629) is well formed and loses fewer than 4 bytes of its share |
| Utf8Text.SuffixIsTight | src/core.rs:2198-2204 | The same for the suffix |
| Truncation.TruncateHeadTail | src/core.rs:2158-2188 | At most `max_bytes` bytes, for any bytes and any limit |
| Truncation.HeadTailIsValid | src/core.rs:2158-2188 | A cut of well-formed UTF-8 is well formed |
| Truncation.HeadTailShape | src/core.rs:2158-2188 | In marker mode the result is a prefix, the marker and a suffix that do not overlap in the text, a fitting header is kept whole, and each part is fewer than 4 bytes short of its two thirds or one third |
| Truncation.HeadTailWithoutMarker | src/core.rs:2158-2164 | Text that fits is unchanged; with no room for the marker the result is a prefix fewer than 4 bytes short of the limit |
| Truncation.TruncateInstructionSections | src/core.rs:2119-2156 | The sectioned variant meets the same byte limit, also where the kept ends of short instructions overlap |
| Truncation.SectionsAreValid | src/core.rs:2119-2156 | The sectioned cut of well-formed UTF-8 is well formed |
| Truncation.SectionsShape | src/core.rs:2119-2156 | With instructions and room for three markers, what is kept is a prefix of the text, both ends of the instructions and a suffix of the text, each whole or fewer than 4 bytes short of its share |
| ContextItems.EstimateSerializedTokens | src/core.rs:2206-2211 | The fewest tokens that cover all bytes of the canonical JSON, and never none |
| ContextItems.EstimateItemIsTight | src/core.rs:1884-1888 | An item costs the fewest tokens that cover the message it becomes |
| Utf8Encoding.EncodedIsValid | src/core.rs:2206-2211 | The bytes that are counted are those of the encoding of section 3 of RFC 3629, which is well formed and can be read back |
| ContextItems.TruncateRequiredFacts | src/core.rs:1965-2016 | Cutting keeps an item's identity, meets the byte limit, changes nothing exactly when the content fits already, and records the size and estimate from before the first cut; the new estimate is that of the cut item |
| ContextItems.TruncateRequiredIsValid | src/core.rs:1965-2016 | Cutting keeps content well-formed UTF-8 under every strategy |
| CutContent.CutKeeps | src/core.rs:1974-1978 | What a cut item holds: both ends around the marker, two thirds and one third of the room, behind the first line where its kind keeps it and it leaves 8 bytes; system text with room keeps the start, both ends of the instructions between the first pair of tags, and the end; without room for a marker the beginning alone |
| CutContent.CategoriesDecide | src/core.rs:1890-1933 | Ten sorts of items give way in a listed order, each with its own soft minimum |
| Fitting.FitRequiredItemToTokens | src/core.rs:1935-1963 | The binary search terminates; whenever the smallest cut meets the target so does its result, and one byte more would not; under a monotone estimator no longer cut meets the target |
| Fitting.SortedKeysAreASchedule | src/core.rs:1600-1606 | Required items are visited once each, strictly by truncation order, priority and position |
| Fitting.SoftCutIsFair | src/core.rs:1611-1636 | One turn of the first loop either takes all that the soft minimum allows or stops within one byte of removing the overflow |
| Fitting.ShedToSoftMinimums | src/core.rs:1607-1637 | `overflow` is always the excess of the required sum over the budget; nothing is cut before everything ahead of it has given up its all; cuts are tight |
| Fitting.ShedToHardMinimums | src/core.rs:1639-1658 | The second loop cuts in the same order to 96 bytes and stops once everything fits; the last cut was needed |
| Fitting.HardCutIsFinal | src/core.rs:1639-1658 | An item cut to the hard minimum cannot be made cheaper by cutting it there again |
| Fitting.FitRequiredItems | src/core.rs:1581-1660 | Either the required items fit the budget or none of them would get cheaper at 96 bytes; items change only by at most one soft and one hard cut, in shedding order, no further than needed, and not at all exactly when they fit or none can be made cheaper; a changed item holds what a cut to no less than the soft minimum of its sort keeps, or of that what a cut to 96 bytes keeps |
| Fitting.ItemsGiveWayInTurn | src/core.rs:1600-1658 | Of two required items the one of the earlier sort, else of lower priority, else in front, gives all it can before the other is cut, in both passes |
| Fitting.UserTextKeepsBothEnds | src/core.rs:1607-1658 | However often a user's text is cut, it begins with at least 28 and ends with at least 13 bytes of what the user wrote, around one marker |
| Fitting.ShedKeepsIdentity | src/core.rs:1581-1660 | Ids, order, unpinned items and all other fields are untouched, no estimate grows, and the original size stays on record |
| Fitting.UserTurnGivesWayLast | src/core.rs:1890-1912 | A user message is cut only after every required item that is not one, and every user message ahead of it, has given up all that its soft minimum allows |
| Projection.Project | src/core.rs:1472-1579 | One trace entry per item in item order, included exactly when it has no drop reason, never `not_selected`; with unique ids the included items are the greedy choice and each drop reason is the right one; the other fields of an entry are those of the item |
| Projection.ReasonsAreApt | src/core.rs:1494-1518 | Repeats are dropped as such, other items for the budget, which is an exhausted requirement for pinned ones |
| ProjectionLaws.GreedyStaysInBudget | src/core.rs:1493-1519 | The included messages never cost more than the budget |
| ProjectionLaws.NothingDroppedWouldFit | src/core.rs:1493-1519 | An item dropped for the budget is a message and does not fit in the final remainder either |
| ProjectionLaws.FirstComeFirstServed | src/core.rs:1480-1519 | Pinned before unpinned, then the higher priority, then the earlier: if the message behind is included, so is the one in front that is no repeat and costs no more |
| ProjectionLaws.NoBudgetTakesAll | src/core.rs:1500-1510 | Without a budget exactly the repeats are left out |
| ProjectionLaws.RequiredSumIsUsed | src/core.rs:1592-1595 | The required sum is what all pinned messages together would use |
| ProjectionLaws.GreedyIsUnique | src/core.rs:1472-1519 | The specification of the projection has at most one solution |
| ProjectionLaws.GreedyIsTaken | src/core.rs:1472-1519 | It has exactly one, which is decided item by item from the items ranked ahead alone |
| ProjectionLaws.RequiredAllIncludedIff | src/core.rs:1472-1519 | All required items that are no duplicates are included if and only if together they fit the budget |
| ProjectionLaws.PinnedChoiceIsGreedy | src/core.rs:1472-1519 | Removing all unpinned items leaves the choice among the pinned ones as it was |
| ProjectionLaws.UnpinnedItemsHaveNoSay | src/core.rs:1472-1519 | Adding, removing or reordering unpinned items never changes which pinned items are included |
| Deduplication.DedupeItems | src/core.rs:1662-1679 | One item per id, in order of first appearance, each the earliest of its best-ranked copies |
| Deduplication.KeptIffBest | src/core.rs:1662-1679 | An item survives if and only if no item with its id outranks it and it outranks all earlier ones |
| Deduplication.DroppedIff | src/core.rs:1662-1679 | An item unlike all others is dropped if and only if an earlier item with its id is not outranked by it or a later one outranks it |
| Deduplication.BetterCopyWins | src/core.rs:1662-1679 | A copy is dropped for a pinned one, else for one of higher priority, else of higher estimate, else for an earlier one |
| Deduplication.SemanticDedupeItems | src/core.rs:1681-1706 | Exactly the items with an earlier item of the same meaning are marked, with the id of the first such item; nothing else changes |
| Deduplication.RepeatsNameTheFirst | src/core.rs:1687-1698 | A repeat carries the id of the first item of its meaning and that meaning, and is otherwise unchanged |
| Meaning.SameMeaningIff | src/core.rs:1842-1868 | As long as the digest does not confuse these two items, they share a fingerprint if and only if both are stable and not blank and agree in kind, delivery and normalised content |
| SemanticLoss.FingerprintsKeepDeliveriesApart | src/core.rs:1842-1868 | As long as the digest confuses no two of the items, those that share a fingerprint are delivered alike |
| SemanticLoss.MeaningSurvivesIffFirstCopyDoes | src/core.rs:1681-1706 | Among items of one meaning some copy is included if and only if the first one is taken, which only the items ranked ahead of it decide |
| SemanticLoss.LostInSilenceIff | src/core.rs:1681-1706 | Among items whose repeats are delivered alike, no copy of a required content is sent and yet no required original is dropped, if and only if its first copy is not pinned and exceeds what the items ahead of it leave, and the required originals fit together |
| SemanticLoss.PinnedCopyCanBeLost | src/core.rs:1687-1697 | A concrete case where a required copy that fits is lost and no required original is dropped, for any digest |
| ToolPreview.PreviewKeepsIdentity | src/core.rs:1444-1470 | A preview leaves an item within the limits alone, changes only tool results, meets the byte limit and records the original estimate and size |
| ToolPreview.PreviewIsValid | src/core.rs:2018-2101 | The preview of well-formed UTF-8 is well formed |
| ToolPreview.CutLineLength | src/core.rs:2090-2101 | A cut line has exactly the allowed number of characters, or 19 when fewer are allowed |
| ToolPreview.OneCharCounts | src/core.rs:2091 | A well-formed character counts once |
| ToolPreview.LinesAreExact | src/core.rs:2027-2031 | Lines and line ends make up the text, and no line holds a line feed |
| ToolPreview.LinesOfJoined | src/core.rs:2056 | Reading joined lines gives the lines back |
| ToolPreview.PreviewShowsWindow | src/core.rs:2018-2088 | A result over a limit is shown as its first and last lines around a count of the others, long lines cut to the allowed characters, all of it cut to the number of bytes at both ends around the marker |
| MessageItems.LatestUserIsRequired | src/core.rs:4756-4804 | The item of the latest user message is required, has no meaning to share and carries no mark |
| MessageItems.MessagesRankByRole | src/core.rs:4784-4804 | System messages rank above the latest user message, that above tool results, those above all others; only the first two are pinned and only the first are stable |
| MessageRendering.MessageSurvivesItsItem | src/core.rs:4906-4945 | What is rendered for the item of a message is what would be rendered for the message: role, text, name, tool-call id and tool calls |
| MessageItems.MessageIdsCollideIff | src/core.rs:4757-4772 | For any two messages: they share an id if and only if both or neither are tool results and they name the same tool call, or neither names one and role and index agree, or the call that one names spells the role and index of the other |
| MessageItems.MessageIsLostIff | src/core.rs:1662-1679 | The item of a message, the only one with its source, is dropped if and only if an earlier item with its id is not outranked by it or a later one outranks it |
| MessageItems.SecondToolResultIsLost | src/core.rs:1662-1679 | Of two results of one tool call deduplication drops the later |
| MessageItems.UserMessageCanBeLost | src/core.rs:4757-4772 | A concrete user message that is lost to an earlier answer with the tool-call id `user:5` |
| Payload.OtherItemsAreSystem | src/core.rs:4906-4912 | An item without a role of a dialogue is sent as a system message with its text |
| Payload.PlainSize | src/protocol/src/protocol.rs:799-843 | An item without name, tool call and assistant role is printed to at least its content and at most six times that and 200 bytes |
| ContextPack.Prepare | src/core.rs:1248-1256 | What is budgeted is the deduplicated, marked, estimated and previewed form of the collected items; ids are unique and none is lost or invented |
| ContextPack.LimitedIsShort | src/core.rs:1250-1258 | A prepared tool result is within the preview size; if it was cut, its size and its estimate from before are on record |
| ContextPack.SelectedTokens | src/core.rs:1277-1283 | The loop sums the cost of the included messages |
| ContextPack.SelectFromIsExact | src/core.rs:1309-1317 | The provider sees exactly the included messages, in order, split by stability |
| ContextPack.FixedOverheadCovers | src/core.rs:1870-1882 | The overhead is the fewest tokens that cover the printed tools and options and 30 bytes around them |
| ContextPack.ExhaustedMeansRequired | src/core.rs:1285-1290 | The overflow flag is raised exactly for dropped required items that are no duplicates |
| ContextPack.DroppedMeansOverBudget | src/core.rs:1266-1290 | A required item is dropped only when the required items as a whole exceed the budget |
| ContextPack.Build | src/core.rs:1241-1318 | The pack end to end: greedy choice under the item budget, overflow flag if and only if a required item was dropped or the fixed part is over budget, estimate within the budget when not overflowed, required items dropped only when none can be made cheaper, and items cut exactly when there is something to gain; the request holds the included messages once, stable ones first; tool results are within the preview size |
| ContextPack.ComputeInputLimitTokens | src/core.rs:4245-4257 | A positive input limit leaves room for the reserved output in the window |
| ContextPack.BuildForModel | src/core.rs:584-604 | Budget soundness: with budgeting enabled and no overflow, the estimate fits the input limit and, with the reserved output, the window; it keeps the safety margin where the window has room for it, and else stays within the guarded share of the window; the printed tools and options fit what the selected items and the reserve leave of the window, in bytes; a limit of zero always comes out overflowed; an overflowed pack has its required items at their floor |
| RequestSize.EstimateCoversRequest | src/core.rs:1241-1318 | With the real renderer, and items that come with no estimate or a fair one, the printed tools, options and included messages take no more bytes than the estimated tokens stand for |
| RequestSize.RequestFitsWindow | src/core.rs:584-604 | So a pack for a model that is not overflowed fits the window beside the reserved output in bytes, not only in tokens |
| PackLaws.PackMarksRepeats | src/core.rs:1248-1270 | In a built pack exactly the repeats of the deduplicated items are marked; estimates, previews and fitting change neither marks nor places |
| PackLaws.PackLosesInSilenceIff | src/core.rs:1241-1318 | With repeats that are delivered alike: a pack that is not overflowed sends no copy of a required content if and only if the first copy is not pinned, exceeds what is left to it, and everything else fits |
| PackLaws.CutForNothingIff | src/core.rs:1586-1598 | Fitting cuts although every required original would have been included uncut, if and only if the originals fit, their sum with the marked repeats does not, and some required item can be made cheaper |
| PackLaws.CutForNothing | src/core.rs:1586-1598 | A concrete case from collected items to pack: twice the same 4000 bytes, an item budget of one copy, 1 to 3000 bytes per token, and the payload of the real renderer, with text that decodes to the bytes it came from |
| TranscriptLaws.RequiredItemIsSentIff | src/core.rs:1241-1318 | Unless the pack is overflowed, a required item with a meaning of its own is sent, uncut or as fitting cuts it, if and only if it is the best-ranked copy of its id |
| TranscriptLaws.LatestUserMessageIsSent | src/core.rs:4693-4724 | From the session to the request: unless the pack is overflowed, the last user message, if compaction keeps it, is sent if no item other than those of messages takes its place, and only then if all those items differ from it; no message ever takes its place |
| TranscriptLaws.AttachmentStaysWithItsMessage | src/core.rs:1724-1733 | From the session to the woven transcript: an attachment of a kept message stands behind that same message, with only attachments of that message in between |
| TranscriptLaws.OtherAttachmentsComeLast | src/core.rs:4740-4752 | An attachment without a source, or whose message is not kept, is filed under the last message and comes after everything but later ones of its sort |
| History.LatestCutoffIsLast | src/core.rs:2576-2595 | The cutoff is that of the last boundary that names an earlier message |
| History.MaterializeHistory | src/core.rs:2502-2574 | Every output is described message by message: kept messages in order, legacy sources, the last work state, the count of dropped profile prompts, both maps |
| History.OutcomesPartition | src/core.rs:2502-2574 | Every message meets exactly one of six fates |
| History.IndexMapIsExact | src/core.rs:2502-2574 | The index map is a strictly increasing bijection from the kept messages onto the new transcript, which holds no system message |
| History.PrefixReplacedIff | src/core.rs:2515-2540 | A dropped prefix leaves a work state if and only if some boundary past the cutoff is a system message and no profile prompt |
| History.WellFormedPrefixIsReplaced | src/core.rs:2502-2574 | With well-formed boundaries a dropped prefix always leaves a work state |
| History.PrefixCanBeLost | src/core.rs:2515-2522 | A concrete transcript whose prefix is dropped and replaced by nothing |
| History.SecondPassIff | src/core.rs:2502-2595 | A second pass changes the transcript if and only if a kept boundary names an earlier kept message; otherwise both maps are the identity; in any case it yields no work state and no legacy source |
| History.WellFormedHistoryIsStable | src/core.rs:2502-2595 | With well-formed boundaries a second pass keeps every message in its place and yields nothing else |
| History.RemappedSourceIsTheSameMessage | src/core.rs:1724-1733 | An attachment keeps its message, or loses its source exactly when the message is not kept |
| History.RemappedPositionCountsKept | src/core.rs:1734-1742 | A position moves to the number of kept messages before it, clamped to the end, and keeps its order |
| HistoryFields.CutoffIff | src/core.rs:2576-2595 | The cutoff is message `c` if and only if the last boundary that names an earlier message names `c`, the last one before it with that id |
| HistoryFields.KeptIff | src/core.rs:2515-2523 | A message stays, unchanged, if and only if it is past the cutoff and no system message |
| HistoryFields.WorkStateIsTheBoundary | src/core.rs:2597-2636 | The last system boundary past the cutoff becomes the work state: its text as the summary, position 0, its names or their defaults, its other metadata |
| HistoryFields.NoWorkStateIff | src/core.rs:2536-2539 | There is no work state if and only if there is no such boundary |
| HistoryFields.LegacyKeepsTheText | src/core.rs:2540-2567 | Any other system text past the cutoff is a legacy source with its trimmed text, its names or their defaults, in order |
| HistoryFields.LegacyComesFromAMessage | src/core.rs:2540-2567 | There are no other legacy sources |
| HistoryFields.PromptsAreCounted | src/core.rs:2524-2535 | The dropped prompts are counted one by one |
| Interleaving.Interleave | src/core.rs:4674-4754 | Every message, attachment, session item and work state once, in strictly rising place order |
| Interleaving.LayoutIsUnique | src/core.rs:4674-4754 | The layout fixes the whole sequence |
| Interleaving.EachPieceOnce | src/core.rs:4674-4754 | Nothing is duplicated |
| Interleaving.MessagesKeepTheirOrder | src/core.rs:4716-4724 | Messages keep their order |
| Interleaving.SessionItemsStandTogether | src/core.rs:4711-4715 | Nothing comes between two session items |
| Interleaving.SessionItemsPrecedeTheLastUser | src/core.rs:4693-4724 | The piece right after the session items is the last user message, marked as such |
| Interleaving.SessionItemsComeLastWithoutAUser | src/core.rs:4693-4715 | Without a user message the session items come after all messages |
| Interleaving.AttachmentsFollowTheirMessage | src/core.rs:4725-4732 | An attachment whose source is in range stands after its message and before the next |
| Interleaving.WorkStateStands | src/core.rs:4686-4710 | The work state stands in front of the message at its position, of the session items and attachments behind that place, and without a position behind all messages |
| Interleaving.SessionItemsKeepTheirOrder | src/core.rs:4698-4715 | Session items come in their own order |
| Interleaving.AttachmentsKeepTheirOrder | src/core.rs:4725-4752 | Attachments of one message, and those without one, come in the order given |
| SkillSearch.SkillCollector.Collect | src/core.rs:5068-5091 | The recursion over mutable sets terminates on cyclic graphs and computes the depth-first walk |
| SkillSearch.RecursiveSkillFiles | src/core.rs:5055-5066 | The search returns what the walk from the resolved root finds |
| SkillSearch.SkillSearchIsExact | src/core.rs:5055-5091 | On any finite graph, links and cycles included, the result is each reachable `SKILL.md` exactly once and nothing else |
| SkillSearch.SearchIsDeterministic | src/core.rs:5086-5090 | Files and order depend only on the graph, not on how directories list their entries |
| SkillSearch.DirectoryIsListedInOrder | src/core.rs:5086-5090 | The skill files of one directory are found in dictionary order |
| EventStream.CountersCount | src/core.rs:3772-3934 | In a stream that follows the grammar, opened and closed steps and text blocks are what the automaton counts |
| EventStream.StepsBalance | src/core.rs:3772-3856 | Step starts equal step finishes, or exceed them by one inside a step or after an error; an error is last |
| EventStream.AnswersFollowCalls | src/core.rs:3800-3822 | Tool results answer the tool calls in order, and the rest are pending |
| EventStream.DeltasLieInTheirBlock | src/core.rs:3882-3934 | Each text delta lies inside the open block of its id |
| EventStream.StepsCloseAnswered | src/core.rs:3800-3843 | A step closes when every call announced so far has its result |
| EventStream.ResultsNameTheirCall | src/core.rs:3800-3822 | A result names the first call that has none yet |
| EventStream.NothingFollowsFailure | src/core.rs:3781-3815 | An error is the last event |
| EventStream.StartsAreNumbered | src/core.rs:3774-3779 | Steps and text blocks are numbered from one |
| DoomLoop.PushKeepsLastKeys | src/core.rs:3940-3944 | The bounded history always holds the keys of the last `threshold` calls |
| DoomLoop.FiresOnRepeatedCalls | src/core.rs:3936-3950 | The detector fires if and only if the last `threshold` calls name one tool and pass equal inputs |
| DoomLoop.NoRepeatedRun | src/core.rs:3936-3950 | It never fired if and only if there is no run of `threshold` equal calls anywhere, across steps |
| ScriptPlan.StepUsageWarnings | src/core.rs:4084-4135 | A warning if and only if a positive threshold is configured, not switched off, and exceeded; never more than one |
| ScriptPlan.PlanIsValid | src/core.rs:3772-3856 | Whatever a run puts to the detector comes out of the script, so its inputs are the maps of the script |
| ScriptPlan.DoomComesFirst | src/core.rs:3800-3815 | How many calls of a step are executed is fixed by when the detector first fires over the whole history |
| ScriptRuns.RetryTakesTheNextEntry | src/core.rs:3781-3798 | After an entry with an error the next one is asked and gives the calls, the reason, the usage and the text |
| ScriptRuns.AskedForErrors | src/core.rs:3781-3798 | A step asks once, and once more for each error it meets |
| ScriptRuns.FailureIsThePair | src/core.rs:3781-3798 | A run fails only for the first two errors in a row, in the step that comes to them |
| ScriptRuns.PlanSkipsErrors | src/core.rs:3772-3856 | A script without two errors in a row is run as if its errors were not there |
| ScriptRuns.ScriptIsRun | src/core.rs:3772-3856 | Such a run: step `k` reads the `k`-th entry without an error, tells its text and calls, a result for every call and its closing events; it ends with the first step without calls that says "stop" or is the last allowed, with the first call that trips the detector, or for want of steps |
| ScriptRuns.ContentsAreExact | src/core.rs:3882-3934 | An answer tells its text deltas and tool calls, each once, in order and field by field |
| ScriptRuns.CallsAreTold | src/core.rs:3910-3920 | The calls of a step are those that its answer tells |
| ScriptRuns.LastFinishDecides | src/core.rs:3921-3929 | The last finish event gives the reason and the usage |
| ScriptRuns.AnswerQuotesTheQuestion | src/core.rs:4010-4020 | The answer quotes the first question, or says "Question" where there is none |
| ScriptedLoop.ScriptedAgentLoopRunner.ProcessModelEvents | src/core.rs:3882-3934 | A model answer becomes at most one well-formed text block and one event per call; calls, reason, usage and text are those of the script |
| ScriptedLoop.ScriptedAgentLoopRunner.RecordDoomLoop | src/core.rs:3936-3950 | The bounded history decides exactly as the full call history would |
| ScriptedLoop.ScriptedAgentLoopRunner.EmitFixtureEchoResult | src/core.rs:3952-3977 | An echo call gets one result that repeats its value and answers that call |
| ScriptedLoop.ScriptedAgentLoopRunner.EmitQuestionResult | src/core.rs:3979-4047 | A question pauses once and is answered, or dismissed with an error result |
| ScriptedLoop.ScriptedAgentLoopRunner.CallModel | src/core.rs:3781-3798 | A step asks the model once, or again after a first error; a second error ends the run; the result is what the script holds at that point |
| ScriptedLoop.ScriptedAgentLoopRunner.ExecuteCalls | src/core.rs:3800-3822 | Calls are answered in order until one trips the detector, which is the first that could |
| ScriptedLoop.ScriptedAgentLoopRunner.FinishStep | src/core.rs:3824-3843 | Warnings and the closing event leave calls, results and text alone; an unknown reason after calls becomes `tool_call` |
| ScriptedLoop.ScriptedAgentLoopRunner.RunStep | src/core.rs:3774-3852 | One step keeps the invariant between steps or ends the run, as the plan of the script says |
| ScriptedLoop.ScriptedAgentLoopRunner.Run | src/core.rs:3772-3856 | A fresh runner stops, in the way, the step, with the calls and the text that the script's plan prescribes |
| ScriptedLoop.RunScriptedAgentLoop | src/core.rs:3772-3874 | Every run ends with status `stop`, at most two model calls per step, a well-formed stream, and all calls answered unless the detector fired; its events tell what the plan of the script says; it fails only for two errors in a row, and the model is asked once per step and once per error; the detector never fires with a threshold of zero; no `threshold` consecutive executed calls are equal, and a run stopped by the detector ends in that many |
| Redaction.SanitizeValue | eval/src/bad_case.rs:476-513 | The recursion returns the sanitised tree and appends exactly its redacted paths, in order |
| Redaction.SanitizedIsClean | eval/src/bad_case.rs:476-557 | Nothing sensitive is left, on any JSON tree |
| Redaction.CleanIffUnchanged | eval/src/bad_case.rs:476-557 | The privacy scan passes exactly on the values that sanitising leaves alone |
| Redaction.SanitizeIsIdempotent | eval/src/bad_case.rs:476-513 | Sanitising twice is sanitising once |
| Redaction.NothingRecordedIff | eval/src/bad_case.rs:476-513 | No path is recorded exactly when nothing changed and there was no sensitive key |
| Redaction.OnlySensitivePartsChange | eval/src/bad_case.rs:476-513 | Away from sensitive keys the tree keeps its shape and its scalars, and every string becomes its cleaned form |
| Redaction.SensitiveValuesAreReplaced | eval/src/bad_case.rs:476-490 | Under a sensitive key there is the placeholder and nothing else |
| Redaction.SensitiveKeyIff | eval/src/bad_case.rs:515-532 | A key is sensitive if and only if it is one of eleven words in any case, or ends in one behind an underscore |
| Redaction.RedactionsAreRecorded | eval/src/bad_case.rs:476-513 | Every sensitive key and every string that cleaning changes is recorded by its path |
| Redaction.RecordsAreRedactions | eval/src/bad_case.rs:476-513 | Nothing else is recorded |
| BadCase.DedupIsExact | eval/src/bad_case.rs:252-253 | Sorting and deduplicating keeps every path once, in order |
| BadCase.ArtifactIdIff | eval/src/bad_case.rs:448-468 | An id is 1 to 160 ASCII letters, digits, dashes, underscores, dots and colons |
| BadCase.HexIff | eval/src/bad_case.rs:470-474 | A trace id or fingerprint is a hexadecimal number of the right length other than zero |
| BadCase.SourceIff | eval/src/bad_case.rs:417-446 | A source has seven names that are not blank and three such numbers |
| BadCase.CaptureBadCase | eval/src/bad_case.rs:216-275 | Capture succeeds exactly on valid input and leaves the sanitised replay, its paths, the scan's verdict and no history |
| BadCase.CaptureScanIff | eval/src/bad_case.rs:229-257 | A captured case passes its scan if and only if its tags and its assertions' kind, path and operator were clean already |
| BadCase.CaptureCanFailItsScan | eval/src/bad_case.rs:229-257 | A concrete cleaner and tag with which a sanitised capture fails its scan |
| BadCaseLifecycle.RunsAreLawful | eval/src/bad_case.rs:277-348 | Over every run the history is a contiguous chain from `captured` with non-decreasing times, the fingerprint matches, and id, source and replay never change |
| BadCaseLifecycle.TransitionIff | eval/src/bad_case.rs:277-310 | A transition is granted if and only if the artifact is valid, the owner is named, time does not run back, and the target is the next step or a rejection; it is appended with its owner, time and note, and nothing else changes |
| BadCaseLifecycle.ChainShape | eval/src/bad_case.rs:51-63 | Any chain from `captured` goes straight forward and then is only rejected |
| BadCaseLifecycle.PromotedMeansFiveSteps | eval/src/bad_case.rs:51-63 | A case is promoted if and only if its history is exactly the five forward steps |
| BadCaseLifecycle.RejectedIsAbsorbing | eval/src/bad_case.rs:51-63 | No run leaves `rejected` |
| BadCaseLifecycle.ChangeableIffValid | eval/src/bad_case.rs:284-309 | Some command changes an artifact if and only if it validates |
| BadCaseLifecycle.FailingScanIsFrozen | eval/src/bad_case.rs:284-297 | A capture that fails its scan is never changed by any run |
| BadCaseLifecycle.ReachableIsValid | eval/src/bad_case.rs:350-374 | Everything reachable from a capture that passed its scan validates |
| BadCaseLifecycle.PromotableIff | eval/src/bad_case.rs:216-348 | A capture can leave `captured`, and can reach `promoted`, if and only if its unsanitised parts were clean |
| BadCaseLifecycle.PromotedFixtureIsValid | eval/src/bad_case.rs:312-399 | Every promoted fixture passes its own validator and carries the case's replay, source, id and fingerprint; the artifact is the one the transition gives |
| BadCaseLifecycle.PromotionAddsOneGuard | eval/src/bad_case.rs:312-328 | Promotion succeeds if and only if the direct transition does, both identifiers are well formed, and there is an assertion |
| BadCaseLifecycle.FixtureReachableIff | eval/src/bad_case.rs:216-348 | Some run of a capture yields a fixture if and only if its unsanitised parts were clean and it has an assertion |
| BadCaseLifecycle.PromotedWithoutAFixture | eval/src/bad_case.rs:277-310 | A concrete case that is promoted and can never yield a fixture |
| ShellQuote.ScanQuoted | eval/src/eval_harness.rs:1744-1753 | At the start of a word a shell reads the quoted form of a NUL-free string as that string |
| ShellQuote.QuotingRoundTrips | eval/src/eval_harness.rs:1744-1753 | Splitting the space-joined quotes by section 2.2 of the POSIX Shell Command Language gives the list back if and only if no string holds a NUL |
| ShellQuote.QuotingIsInjective | eval/src/eval_harness.rs:1744-1753 | Different NUL-free lists never quote to the same command |
| ShellQuote.ChangeDirectoryIsTwoWords | eval/src/eval_harness.rs:1083-1085 | The `cd` line names exactly the directory given |
| ShellQuote.TerminalBenchWrapCommand | eval/src/eval_harness.rs:1081-1097 | The wrapped command is three words, the third the exact script, if and only if the inputs hold no NUL; the script changes to the directory, runs the command in a subshell, and prints its status last in the format asked for |
| QualityBaseline.NearestRank95 | eval/src/evidence.rs:389-397 | The computed index is always in range and selects the value at the nearest rank |
| QualityBaseline.PercentileIsNearestRank | eval/src/evidence.rs:389-397 | At least 95% of the values are at most the result and fewer than 95% are below it, exactly as long as the rank does not saturate |
| QualityBaseline.NearestRankIsUnique | eval/src/evidence.rs:389-397 | Only one value has that property |
| QualityBaseline.PercentileIgnoresOrder | eval/src/evidence.rs:389-397 | The input order does not matter |
| QualityBaseline.BaselineFromReport | eval/src/evidence.rs:269-299 | It succeeds exactly when every case is usable, and the saturating totals are the exact sums cut off at the largest 64-bit number |
| QualityBaseline.UsableIff | eval/src/evidence.rs:276-290 | A case is usable if and only if its three counts are 64-bit natural numbers and its cost, if it is a number, is not negative |
| QualityBaseline.TotalsGrow | eval/src/evidence.rs:276-292 | Each case adds its duration, both its counts, and its cost in microunits rounded to the nearest |

## Left out

- ContextPack.Build: token sums are natural numbers; the source adds `u64` without checking for overflow (src/core.rs:1503, 1595).
- ContextPack.Build: starts from the collected items; which of them come from messages is stated only in `TranscriptLaws.LatestUserMessageIsSent`; instruction and system-source rendering, the stable-prefix record, provider hashes and the conversion to provider messages are not modelled.
- ContextPack.ComputeInputLimitTokens: the window times the guard ratio is exact arithmetic over `real`, not `f64`; the ratio's range (0, 1] is what option loading guarantees.
- Projection.Project: trace fields that only copy metadata for display (truncation reason and strategy, attachment size, semantic fingerprint) are left out.
- ContextItems.EstimateSerializedTokens: the payload renderer behind an estimate is an arbitrary function, except in `PackLaws.CutForNothing` and `RequestSize`, where it is `Payload.RenderItem`; tool calls carried along are rendered as they stand in the metadata.
- Interleaving.Interleave: arranges abstract pieces; of what they render only the item of a message is modelled (`MessageItems.MessageItem`), not attachments, goals, plans, todos and checkpoints.
- History.MaterializeHistory: SHA-1 in generated legacy ids is an arbitrary function of the content.
- JsonParser.DumpsRoundTrips: a number that is not an integer is identified with its printed text; the float printer is not modelled.
- SkillSearch.SkillSearchIsExact: the file system is a finite graph of canonical nodes that does not change during the search; paths that cannot be read as directories have no entries.
- ScriptedLoop.RunScriptedAgentLoop: event ids are numbers, costs and display metadata of events are left out, and token counts are natural numbers.
- ScriptPlan.StepUsageWarnings: only the decision and the numbers of a warning, not its wording.
- Redaction.SanitizeValue: the three regular expressions are an arbitrary function that settles after one application and leaves the placeholder alone.
- BadCase.CaptureBadCase: fingerprints are arbitrary functions of the record, error texts are not told apart, and tags are a list.
- ShellQuote.QuotingRoundTrips: words, not commands: reserved words, aliases and assignments in front of a command name are a later stage of the shell.
- QualityBaseline.BaselineFromReport: the value of a number that is not an integer is any function of it into `real`, so costs are always finite and their products exact.
- Option loading and validation, configuration and authentication files, HTTP, processes and terminal interfaces: input and output only.
- Meaning.SameMeaningIff: the normalisation of line ends and blanks before items are compared is an arbitrary function, and SHA-1 is any digest, here one that does not confuse the two items.
- Floating-point scoring, report rendering, the legacy desktop prototype and argument parsing: they would only add easy members.
