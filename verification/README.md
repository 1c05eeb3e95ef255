# eforge-plan, verified

A Dafny 4.11 model of the parts of the `eforge-plan` extension with the most state,
arithmetic and interleaving, with proofs of what they promise. `dafny verify dfyconfig.toml`
checks the whole project.

What is modelled, one group of modules per component:

- **Reducer input under a byte cap** (`Text`, `GreedyPacking`, `NameChunks`, `ReducerInput`,
  `ReducerSelection`, `ReducerByteCap`, `ReducerConvergence`, `ReducerLoop`, `ReducerOscillation`,
  `ReducerSilentLoss`, `ReducerReport`, `ReducerJson`, `Utf8`, `ReducerBuilder`). The reducer's size
  is the UTF-8 length of its JSON text. `ReducerBuilder` holds the loops that splice arrays and push
  and pop outcomes; the other modules hold the functions they are proved equal to and the theorems
  about those functions.
- **Recommendation overlay and its validator** (`RecommendationOverlay`, `Filters`, `OverlayResults`,
  `OverlayContents`, `OverlayValidity`, `OverlayIssues`, `OverlayRun`).
- **Dependency sort and JSON projection** (`Reachability`, `StringOrder`, `DependencySort`,
  `DependencyForest`, `JsonValues`, `JsonProjection`, `JsonFailures`): two depth-first searches over
  arbitrary finite graphs.
- **Canonical JSON and the audit cache** (`CanonicalJson`, `JsonReader`, `JsonTexts`, `AuditCache`,
  `AuditCacheAnswers`).
- **Concurrency** (`PromiseChain`, `StoreLock`, `DraftItems`, `DraftItemResults`, `DraftPlanUnits`,
  `DraftUnitResults`, `DraftUnitRuns`, `RevisionTurns`, `RevisionProgress`, `WorkerPool`): state
  machines whose runs are all interleavings of the steps between two `await`s.
- **Markdown sections** (`MarkdownLines`, `SectionParser`, `SectionGrammar`, `SectionEdits`, `SectionAdds`,
  `SectionSafety`, `SectionModes`, `PatchSafety`, `EvidenceLoss`, `PatchExactness`, `PatchLosses`).

For each operation there are the functions that follow the code, the methods proved to compute them
where the code has loops or changes state, and theorems that give the result without those functions:
by positions, filters, statuses, field by field, or by what an independent reader makes of a text.

## Where the code keeps less than one would expect

Each of these is proved, with the exact condition where there is one.

- **Naming omissions can lose a finding silently.** The naming loop need not settle: naming one
  omitted finding can change which of two is dropped, for ever, until the attempts run out. For every
  head and context of ordinary size there are fourteen protected findings, none over 12,000 bytes and
  none longer compacted than as given, of which the thirteenth is dropped and named nowhere
  (`ReducerSilentLoss.SilentLoss`). The field bounds of the compaction leave room for findings of that
  size. The diagnostics are exact if and only if the loop left through equal sets
  (`ReducerLoop.ExactAccount`), that is, if and only if one of its first n + 2 attempts omits just what
  it names (`ReducerLoop.BuildAccountsIff`). A condition on the sizes alone is only sufficient: behind a
  front that fits in any case, they do not shrink along the priority order
  (`ReducerLoop.LoopConverges`). The bound of fewer than 10,000,000 retained outcomes that
  "retained pending" would need always holds, since every outcome takes a byte.
- **The overlay keeps validity exactly when no `activeWork` item becomes a misfit**, that is, an open
  status other than active or planned without an active lifecycle
  (`OverlayValidity.OverlayPreservesValidity`). A change to candidate is one such case.
- **The sort is topological exactly when the graph is acyclic** (`DependencySort.TopologicalIffAcyclic`).
- **`reorderItems` keeps the last item of an id, not the first.** `dedupeItems` keeps the first, as its
  comment says (`DraftItems.DedupeKeepsFirst`), but reordering goes through a map in which later items
  replace earlier ones, so an id that is added with two origins and listed in `itemOrder` gets the last
  (`DraftItems.AddedOrigin`, `DraftItems.LaterOriginKept`). This concerns the store function's own
  inputs: the update action adds distinct ids with one origin, and those are stored as given
  (`DraftItems.AddedItemIsStored`).
- **A split with no item ids creates an empty unit**, although its comment says both sides keep at
  least one item (`DraftUnitResults.SplitStores`). The action's schema asks for at least one id, and
  then both units are non-empty. A merge of no units goes through when title, intent and profile are
  all given (`DraftPlanUnits.MergeSucceedsIff`).
- **A line of two to six bare hashes ends the edited region but not the parser's section.** Replacing
  or appending gives the parser the new text if and only if no such line comes before the next heading
  (`SectionEdits.EditedSection`, `PatchLosses.BareHashesStay`) and, where that holds, if and only if no
  line of the new text is a heading (`SectionAdds.EditedSectionIff`).
- **Append-only Evidence can still lose lines.** Operations that pass validation can remove a line of
  evidence when it holds U+2028 or U+2029 (`PatchLosses.TerminatorLosesEvidence`), when the section's
  text begins with an indented heading line, which trimming turns into a heading
  (`PatchLosses.IndentedHeadingLosesEvidence`), and when a line of bare hashes comes before it. The exact
  condition on the body is `SectionModes.BodySafe`, one pass over its lines: no titled heading holds one
  of the two terminators; no Evidence line loses ink to one or becomes a heading by it; and in the first
  Evidence section with its title, the first inked line does not look like a heading once trimmed, and
  no line ends the edited region before the next heading. A safe body loses no heading and no inked
  Evidence line to any sequence of validated operations, with whatever contents
  (`PatchSafety.PatchKeepsEvidence`), and any other body loses one to some sequence
  (`PatchExactness.NeverLosesIffSafe`).

## Model

| member | source | states |
|---|---|---|
| GreedyPacking.PickFits | eforge/extensions/eforge-plan/backlog-curation-packets.ts:152-161 | First-fit never goes over the room it is given. |
| GreedyPacking.PickIsLexGreatest | eforge/extensions/eforge-plan/backlog-curation-packets.ts:152-180 | Of all selections within the room, first-fit is the lexicographically greatest in priority order: nothing of lower priority is kept at the cost of a higher one that fitted. |
| GreedyPacking.PickPrefix | eforge/extensions/eforge-plan/backlog-curation-packets.ts:152-161 | With sizes that never shrink, first-fit keeps a prefix. |
| GreedyPacking.PrefixLengthMonotone | eforge/extensions/eforge-plan/backlog-curation-packets.ts:152-161 | More room never keeps a shorter prefix. |
| NameChunks.ChunkIsExact | eforge/extensions/eforge-plan/backlog-curation-packets.ts:286-304 | Chunks concatenate to the input, each message is at most 800 characters, there are at most the available number, and chunking gives up exactly when no order-preserving partition into that many such messages exists. |
| NameChunks.GreedyIsOptimal | eforge/extensions/eforge-plan/backlog-curation-packets.ts:286-304 | No partition into messages that fit uses fewer messages. |
| NameChunks.SuffixNeedsNoMore | eforge/extensions/eforge-plan/backlog-curation-packets.ts:286-304 | Naming a suffix of the omissions never needs more messages. |
| NameChunks.ChunkNames | eforge/extensions/eforge-plan/backlog-curation-packets.ts:286-304 | The chunk-filling loop computes the chunking of the theorems above. |
| ReducerReport.EntriesAreRanked | eforge/extensions/eforge-plan/backlog-curation-packets.ts:163-189 | Of two outcomes in different classes the one in the earlier class comes first, and within a class they keep their order. The classes, in turn: protected; change; needs input or needs product input; partial, still needed or stale; with signals; other findings; invalid or failed; oversized; cancelled. |
| ReducerReport.RetainedAreRanked | eforge/extensions/eforge-plan/backlog-curation-packets.ts:64-84 | What comes back is the input as given when it fits, or else compacted outcomes in the order of those classes, all of them when that fits. |
| ReducerReport.ContextIsCut | eforge/extensions/eforge-plan/backlog-curation-packets.ts:90-123 | The context is cut step by step: each step takes one of the arrays with the most bytes, the first of them, down to half its length rounded down, as long as the reducer is too large and an array is left. |
| ReducerReport.DiagnosticsSay | eforge/extensions/eforge-plan/backlog-curation-packets.ts:64-150 | The diagnostics of a pruned reducer, word for word: the bytes measured, that the context was cut, how many outcomes there were and how many are retained, and the omitted names in their messages. |
| ReducerReport.UnprunedSays | eforge/extensions/eforge-plan/backlog-curation-packets.ts:64-84 | Without pruning the diagnostics are the first two of these, or none. |
| ReducerReport.DecimalReads | eforge/extensions/eforge-plan/backlog-curation-packets.ts:77-149 | The digits in the messages read as the numbers they stand for. |
| ReducerReport.NamesFitIff | eforge/extensions/eforge-plan/backlog-curation-packets.ts:268-304 | Omissions can be named exactly when their names, in order, fit into as many messages of at most 800 characters as there are slots left. |
| ReducerReport.AttemptFailsIff | eforge/extensions/eforge-plan/backlog-curation-packets.ts:134-145 | An attempt throws exactly when its names do not fit so, or leave no room even for a reducer without outcomes. |
| ReducerReport.BuildFailsIff | eforge/extensions/eforge-plan/backlog-curation-packets.ts:64-150 | The whole function throws exactly when the reducer has to be pruned and one of its attempts fails before the loop is left. |
| ReducerJson.ReducerIsRead | eforge/extensions/eforge-plan/backlog-curation-packets.ts:67-84 | The text that is measured is read, by a reader of the grammar of RFC 8259, as one object: the members of the head, the global context, the outcomes and the diagnostics, in this order. |
| ReducerJson.ContextIsRead | eforge/extensions/eforge-plan/backlog-curation-packets.ts:46-62 | The context's text is read as an object with its fixed members, the six arrays under their keys, and the redraft summary if there is one. |
| ReducerJson.DiagnosticIsRead | eforge/extensions/eforge-plan/backlog-curation-packets.ts:92-93 | A diagnostic's text is read as its code, severity, message and, if it has one, path. |
| Utf8.Utf8LengthIsEncoded | eforge/extensions/eforge-plan/backlog-curation-packets.ts:384-386 | The size of a text is the number of bytes of its UTF-8 encoding (section 3 of RFC 3629), from which the text is decoded again. |
| ReducerSelection.ShrinkKeepsFronts | eforge/extensions/eforge-plan/backlog-curation-packets.ts:90-123 | Halving the largest array keeps a front part of every array, touches nothing that fits, drops the redraft summary only when every array is empty, and ends with a reducer that fits or with nothing left to cut. |
| ReducerByteCap.BuildIsWithinCap | eforge/extensions/eforge-plan/backlog-curation-packets.ts:64-84 | Every normal return is within the byte cap, also after the pending count is rewritten. |
| ReducerByteCap.FittedIsWithinCap | eforge/extensions/eforge-plan/backlog-curation-packets.ts:125-161 | Every attempt that fits is within the cap with the note still pending. |
| ReducerByteCap.DroppedNoteBytes | eforge/extensions/eforge-plan/backlog-curation-packets.ts:132-149 | The note with a number of up to seven digits is no longer than with the word pending. |
| ReducerByteCap.PruneDropsSomething | eforge/extensions/eforge-plan/backlog-curation-packets.ts:125-150 | A pruned reducer retains strictly fewer outcomes than were observed, so the note stays. |
| ReducerLoop.BuildDropsSomething | eforge/extensions/eforge-plan/backlog-curation-packets.ts:64-84 | The same for the whole function. |
| ReducerLoop.ExactAccount | eforge/extensions/eforge-plan/backlog-curation-packets.ts:125-150 | The protected findings are either retained or named, once and in priority order, if and only if the loop left through equal sets. |
| ReducerLoop.LoopConverges | eforge/extensions/eforge-plan/backlog-curation-packets.ts:125-161 | When the compacted protected sizes never shrink along the priority order, behind a front that fits even if all the others are named, the loop leaves through equal sets within its n + 2 attempts (or reports that the omissions cannot be named), and omits a tail behind the front. |
| ReducerLoop.TailsStabilise | eforge/extensions/eforge-plan/backlog-curation-packets.ts:134-145 | The omitted tail only grows, so p + 1 attempts are enough from position p. |
| ReducerLoop.PositionMonotone | eforge/extensions/eforge-plan/backlog-curation-packets.ts:264-309 | Naming fewer findings never keeps fewer of them. |
| ReducerLoop.BuildAccountsIff | eforge/extensions/eforge-plan/backlog-curation-packets.ts:64-150 | For distinct item ids the whole function names every protected finding it drops if and only if one of the first n + 2 attempts omits just what it names. |
| ReducerLoop.BuildLosesNothingSilently | eforge/extensions/eforge-plan/backlog-curation-packets.ts:64-84 | With sizes that never shrink and distinct item ids the whole function names every protected finding it drops. |
| ReducerLoop.DiagnosticsWithinLimits | eforge/extensions/eforge-plan/backlog-curation-packets.ts:268-304 | At most 40 diagnostics, and no omission message over 800 characters. |
| ReducerOscillation.SeesawNeverSettles | eforge/extensions/eforge-plan/backlog-curation-packets.ts:134-145 | Two findings that trade places make the loop alternate until its attempts run out. |
| ReducerOscillation.AlternatingLosesSilently | eforge/extensions/eforge-plan/backlog-curation-packets.ts:64-161 | Whenever the loop alternates between two findings behind an even number that stay, the function returns normally, names the one it kept, and names nowhere the one it dropped. |
| ReducerSilentLoss.SilentLoss | eforge/extensions/eforge-plan/backlog-curation-packets.ts:64-161 | For every head and context of ordinary size there are fourteen protected findings within 12,000 bytes each, none longer compacted than as given, of which the thirteenth is lost in this way. |
| ReducerBuilder.Builder.ShrinkGlobalContext | eforge/extensions/eforge-plan/backlog-curation-packets.ts:90-123 | The splicing loop leaves the shrunk context and nothing else changed. |
| ReducerBuilder.Builder.FitPrioritizedOutcomes | eforge/extensions/eforge-plan/backlog-curation-packets.ts:152-161 | Pushing and popping outcomes retains exactly the first-fit selection and returns its indexes. |
| ReducerBuilder.Builder.ResetTerminalOmissionDiagnostics | eforge/extensions/eforge-plan/backlog-curation-packets.ts:317-321 | The backwards splice removes exactly the omission diagnostics. |
| ReducerBuilder.Builder.SelectOutcomesUnderCap | eforge/extensions/eforge-plan/backlog-curation-packets.ts:125-150 | The attempt loop, in place, ends in the state that the pruning function gives, or fails as it does. |
| ReducerBuilder.BuildReducerInput | eforge/extensions/eforge-plan/backlog-curation-packets.ts:64-84 | The whole function in place returns what the functional form returns, on all three paths and when it throws. |
| OverlayResults.OverlaidLanes | eforge/extensions/eforge-plan/backlog-curation-recommendation-overlay.ts:89-221 | Which ids each lane holds after the overlay. |
| OverlayContents.OverlaidModel | eforge/extensions/eforge-plan/backlog-curation-recommendation-overlay.ts:89-221 | The five lanes after the overlay, given by statuses and catalogs: which references each lane keeps, in order and without repetitions; which are moved in, with the rationale of the group or chain they were in; for every group that stays, its epics without the known ones the draft closes; for every chain that stays, its blockers without those the draft closes and those in no catalog. |
| OverlayContents.RemovedAre | eforge/extensions/eforge-plan/backlog-curation-recommendation-overlay.ts:96-221 | An item is reported as removed exactly when the draft closes it and a lane or a blockedBy list has it; an epic exactly when it is known, the draft closes it and a group has it. |
| OverlayContents.RepositionedAre | eforge/extensions/eforge-plan/backlog-curation-recommendation-overlay.ts:103-215 | Exactly the references that the overlay takes to another lane are reported as moved, from the lane that held them. |
| OverlayContents.NoteIs | eforge/extensions/eforge-plan/backlog-curation-recommendation-overlay.ts:313-321 | A note is added exactly when something was removed or moved, and names the removed items, the removed epics and the moved items. |
| OverlayResults.LanesConserved | eforge/extensions/eforge-plan/backlog-curation-recommendation-overlay.ts:89-221 | Exactly the ids closed by the draft leave the lanes, and none come in. |
| OverlayResults.RemovalsAreReported | eforge/extensions/eforge-plan/backlog-curation-recommendation-overlay.ts:96-221 | The removed ids reported are exactly the draft-closed ids of the lanes and blockedBy lists; what leaves a lane is reported, and what is reported is nowhere afterwards. |
| OverlayResults.NoActiveOutsideActiveWork | eforge/extensions/eforge-plan/backlog-curation-recommendation-overlay.ts:103-227 | No prospectively active and no draft-closed item is left outside activeWork. |
| OverlayResults.OverlayTwice | eforge/extensions/eforge-plan/backlog-curation-recommendation-overlay.ts:89-221 | Overlaying the result again removes and moves nothing and returns the same model. |
| OverlayValidity.NoIssuesIffValid | eforge/extensions/eforge-plan/backlog-curation-recommendation-overlay.ts:229-281 | The validator reports nothing exactly when every reference is known, open and in a lane it fits. |
| OverlayIssues.IssuesAreFaults | eforge/extensions/eforge-plan/backlog-curation-recommendation-overlay.ts:229-289 | An issue is reported, with its place, its id and its reason, if and only if that reference is unknown, closed or in a lane it does not fit, in this order of precedence. |
| OverlayIssues.IssuesInOrder | eforge/extensions/eforge-plan/backlog-curation-recommendation-overlay.ts:229-260 | The issues come in the order of the places of the model, lane by lane, at most one for each. |
| OverlayValidity.ProjectionEnvIs | eforge/extensions/eforge-plan/backlog-curation-recommendation-overlay.ts:45-73 | Every record is projected with the last status that the draft gives its id, from the last record with the id. |
| OverlayValidity.OverlayPreservesValidity | eforge/extensions/eforge-plan/backlog-curation-recommendation-overlay.ts:45-281 | A model without issues against the current catalogs overlays to one without issues against the prospective ones if and only if the draft makes no activeWork item a misfit. |
| OverlayValidity.WrongLaneOnlyInActiveWork | eforge/extensions/eforge-plan/backlog-curation-recommendation-overlay.ts:128-272 | Afterwards, only activeWork references that the overlay left in place can be in a wrong lane. |
| OverlayValidity.ProjectionIsValid | eforge/extensions/eforge-plan/backlog-curation-recommendation-overlay.ts:45-73 | The same for the projection built from records and a draft. |
| OverlayRun.Overlayer.FilterItemRefs | eforge/extensions/eforge-plan/backlog-curation-recommendation-overlay.ts:128-159 | The filtering loop and its effect on the shared sets, maps and moves. |
| OverlayRun.Overlayer.PlaceGroup | eforge/extensions/eforge-plan/backlog-curation-recommendation-overlay.ts:161-191 | One group, with its epics and its effect on the shared state. |
| OverlayRun.Overlayer.OverlayRecommendations | eforge/extensions/eforge-plan/backlog-curation-recommendation-overlay.ts:89-126 | The mutating overlay returns the model and report of the theorems above. |
| OverlayRun.CollectIssues | eforge/extensions/eforge-plan/backlog-curation-recommendation-overlay.ts:229-281 | The pushing validator lists exactly the specified issues, in order. |
| DependencySort.EmitsTheLastItems | eforge/extensions/eforge-plan/backlog-domain.ts:349-366 | The emitted items are, for each id, the last input item with it; no two have the same id. |
| DependencyForest.SortIsPostOrder | eforge/extensions/eforge-plan/backlog-domain.ts:348-367 | The ids come out in the post-order of the forest that is entered from all ids in ascending order, following each depends_on list from left to right and passing over what is unknown or was entered before. |
| DependencyForest.IndependentItemsAscend | eforge/extensions/eforge-plan/backlog-domain.ts:348-367 | When no dependency is among the items, their ids come out in ascending order. |
| DependencySort.DependencyFirst | eforge/extensions/eforge-plan/backlog-domain.ts:348-367 | A present dependency comes first unless it leads back to its dependent. |
| DependencySort.TopologicalIffAcyclic | eforge/extensions/eforge-plan/backlog-domain.ts:348-367 | The result is a topological order if and only if the present dependencies have no cycle. |
| DependencySort.SortIgnoresInputOrder | eforge/extensions/eforge-plan/backlog-domain.ts:348-367 | With distinct ids the result does not depend on the input order. |
| DependencySort.Sorter.VisitId | eforge/extensions/eforge-plan/backlog-domain.ts:354-364 | The recursive visit on the shared sets takes the state to the specified one. |
| DependencySort.SortItemsDependencyBeforeDependent | eforge/extensions/eforge-plan/backlog-domain.ts:348-367 | The imperative sort returns the result of the theorems above. |
| JsonProjection.UnfoldingIsUnique | eforge/extensions/eforge-plan/json-safe.ts:36-71 | A value of an object graph unfolds to at most one tree. |
| JsonProjection.ProjectIffUnfolds | eforge/extensions/eforge-plan/json-safe.ts:36-71 | The projection returns a tree if and only if the graph unfolds to it, with undefined dropped. |
| JsonProjection.RejectsExactly | eforge/extensions/eforge-plan/json-safe.ts:36-71 | It fails exactly when a cycle or a value that is not JSON is reachable, and reports a cycle only when there is one; shared acyclic nodes are accepted. |
| JsonFailures.FailsAtFirstFault | eforge/extensions/eforge-plan/json-safe.ts:36-77 | A failure names the first thing that is wrong, in the order of entries and members, by its kind and by the path to it; everything before it unfolds. |
| JsonProjection.ProjectAgain | eforge/extensions/eforge-plan/json-safe.ts:27-71 | Any graph that unfolds to a projected tree projects to that tree. |
| JsonProjection.TreeHasHeap | eforge/extensions/eforge-plan/json-safe.ts:27-71 | Every tree is the unfolding of some graph. |
| JsonProjection.ProjectionProjectsToItself | eforge/extensions/eforge-plan/json-safe.ts:27-71 | So the result of a projection, taken as a value again, projects to itself. |
| JsonProjection.Projector.ProjectValue | eforge/extensions/eforge-plan/json-safe.ts:36-71 | The recursion that adds to and deletes from the path set returns the projection and restores the set. |
| StringOrder.SortAscends | eforge/extensions/eforge-plan/markdown-store-support.ts:72-72 | A sorted list is a permutation in which every string comes after those that are prefixes of it or have the smaller character where they first differ from it. |
| JsonReader.CanonicalIsRead | eforge/extensions/eforge-plan/markdown-store-support.ts:67-75 | A reader of the grammar of RFC 8259 takes a printed text, whatever follows, for the value with the keys of every object in ascending order, and leaves what follows. |
| JsonReader.EscapeIsShortest | eforge/extensions/eforge-plan/markdown-store-support.ts:72-74 | A character is printed in the shortest form that a reader takes for it, with lower-case digits (section 7 of RFC 8259). |
| JsonReader.NumberTextIffRead | eforge/extensions/eforge-plan/markdown-store-support.ts:74-74 | The numbers of the model are those that the reader reads. |
| CanonicalJson.Unambiguous | eforge/extensions/eforge-plan/markdown-store-support.ts:67-75 | A printed value ends where it must (sections 4, 5 and 7 of RFC 8259): texts with anything behind them agree only when values and rests do. |
| CanonicalJson.CanonicalIffSame | eforge/extensions/eforge-plan/markdown-store-support.ts:67-75 | Two JSON values print the same if and only if they are equal up to the order of object keys. |
| AuditCache.HitsMatch | eforge/extensions/eforge-plan/backlog-curation-item-audit-cache.ts:82-105 | Whatever the files hold and however the hash collides, the key parts read off a hit's finding are the normalized parts of the request, all six. |
| AuditCache.CanonicalParts | eforge/extensions/eforge-plan/backlog-curation-item-audit-cache.ts:126-156 | Key texts agree exactly when the key parts do. |
| AuditCache.WrittenFileAnswersItsKey | eforge/extensions/eforge-plan/backlog-curation-item-audit-cache.ts:82-120 | A written file is a hit for its own key and a key mismatch for a colliding one. |
| AuditCache.LastWriteDecides | eforge/extensions/eforge-plan/backlog-curation-item-audit-cache.ts:82-120 | In any run of reads, writes and other processes' changes, a read answers by the last write to its path: that finding for its own key, a key mismatch for a colliding key. |
| AuditCache.TouchesIff | eforge/extensions/eforge-plan/backlog-curation-item-audit-cache.ts:82-120 | The events that such a run excludes after the write are those that can change the file. |
| AuditCache.DisturbanceIsFree | eforge/extensions/eforge-plan/backlog-curation-item-audit-cache.ts:82-105 | Between reads and writes, another process may leave any one file in any state or take it away. |
| AuditCacheAnswers.LookupAnswers | eforge/extensions/eforge-plan/backlog-curation-item-audit-cache.ts:82-105 | Every answer of a read with its exact condition, in order: parts missing or empty; no file; text that is not JSON; a sidecar that is not of this key and its parts; a finding over 12,000 bytes; a finding that is not of the schema; otherwise that finding. |
| AuditCacheAnswers.WriteAnswers | eforge/extensions/eforge-plan/backlog-curation-item-audit-cache.ts:107-156 | Every answer of a write with its exact condition, and the five members of the file it stores. |
| AuditCacheAnswers.StringifyIsRead | eforge/extensions/eforge-plan/backlog-curation-item-audit-cache.ts:122-124 | The text whose size is limited is read back as the finding itself, members in their order. |
| AuditCache.Cache.Read | eforge/extensions/eforge-plan/backlog-curation-item-audit-cache.ts:82-105 | A hit's finding carries the request's six key parts, fits the byte cap and passes the schema; a key dimension is missing exactly when the request does not normalize, and nothing is found only when the path has no file. |
| AuditCache.Cache.Write | eforge/extensions/eforge-plan/backlog-curation-item-audit-cache.ts:107-120 | After a write the request reads back as a hit with that finding, a refused write changes no file, and the answers for every other path stay as they were. |
| PromiseChain.RunsAreExclusiveAndOrdered | eforge/extensions/eforge-plan/draft-plan-unit-store.ts:22-31 | In every run calls for one key run one at a time and in call order. |
| PromiseChain.EntryGoneIffAllOver | eforge/extensions/eforge-plan/draft-plan-unit-store.ts:22-31 | The cleanup in finally removes a key's entry exactly when every call for the key is over. |
| PromiseChain.SomeTaskCanMove | eforge/extensions/eforge-plan/draft-plan-unit-store.ts:22-31 | While a call is unfinished some call for its key can move: a failure blocks nothing. |
| PromiseChain.EveryCallCanEnd | eforge/extensions/eforge-plan/draft-plan-unit-store.ts:22-31 | Whatever has happened, if no more calls come, all of them can come to their end in as many steps as they have phases left. |
| PromiseChain.ActiveAlone | eforge/extensions/eforge-plan/plan-revision-actions.ts:278-288 | While a call is between start and cleanup, every earlier one for its key is over and every later one waits. |
| StoreLock.Serializable | eforge/extensions/eforge-plan/draft-plan-unit-store.ts:22-31 | In every interleaving of reads, writes and failures, each index is the successful operations applied in call order; an operation is rejected exactly as it would be on that serial index. |
| StoreLock.RunningSeesReplay | eforge/extensions/eforge-plan/draft-plan-unit-store.ts:87-106 | What a running call reads is the result of the calls before it. |
| StoreLock.CallRunsItsTurn | eforge/extensions/eforge-plan/draft-plan-unit-store.ts:87-106 | A waiting call whose predecessors are over can read the index and store what its operation makes of it, or is rejected and stores nothing when the operation throws on it; other files and calls are left alone. |
| StoreLock.CallIsTaken | eforge/extensions/eforge-plan/draft-plan-unit-store.ts:22-31 | A call is taken at any time, behind those there are. |
| DraftItems.DedupeKeepsFirst | eforge/extensions/eforge-plan/draft-plan-unit-store.ts:284-294 | Deduplication keeps the set of ids, each once, with its first item. |
| DraftItems.WhichOccurrence | eforge/extensions/eforge-plan/draft-plan-unit-store.ts:284-305 | After reordering and deduplication a listed id has its last item, any other its first. |
| DraftItems.UpdatedItems | eforge/extensions/eforge-plan/draft-plan-unit-store.ts:118-143 | An update drops exactly the removed ids, brings in exactly the added ones, leaves no duplicates, and puts the listed ids first in list order. |
| DraftItems.UpdateKeepsExistingItems | eforge/extensions/eforge-plan/draft-plan-unit-store.ts:118-143 | An item the unit already had keeps its origin. |
| DraftItems.AddedOrigin | eforge/extensions/eforge-plan/draft-plan-unit-store.ts:118-143 | An added id keeps its first origin if and only if it is not listed in itemOrder or its first and last occurrences agree. |
| DraftItems.AddedItemIsStored | eforge/extensions/eforge-plan/draft-plan-unit-store.ts:118-143 | An added item whose id comes with one origin only, as the update action adds it, is stored as given in whatever order. |
| DraftItems.LaterOriginKept | eforge/extensions/eforge-plan/draft-plan-unit-store.ts:284-305 | Through the map of reorderItems an id added with two origins gets the later one when it is listed, and the first when nothing is. |
| DraftItemResults.UpdateComesTo | eforge/extensions/eforge-plan/draft-plan-unit-store.ts:118-143 | The items of an updated unit: those not removed, then the added ones with new ids; of these the listed ones first, in order of first listing, each the last with its id, and then the others, each the first with its id. |
| DraftItemResults.DedupeIsFirsts | eforge/extensions/eforge-plan/draft-plan-unit-store.ts:284-294 | Deduplication leaves every item unless one before it has its id. |
| DraftItems.DedupeItems | eforge/extensions/eforge-plan/draft-plan-unit-store.ts:284-294 | The loop over a seen set computes the deduplication above. |
| DraftItems.ReorderItems | eforge/extensions/eforge-plan/draft-plan-unit-store.ts:296-305 | The loops over a shrinking map compute the reordering above. |
| DraftUnitResults.StoresNewestFirst | eforge/extensions/eforge-plan/draft-plan-unit-store.ts:267-282 | Whatever writes the index stores it with the larger updatedAt first and, at equal times, the smaller id first. |
| DraftUnitResults.CreateStores | eforge/extensions/eforge-plan/draft-plan-unit-store.ts:87-106 | A creation adds one draft unit with every field as given, times now, and each item id once, as its first item has it. |
| DraftUnitResults.DeleteStores | eforge/extensions/eforge-plan/draft-plan-unit-store.ts:149-157 | A deletion takes out the units with the id and nothing else; without any it writes nothing. |
| DraftUnitResults.MutatesIff | eforge/extensions/eforge-plan/draft-plan-unit-store.ts:255-265 | An update or promotion goes through exactly for a unit that exists. |
| DraftUnitResults.UpdateStores | eforge/extensions/eforge-plan/draft-plan-unit-store.ts:118-143 | An update puts one unit in the place of another: title, intent and profile as patched, an empty profile clearing it, the items as the patch asks, updatedAt now, everything else as it was. |
| DraftUnitResults.PromoteStores | eforge/extensions/eforge-plan/draft-plan-unit-store.ts:145-147 | A promotion sets status, session and times of one unit and changes nothing else. |
| DraftUnitResults.MergeStores | eforge/extensions/eforge-plan/draft-plan-unit-store.ts:169-206 | A merge takes out the listed units and stores one draft unit of the user's, without source and session, times now: title, intent and profile are the override or else the first listed unit's, the items those of the listed units in turn, each id once, as its first item has it. |
| DraftUnitResults.MergeHoldsAll | eforge/extensions/eforge-plan/draft-plan-unit-store.ts:169-206 | A merge takes no item out of the index and brings none in. |
| DraftUnitResults.SplitStores | eforge/extensions/eforge-plan/draft-plan-unit-store.ts:218-253 | A split leaves the unit its unlisted items, at least one, and stores one draft unit of the user's with the listed ones, title, intent and profile as given and times now; it is empty exactly when nothing is listed. |
| DraftUnitResults.SplitStoresIff | eforge/extensions/eforge-plan/draft-plan-unit-store.ts:224-253 | A split goes through exactly for a draft unit that holds every listed item and some other one. |
| DraftUnitResults.SplitHoldsAll | eforge/extensions/eforge-plan/draft-plan-unit-store.ts:218-253 | A split takes no item out of the index and brings none in. |
| DraftPlanUnits.ApplyKeepsValid | eforge/extensions/eforge-plan/draft-plan-unit-store.ts:87-265 | With a fresh id every operation keeps unit ids unique and items free of duplicates, and adds no other unit id. |
| DraftPlanUnits.MergeSucceedsIff | eforge/extensions/eforge-plan/draft-plan-unit-store.ts:176-206 | A merge of a stored index goes through exactly when every listed id is that of a draft unit in it, and an empty list comes with title, intent and profile. |
| DraftUnitRuns.RunsKeepIndexesValid | eforge/extensions/eforge-plan/draft-plan-unit-store.ts:22-265 | In every interleaving of store calls with fresh ids, every index stays valid and equals the serial result. |
| RevisionTurns.OneActiveTurn | eforge/extensions/eforge-plan/plan-revision-actions.ts:278-327 | In every run of starts, retries, cancels and daemon steps, a session has at most one recorded turn whose daemon task is queued or running. |
| RevisionTurns.NoTaskIsForgotten | eforge/extensions/eforge-plan/plan-revision-actions.ts:290-315 | Every daemon task started is recorded, or its cancellation was requested, or its call is still running. |
| RevisionTurns.RetriesFollowFinishedTurns | eforge/extensions/eforge-plan/plan-revision-actions.ts:192-219 | A retry or redraft descends from an earlier recorded turn of its session that is over for good. |
| RevisionProgress.IdleSessionStarts | eforge/extensions/eforge-plan/plan-revision-actions.ts:290-327 | A call that is about to start can, by its own steps, have the daemon queue its task whenever no recorded turn of its session is queued or running. |
| RevisionProgress.RetryStarts | eforge/extensions/eforge-plan/plan-revision-actions.ts:192-219 | A retry does so too when its parent failed or was cancelled, a redraft when it completed asking for input. |
| RevisionProgress.StartedTurnIsRecorded | eforge/extensions/eforge-plan/plan-revision-actions.ts:290-315 | One more step then records the turn for its session and ends the call. |
| RevisionProgress.LiveTurnBlocks | eforge/extensions/eforge-plan/plan-revision-actions.ts:317-327 | In no interleaving does a call start while one recorded turn of its session stays queued or running. |
| RevisionProgress.StartsOnlyWhenAllowed | eforge/extensions/eforge-plan/plan-revision-actions.ts:192-344 | Whenever a call starts a turn, no recorded turn of its session is queued or running, and a retry has a parent in a status that allows it. |
| RevisionProgress.FreshCallRuns | eforge/extensions/eforge-plan/plan-revision-actions.ts:278-288 | A call for a session without other calls under way runs at once. |
| RevisionProgress.CancelIsRequested | eforge/extensions/eforge-plan/plan-revision-actions.ts:222-234 | A recorded turn can be cancelled at any time, which touches no other turn. |
| RevisionProgress.DaemonIsFree | eforge/extensions/eforge-plan/plan-revision-actions.ts:317-327 | The daemon may move a queued or running task to any later status at any time, between any two steps of the calls. |
| WorkerPool.Normalized | eforge/extensions/eforge-plan/backlog-curation-source-first-audit.ts:64-66 | A positive integer gives a concurrency of itself, at most 8, anything else 4. |
| WorkerPool.PoolIsBounded | eforge/extensions/eforge-plan/backlog-curation-source-first-audit.ts:68-81 | In every interleaving min(concurrency, n) runners claim indexes once each and in order, no two hold the same one, and every result is the answer for its own index. |
| WorkerPool.CompletedPoolHasEveryAnswer | eforge/extensions/eforge-plan/backlog-curation-source-first-audit.ts:68-81 | When every runner has returned, every item has its own answer. |
| WorkerPool.QuietRunCompletes | eforge/extensions/eforge-plan/backlog-curation-source-first-audit.ts:68-81 | However the workers interleave, without an abort or a failure the pool only comes to rest with all its runners returned and every item answered. |
| WorkerPool.ThrowsExactlyThen | eforge/extensions/eforge-plan/backlog-curation-source-first-audit.ts:68-81 | A runner throws while its worker is at work or between the loop test and the claim of an index, at no other time, and changes nothing else by it. |
| WorkerPool.PoolTerminates | eforge/extensions/eforge-plan/backlog-curation-source-first-audit.ts:68-81 | No run takes more than 2n + min(concurrency, n) steps, and a runner that is not done can step. |
| SectionParser.ExtractMarkdownSections | eforge/extensions/eforge-plan/backlog-domain.ts:149-169 | The parsing loop returns the sections that the theorems speak of. |
| SectionParser.SectionIs | eforge/extensions/eforge-plan/backlog-domain.ts:149-169 | A section holds the trimmed lines between the last heading with its title and the next heading. |
| SectionParser.NoSection | eforge/extensions/eforge-plan/backlog-domain.ts:149-169 | Without a heading of a title there is no section. |
| SectionParser.NoUntitledSection | eforge/extensions/eforge-plan/backlog-domain.ts:150-169 | Text before the first heading, or under one without a title, is no section. |
| SectionParser.OtherSectionsStay | eforge/extensions/eforge-plan/backlog-domain.ts:149-169 | Exchanging heading-free lines of one section changes no other. |
| SectionGrammar.HeadingIffMatch | eforge/extensions/eforge-plan/backlog-domain.ts:154-160 | A line is a heading exactly when the parser's regular expression matches it, and its title is the trimmed second group of every match. |
| SectionGrammar.StartIffMatch | eforge/extensions/eforge-plan/backlog-curation-apply-utils.ts:21-21 | An edit starts at a line that its regular expression, built from the heading, matches. |
| SectionGrammar.EndIffMatch | eforge/extensions/eforge-plan/backlog-curation-apply-utils.ts:24-26 | It ends before a line that, line feed included, the shorter expression matches. |
| SectionGrammar.KeptIsTail | eforge/extensions/eforge-plan/backlog-curation-apply-utils.ts:34-37 | What an edit keeps of a line is what follows its last U+2028 or U+2029. |
| SectionGrammar.EvidenceIff | eforge/extensions/eforge-plan/backlog-curation-apply.ts:592-594 | A heading is that of Evidence when, trimmed, it spells the word in whatever mixture of cases. |
| SectionGrammar.ValidIff | eforge/extensions/eforge-plan/backlog-curation-apply.ts:446-450 | An operation passes validation exactly when its trimmed heading is a single non-empty line that starts with no hash, and it does not replace Evidence. |
| SectionEdits.ApplySectionOperation | eforge/extensions/eforge-plan/backlog-curation-apply-utils.ts:18-32 | The searching loops return the edited text. |
| SectionEdits.ApplySectionOperations | eforge/extensions/eforge-plan/backlog-curation-apply-utils.ts:2-6 | Operations are applied in order, each to the result of the one before. |
| SectionEdits.EditedLines | eforge/extensions/eforge-plan/backlog-curation-apply-utils.ts:18-37 | An edit puts its new text, with blank lines around it, where the region was; every other line stays. |
| SectionEdits.KeptIff | eforge/extensions/eforge-plan/backlog-curation-apply-utils.ts:34-37 | The edit keeps a line exactly when it holds neither U+2028 nor U+2029. |
| SectionEdits.EditedSection | eforge/extensions/eforge-plan/backlog-curation-apply-utils.ts:18-32 | With a distinct title and heading-free new text the parser returns that text if and only if the edited region ends where the section does. |
| SectionEdits.EditKeepsOtherSections | eforge/extensions/eforge-plan/backlog-curation-apply-utils.ts:18-32 | Such an edit leaves every other section as it was, wherever the region ends. |
| SectionEdits.ReplacedSection | eforge/extensions/eforge-plan/backlog-curation-apply-utils.ts:18-32 | After a replacement the parser returns the trimmed content, under the same exact condition. |
| SectionEdits.AppendedSection | eforge/extensions/eforge-plan/backlog-curation-apply-utils.ts:18-32 | After an append it returns the old text and the content with a blank line between. |
| SectionAdds.EditedSectionIff | eforge/extensions/eforge-plan/backlog-curation-apply-utils.ts:18-32 | Where the region ends with the section, the parser returns the new text if and only if no line of it is a heading. |
| SectionAdds.EditUpdatesSections | eforge/extensions/eforge-plan/backlog-curation-apply-utils.ts:18-32 | The parsed sections after an edit are those before it, updated at one title. |
| SectionAdds.NewSectionLines | eforge/extensions/eforge-plan/backlog-curation-apply-utils.ts:39-41 | The lines of a body with a section added: the body trimmed at its end, a blank line, the heading behind two hashes, a blank line, the trimmed content, and an empty line. |
| SectionAdds.AddedSection | eforge/extensions/eforge-plan/backlog-curation-apply-utils.ts:39-41 | An operation on a heading that is not there adds its section and changes no other. |
| SectionModes.SafeLasts | eforge/extensions/eforge-plan/backlog-curation-apply-utils.ts:18-37 | In a safe body every titled heading is one that no cut changes, and every inked Evidence line is one that lasts. |
| SectionModes.CutKeepsLasting | eforge/extensions/eforge-plan/backlog-curation-apply-utils.ts:34-37 | Cutting every line at its last terminator keeps all lines that last. |
| SectionModes.TrimKeepsLasting | eforge/extensions/eforge-plan/backlog-curation-apply-utils.ts:28-30 | So does trimming the text of a section that is edited. |
| PatchSafety.EditsTheCut | eforge/extensions/eforge-plan/backlog-curation-apply-utils.ts:18-37 | An edit of a section that is there works on the cut lines of the whole body. |
| PatchSafety.OperationKeepsLasting | eforge/extensions/eforge-plan/backlog-curation-apply.ts:444-459 | A validated operation, on any body and with any content, loses no firm heading and no line that lasts. |
| PatchSafety.PatchKeepsEvidence | eforge/extensions/eforge-plan/backlog-curation-apply.ts:485-507 | No sequence of validated operations loses a titled heading or an inked Evidence line of a safe body, counted with multiplicity and with whatever contents. |
| PatchSafety.PatchWithEvidenceKeeps | eforge/extensions/eforge-plan/backlog-curation-apply.ts:485-507 | The same for the operations of a patch followed by its evidence entries. |
| EvidenceLoss.BrokenLoses | eforge/extensions/eforge-plan/backlog-curation-apply-utils.ts:18-32 | If a line of a first Evidence section ends the edited region early, or is its first inked line and looks like a heading, two validated appends to the section leave fewer lines of evidence. |
| PatchExactness.SafeIffUnbroken | eforge/extensions/eforge-plan/backlog-curation-apply-utils.ts:18-37 | A body without U+2028 and U+2029 is safe if and only if it has no such line. |
| PatchExactness.CutLoses | eforge/extensions/eforge-plan/backlog-curation-apply-utils.ts:34-37 | If cutting the lines changes an Evidence line, one validated append loses evidence. |
| PatchExactness.HeadingLost | eforge/extensions/eforge-plan/backlog-curation-apply-utils.ts:34-37 | If a titled heading holds a line terminator, two validated operations lose it. |
| PatchExactness.NeverLosesIffSafe | eforge/extensions/eforge-plan/backlog-curation-apply.ts:444-507 | All sequences of validated operations keep every titled heading and inked Evidence line of a body if and only if the body is safe. |
| PatchLosses.TerminatorLosesEvidence | eforge/extensions/eforge-plan/backlog-curation-apply-utils.ts:34-37 | A validated append after which the only Evidence line, which ended in U+2028 or U+2029, is no evidence any more. |
| PatchLosses.AppendMakesHeading | eforge/extensions/eforge-plan/backlog-curation-apply-utils.ts:28-30 | An append that turns an indented heading line into a heading. |
| PatchLosses.IndentedHeadingLosesEvidence | eforge/extensions/eforge-plan/backlog-curation-apply.ts:444-459 | Two validated operations that take a body from two lines of evidence to none. |
| PatchLosses.BareHashesStay | eforge/extensions/eforge-plan/backlog-curation-apply-utils.ts:18-32 | A body with a line of bare hashes, for which a replacement does not give the parser the new text. |

## Left out

- PatchExactness.NeverLosesIffSafe: that an unsafe body loses something is proved for bodies in which no line with U+2028 or U+2029 is a heading without a title or hides an Evidence heading behind the terminator; cutting such a line adds evidence, which could make up for what is lost. That a safe body loses nothing is proved for all bodies. The rule that a patch which changes Evidence also brings an evidence entry is not part of either, since the entries are appended by one more validated operation.
- Headings without a title are not counted among what must be kept: trimming the end of a body can remove the whitespace that makes one.
- SectionAdds.AddedSection: asks that no heading be without a title, because trimming the end of a body can turn an untitled heading into text of the section above it.
- ReducerSilentLoss.SilentLoss: its texts are runs of one letter of the stated sizes, since the function reads nothing but their sizes.
- ReducerLoop.BuildLosesNothingSilently: sufficient only; the exact condition, ReducerLoop.BuildAccountsIff, is on the attempts.
- RevisionTurns.OneActiveTurn: the daemon is assumed never to revive a finished or forgotten task; a task it revived could run beside a newer one.
- RevisionTurns.NoTaskIsForgotten: a start whose answer is lost after the daemon created its task is outside the model, as is a crash of the process between start and record.
- runExclusive, enqueueTurnExclusive, startTurn and runBoundedWorkerPool are steps on values, not methods of objects, because their steps interleave; the update of their maps and arrays in place is not captured beyond those steps.
- The compaction of an outcome's fields: its JSON text and its compacted JSON text are arbitrary strings; what the selection reads (disposition, verdict, signals) is kept, as the code keeps it.
- terminalKey is modelled by the original index, which alone makes it unique.
- Strings are sequences of characters; a JavaScript length that counts a surrogate pair as two is not modelled.
- Moves are kept in the order they are pushed (the final localeCompare sort is not modelled), removed ids as sets, and the overlay's note as the ids it mentions.
- localeCompare on draft unit ids, like the default order of strings, compares character by character; the default order of the language compares UTF-16 code units, which differs only between characters above U+FFFF and those from U+E000 to U+FFFF.
- JsonReader.CanonicalIsRead: the reader takes no insignificant white space and no surrogate escapes, neither of which is ever printed, and a number is a run of number characters, not checked further against section 6 of RFC 8259.
- RevisionProgress.CancelIsRequested: that the daemon honours a request to cancel is not part of the model.
- canonicalJson of undefined and of negative zero, and an agentProfile that is present but undefined.
- Reading a sidecar back gives the JSON value that was written, and parsing with the finding schema returns the value unchanged; the hash and the schema are arbitrary functions.
- Carriage returns in Markdown bodies: line ends are LF.
- The record of a revision turn is one step here; that its read and write cannot be split by another call is StoreLock.Serializable. An index file that cannot be parsed is read as empty by plan-revision-store and is not modelled.
- markPlanRevisionTurnApplied and the annotation operations: read-modify-write under the same lock, with nothing further to state.
- Promoted draft units are not frozen under updateDraftPlanUnit; nothing is claimed about that.
- filterRecommendationsForCurationDraftStatusOverlay: the overlay with catalogs derived from the model itself.
- Targets, preconditions, metadata and rechecks of curation patches: checks settled by reading one branch each.
- Files, directories, paths, UUIDs, clocks and messages of errors: parameters, fresh ids, or not modelled.
