# Verification of the tag updater

This project models the controller that follows a stream of release tags and writes the newest one
into a manifest on a shared git branch, watches how ArgoCD takes it, and rolls back what fails. It
proves properties of its three hard parts and of the places where they meet.

- **The manifest editor** (`Nodes`, `Overlay`, `Scan`, `Insertion`, `Splice`, `Layout`, `Rewrite`,
  `Documents`, `Manifest`, `Editor`). A tree writer records token edits and insertions, and a byte
  splicer applies them to the original text. A manifest is a layout (`Cst`): its text is `Lines`,
  its decoded form with source positions is `Place`. The main theorem is that `UpdateManifest`
  turns the text of a layout into the text of the updated layout, byte for byte; `Unterminated`
  extends it to manifests without a final line feed. `Ties`, `TopLevel` and `Commute` say exactly
  when the order of edits matters and where a top-level key ends up. `Identities`, `Shapes`,
  `Settling`, `Rerun` and `Idempotence` prove that doing it again changes nothing; `Writes`,
  `FixedPoint`, `SecondRun` and `SameDocuments` treat patches of what targets select by, and say for
  any patches when a manifest is left alone.
- **The branch protocol** (`GitBranch`, `MultiWriter`, `ApplySteps`, `FieldOwners`, `Ownership`,
  `OwnedEdits`). A
  branch is the sequence of its tips, and a push is compare-and-swap on the last one. `GitBranch` has
  one `Apply` as a whole against a script of what others do; `MultiWriter` has many of them step by
  step; `ApplySteps` proves the first a case of the second. `Ownership` is what the ownership check
  lets through, and `OwnedEdits` instantiates the protocol with the editor itself.
- **The rollout state machine** (`Rollout`, `Controller`, `Runs`, and the theorems in
  `WatchInvariant`, `DigestHistory`, `WatchDuration`, `Observation`, `WriteShortcut`, `Retry`,
  `Convergence`, `SettlingTime`, `CalmSample`). One pass is a method over the status object, the
  stored status and the remote; whatever ArgoCD, the clock, the API server, the tag source and other
  writers do in a pass is its `Answers`. The method is proved equal to the function `Pass`, and the
  theorems quantify over all runs of it.
- **Tag selection** (`Matcher`) and **progress tracking** (`Progress`) are the two helpers these
  rest on.

`Basics` and `Text` hold small datatypes and string functions. Classes stand where the source
updates objects in place (`Editor.ManifestEditor`, `GitBranch.Remote`, `Controller.TagUpdater`,
`Controller.ApiServer`, `Progress.ProgressTracker`); everything that only computes is a function.

## Reading the model

- Bytes are characters of a `string`. Node identity is the path of child indices, which stands for
  the pointer the source uses as a map key.
- yaml.v3 appears as `decode` (its positions are those of `Place`), as `Emitter` (how a value is
  spelled; `ValidEmitter` is what is asked of it) and, in `OwnedEdits`, as a `Reader` that returns
  the layout of a text. text/template, regexp and label selection are functions.
- A commit is named by its position on the branch. `Foreign` stands for any other revision name.
- Times are integers in nanoseconds; a time that is stored in the status loses its fraction
  (`Rollout.Stamp`).
- `Answers.outside` is what others push before the head is read. The two scripts are what they do
  during each attempt of the forward write and of the rollback.

## What the code does against its own account

These follow the code, and each has a lemma.

- The comparator of `Latest` is not an order when numeric and other `n` captures are mixed.
  `TransitiveIffNoStraddle` gives the exact condition and `MixedNumbersCycle` an example.
- Two insertions at one offset come out in an order that map iteration decides. The output is the
  same for every order if and only if tied texts commute (`SameOffsetOrderShows`).
- A key added to a top-level mapping always goes to the end of the input. That is the end of its own
  document if and only if no other follows (`TopLevelInsertion`); `TopLevelCrossesDocuments` is an
  input on which it lands behind the next separator.
- The end of a plain token is looked for on the whole line, so a plain scalar inside a flow
  collection is never found exactly (`FlowScalarOverrun`).
- A target that patches its own `metadata.name` is not found again by the next run, unless the new
  name is the one it looks for (`NamePatchRerun`). For any patches, a manifest is left alone if and
  only if every target selects some document and every selected one already reads and spells the
  target's values (`UnchangedIffSatisfied`, `EditUnchangedIff`). Selecting the same documents again
  is enough for that (`SecondRunRepeats`), and not necessary (`SelectsMoreYetSatisfied`).
- The ownership check means to make accepted updaters sole writers of a scalar, but compares texts.
  Two targets can share a scalar if and only if their fields collide and some identity is selected
  by both (`SharedScalarIff`, `NamedTogether`); for two accepted updaters that leaves two spellings
  of a list index, and a namespace given once and left open once (`AcceptedYetShared`,
  `TextualOwnershipMissesIndices`, `TextualOwnershipMissesNamespaces`).
- The staleness window is `max(multiplier * interval, floor)` only while the product fits 64 bits
  (`WindowIsMax`). A retry at another interval may make a stale updater look fresh
  (`RetryKeepsStale` has the exact condition).
- A rollout that started after the stored push time started after the push only because both are
  whole seconds (`FractionalStarts`), and an entry without `deployStartedAt` falls back to its
  finish, which proves nothing (`OnlyStartsProve`).
- The deadlines of a watch are consulted only after a successful read: past its deadline a check
  goes on waiting if and only if a read of its phase fails (`PastDeadlineWaits`), and for ever if
  that goes on (`BlindWatchStaysOpen`).
- Writing a release while rollback is disabled leaves an open watch on an older tag
  (`WatchSurvivesDisabling`), and an empty tag would arm a watch that is not one (`ArmedIffNamed`).
- A rollback restores a tag that is in the skipped list if and only if no watch has ended well
  before (`RollbackRestoresSkipped`).
- A rollback reported as failed is persisted all the same if and only if its own status update was
  refused after it changed the object and the update that reports the failure was accepted
  (`FailedYetPersisted`).

## Model

| member | source | states |
|---|---|---|
| Matcher.All | internal/matcher/matcher.go:28-45 | the loop over tags and group names returns the matches in input order, each with its named captures |
| Matcher.MatchesExactly | internal/matcher/matcher.go:28-45 | a match is returned if and only if its tag is in the input, the pattern accepts it, and its captures are that tag's |
| Matcher.CapturesByName | internal/matcher/matcher.go:36-41 | every named group's submatch is found under its name, and no unnamed group is captured |
| Matcher.Latest | internal/matcher/matcher.go:49-63 | filter, sort by the comparator, take the first, or report that nothing matches |
| Matcher.LatestIsAMatch | internal/matcher/matcher.go:49-53 | Latest finds nothing exactly when no tag matches, and otherwise returns one of the matches |
| Matcher.LatestIsNewest | internal/matcher/matcher.go:47-62 | with uniform n no match is newer: the number is maximal when all are numeric, the tag lexicographically maximal when none is |
| Matcher.LatestIgnoresOrder | internal/matcher/matcher.go:47-62 | with distinct numbers the choice depends on the set of tags alone, not on their order or repetition |
| Matcher.TransitiveIffNoStraddle | internal/matcher/matcher.go:54-61 | the comparator is transitive on a list if and only if no non-numeric tag straddles two numeric ones |
| Matcher.MixedNumbersCycle | internal/matcher/matcher.go:54-61 | three concrete matches of which each comes before another, so mixed n has no newest |
| Scan.ScalarTokenEnd | internal/writeback/yaml.go:284-321 | the scanning loops for double-quoted, single-quoted and plain tokens, with their errors, compute the specified end |
| Scan.ScanFindsToken | internal/writeback/yaml.go:284-321 | scanning a well-shaped token stops at its end if and only if what follows delimits it; trailing comments and blanks are excluded |
| Scan.FlowScalarOverrun | internal/writeback/yaml.go:311-321 | a plain token followed by a flow indicator is not found at its end, whatever the token |
| Scan.RenderedTokenShape | internal/writeback/yaml.go:323-337 | a value of any number of lines is rendered as a one-line token of the style it is rendered in if and only if that is no block style |
| Scan.RenderedTokenRescans | internal/writeback/yaml.go:284-337 | a token rendered in any style but a block one is found again exactly when what follows delimits it, so replaced spans stay editable |
| Scan.RenderStyleStable | internal/writeback/yaml.go:323-352 | rendering again in the style a value was rendered in keeps that style |
| Scan.DoublingRoundTrips | internal/writeback/yaml.go:323-337 | a single-quoted spelling reads back as the value |
| Scan.EscapingRoundTrips | internal/writeback/yaml.go:323-337 | a double-quoted spelling reads back as the value |
| Nodes.MapValue | internal/writeback/yaml.go:354-364 | the lookup loop returns the first child with the key, and only in a mapping |
| Nodes.PatchPutGet | internal/writeback/yaml.go:138-175 | after a successful write the path reads the value, and the tree has only grown |
| Nodes.PatchFrame | internal/writeback/yaml.go:138-175 | any path of any document that read a scalar still leads to the same node and reads the same value, unless it is the assigned node |
| Nodes.DivergentAddresses | internal/writeback/yaml.go:138-175 | paths that diverge at some segment never reach the same node |
| Nodes.PatchLeavesDivergent | internal/writeback/yaml.go:138-175 | a write leaves the value of every diverging path of the document alone |
| Commute.PatchesCommute | internal/writeback/yaml.go:138-175 | two diverging writes succeed in both orders or in neither, and in both orders leave both fields with their own values |
| Nodes.WalkFromFreshSucceeds | internal/writeback/yaml.go:143-157 | below a node it created the writer cannot fail, so an error comes before any creation |
| Nodes.WalkExisting | internal/writeback/yaml.go:138-175 | a path that already leads to a scalar is followed without creating anything |
| Editor.ManifestEditor.SetScalar | internal/writeback/yaml.go:138-175 | the writing loop equals the walk on success, and on error leaves tree, edits and insertions exactly as they were |
| Editor.ManifestEditor.CreateEntry | internal/writeback/yaml.go:146-157 | a missing key is appended to the mapping, and recorded as an insertion exactly for a mapping with a source position |
| Overlay.PatchOverlaid | internal/writeback/yaml.go:61-71 | across any sequence of writes a source node's entries are its decoded ones followed by its recorded insertions, and its value is the decoded one or the recorded edit |
| Documents.DocsOrderDistinct | internal/writeback/yaml.go:186-225 | no pending change is rendered twice |
| Documents.DocsComplete | internal/writeback/yaml.go:186-225 | every pending change is rendered |
| Editor.ManifestEditor.ApplyTarget | internal/writeback/yaml.go:38-76 | one target over the documents patches exactly the matching ones, counts them, and stops at the first error |
| Editor.ManifestEditor.ApplyTargets | internal/writeback/yaml.go:36-77 | targets in order, with an error for a target that matches nothing |
| Insertion.LineStarts | internal/writeback/yaml.go:187-192 | the offsets after line feeds, computed by the loop |
| Insertion.InsertionPoint | internal/writeback/yaml.go:240-263 | the search loop returns the first line that ends the mapping, or the end of input |
| Insertion.PointPlacement | internal/writeback/yaml.go:246-262 | the point is a line start or the end of input, the line there is shallower than the mapping, and no searched line before it is |
| Insertion.ZeroIndentRunsToEnd | internal/writeback/yaml.go:257-262 | for a top-level mapping the point is always the end of input |
| TopLevel.TopLevelInsertion | internal/writeback/yaml.go:240-263 | a key for the top level of document d is inserted at the end of the input, which is the end of document d if and only if d is the last |
| TopLevel.TopLevelCrossesDocuments | internal/writeback/yaml.go:240-263 | two documents, and the span of a patch of the first lies behind the whole of the second |
| Editor.RenderMappingEntries | internal/writeback/yaml.go:265-282 | encoded entries are split, indented line by line and joined with a final line feed |
| Editor.EditSpan | internal/writeback/yaml.go:194-211 | the span and rendered token of one edited scalar, with the position, block-style and scanner errors |
| Editor.InsertionSpan | internal/writeback/yaml.go:212-225 | the empty span and rendered entries of one insertion, with the extra line feed after an unterminated line |
| Splice.ExchangeSort | internal/writeback/yaml.go:226-232 | the nested swapping loops compute the exchange sort of the edits as they arrived, ties included: descending starts, and the same edits |
| Splice.SortAndSplice | internal/writeback/yaml.go:226-237 | for spans that do not overlap, ties of insertions allowed, sorting and splicing in place is the splicing of the sorted arrival |
| Splice.OutputSubstitutes | internal/writeback/yaml.go:226-237 | with distinct starts, splices with original offsets equal simultaneous substitution of the spans, whatever order they arrive in |
| Splice.OutsideBytesSurvive | internal/writeback/yaml.go:182-185 | every byte outside the spans is in the output, at an offset shifted by the growth of the spans before it |
| Splice.SubstituteLength | internal/writeback/yaml.go:233-236 | the length changes by the sum of replacement minus span lengths |
| Ties.SameOffsetOrderShows | internal/writeback/yaml.go:212-236 | through the sort and all splices: the output is the same for every arrival order of the spans if and only if all texts inserted at one offset commute |
| Editor.ApplyYAMLEdits | internal/writeback/yaml.go:186-238 | collects the spans in some map order; fails exactly when some span does; the output is that of an arrival order, and the substitution of the spans when no two start together |
| Unterminated.SpanCut | internal/writeback/yaml.go:194-225 | without the final line feed every span is found where it was, and an insertion at the end brings the line feed |
| Unterminated.CutSubstitute | internal/writeback/yaml.go:212-237 | and the output is the same, without a final line feed unless something is appended |
| Rewrite.LayoutTurns | internal/writeback/yaml.go:182-238 | the ordered spans of the pending changes of a layout turn its text into the text of the updated layout |
| Documents.DocsTurn | internal/writeback/yaml.go:182-238 | the same for a whole stream: disjoint ordered spans that rewrite exactly the targeted tokens and add the missing entries |
| Editor.UpdateManifest | internal/writeback/yaml.go:20-86 | terminated or not, the manifest becomes the original layout with exactly the targeted tokens re-rendered and the missing entries added when no insertions collide, and otherwise what some order of the spans gives; changed tells whether bytes differ; it fails exactly when the run does or edits a block scalar |
| Editor.NothingPending | internal/writeback/yaml.go:78-80 | with no pending change the input is returned as it is |
| Identities.PatchKeepsIdentity | internal/writeback/yaml.go:107-136 | a patch outside apiVersion, kind and what is read of metadata changes no document's identity, so no target's matches |
| Identities.NamePatchRerun | internal/writeback/yaml.go:107-122 | a target that patches the name it selects by, whatever else it selects by, matches again if and only if it writes that name |
| Settling.UpdatedWf | internal/writeback/yaml.go:186-238 | the updated layout is well-formed again |
| Settling.UpdatedSettled | internal/writeback/yaml.go:186-238 | its tokens and entries are spelled as a second rendering would spell them |
| Idempotence.UpdatedStreamErased | internal/writeback/yaml.go:20-86 | the updated text decodes to the final tree, up to positions and styles |
| Idempotence.UpdateIsIdempotent | internal/writeback/yaml.go:18-86 | the same targets and data on the updated stream succeed, insert nothing and give the same stream |
| Idempotence.UpdateTwice | internal/writeback/yaml.go:18-86 | a second UpdateManifest on the first one's output returns those bytes with changed false, whether or not the manifest ends in a line feed |
| FixedPoint.SameTreeIffSatisfied | internal/writeback/yaml.go:36-77 | whatever is patched, conflict-free targets leave the tree as it is if and only if each selects some document and all it selects read its values |
| FixedPoint.UnchangedIffSatisfied | internal/writeback/yaml.go:18-86 | the same for the layout: it is a fixed point if and only if moreover the values are spelled as a rendering would |
| SecondRun.SecondRunRepeats | internal/writeback/yaml.go:18-86 | if under the final identities every target selects something and nothing new, the second run succeeds and changes nothing, whatever the patches |
| SameDocuments.SelectsMoreYetSatisfied | internal/writeback/yaml.go:36-77 | a run after which a target selects one more document, which reads its values already: selecting the same documents is not necessary |
| GitBranch.Remote.Push | internal/writeback/git.go:140-142 | a push is accepted exactly on top of the cloned commit, and appends that one commit |
| GitBranch.Remote.TryOnce | internal/writeback/git.go:87-144 | clone, edit, commit and push as steps against the shared branch, with every error branch and the unchanged case |
| GitBranch.Remote.Apply | internal/writeback/git.go:52-65 | the loop retries only rejected pushes, at most three times |
| GitBranch.ApplySafe | internal/writeback/git.go:52-65 | under any interference the branch only grows, nobody's commit is lost, at most one own commit is added, it edits its direct parent and touches no other path, and giving up after conflicts adds nothing |
| GitBranch.SettledApply | internal/writeback/git.go:110-119 | on a tip that needs no edit an undisturbed Apply reports that tip and changes nothing |
| MultiWriter.RunSafe | internal/writeback/git.go:52-144 | after every interleaving of any number of calls, failures and outside pushes, the log extends the old one, each call authored at most one commit, an edit of its parent, and a call that gave up authored none |
| MultiWriter.DisjointOwnersCompose | internal/writeback/git.go:52-144 | after any interleaving each owner's field on the tip holds the value of its last successful call |
| ApplySteps.ApplyIsSteps | internal/writeback/git.go:52-144 | an Apply as a whole, whatever others push during its attempts, is a run of its own steps and theirs with the same branch and the same report |
| FieldOwners.ValidateFieldOwnership | internal/controller/tagupdater_controller.go:678-700 | accepted if and only if no field key is claimed by two different updaters |
| FieldOwners.JoinNulInjective | internal/controller/tagupdater_controller.go:687-690 | joined keys are equal only for equal parts, when no part contains the separator |
| FieldOwners.SharedNodeIffCollide | internal/controller/tagupdater_controller.go:674-700 | two field paths can name one node in some document if and only if they agree segment by segment, up to spellings of an index |
| Ownership.SharedScalarIff | internal/controller/tagupdater_controller.go:674-700 | two targets can write one scalar of some manifest if and only if their fields collide under one top-level key and some identity is selected by both |
| Ownership.NamedTogether | internal/controller/tagupdater_controller.go:674-700 | without selectors some identity is selected by both if and only if apiVersion, kind and the non-empty name agree and the namespaces agree or one is open |
| Ownership.AcceptedYetShared | internal/controller/tagupdater_controller.go:674-700 | two accepted updaters of one file can share a scalar if and only if the fields collide, both select one object, and the texts of field or namespace differ |
| Ownership.TextualOwnershipMissesIndices | internal/controller/tagupdater_controller.go:687-690 | spec.0 and spec.00 are accepted from two updaters and are one list entry |
| Ownership.TextualOwnershipMissesNamespaces | internal/controller/tagupdater_controller.go:687-690 | one field of one object, claimed with its namespace and without it, is accepted from two updaters |
| FieldOwners.UpdateRespectsForeignField | internal/writeback/yaml.go:20-86 | a field that all the targets' fields diverge from decodes from the new text as it did from the old |
| OwnedEdits.EditManifest | internal/writeback/git.go:106-119 | UpdateManifest computes exactly the edit that the branch protocol uses, error for error |
| OwnedEdits.EditTwice | internal/writeback/git.go:110-119 | editing an edited manifest succeeds and changes nothing |
| OwnedEdits.EditUnchangedIff | internal/writeback/git.go:110-119 | for any conflict-free targets the edit leaves a manifest alone if and only if every target selects some document and all it selects read and spell its values |
| OwnedEdits.SpecEditsIdempotent | internal/writeback/git.go:110-119 | a specification whose edits are UpdateManifest has the idempotent edits that the shortcut and the retries rest on, when the releases it can write render on one line each |
| OwnedEdits.EditWrites | internal/writeback/yaml.go:38-73 | after a successful edit the owned field of the first selected document reads the rendered value |
| OwnedEdits.EditSpares | internal/writeback/yaml.go:38-73 | an edit whose targets use other paths or select other documents leaves a foreign field as it was |
| OwnedEdits.UpdatersCompose | internal/controller/tagupdater_controller.go:674-700 | several updaters editing one manifest with the real editor: whatever the interleaving, an owner's field on the tip has the value its last successful call rendered |
| Rollout.FilterSkipped | internal/controller/tagupdater_controller.go:631-646 | the set-building and filtering loops drop exactly the skipped tags and keep the order |
| Rollout.UnskippedExactly | internal/controller/tagupdater_controller.go:631-646 | a tag survives if and only if it was there and is not skipped |
| Rollout.AppendUnique | internal/controller/tagupdater_controller.go:648-655 | the value is appended only if it is absent |
| Rollout.CheckObserves | internal/controller/tagupdater_controller.go:434-462 | the four searches decide whether ArgoCD names the commit or a retained rollout started after the push |
| Rollout.Stamp | api/v1alpha1/tagupdater_types.go:154-167 | a stored time is the whole second at or before the instant |
| Controller.TagUpdater.Record | internal/controller/tagupdater_controller.go:238-255 | the field updates after a forward write: a new tag rotates the releases and arms the watch, the same tag only refreshes |
| Controller.AbandonWatch | internal/controller/tagupdater_controller.go:353-368 | the watch is cleared and nothing else, stored only if the update is accepted |
| Controller.Rollback | internal/controller/tagupdater_controller.go:552-629 | the early exits, the write of the previous release and the status it leaves, stored and in memory |
| Controller.RollbackReported | internal/controller/tagupdater_controller.go:377-388 | a failed rollback is followed by an update of whatever the object then holds |
| Controller.CheckHealthAndMaybeRollback | internal/controller/tagupdater_controller.go:268-323 | the verdict, the object, the stored status and the branch after one check, on every branch of it |
| Controller.WriteTag | internal/controller/tagupdater_controller.go:200-261 | the shortcut behind its guard, otherwise Apply and the new status |
| Controller.ForwardPath | internal/controller/tagupdater_controller.go:100-261 | from the configuration checks to the stored release, with every early return |
| Controller.Reconcile | internal/controller/tagupdater_controller.go:53-262 | one pass over stored status and branch, and exactly the attempt and success that the tracker hears of |
| WatchInvariant.RunKeepsWatch | internal/controller/tagupdater_controller.go:82-98 | in every run from the empty status with rollback on: the watched tag is the last one, not the previous, not skipped; its commit is the last written one; it is armed no later than it is observed; the fields are set and cleared together; skipped tags are distinct |
| WatchInvariant.ForwardOnlyUnwatched | internal/controller/tagupdater_controller.go:82-98 | no forward write starts while a watch is open, also in the pass that closes one |
| WatchInvariant.CheckEffect | internal/controller/tagupdater_controller.go:268-323 | a check leaves the status as it was, observed, cleared, cleared with nothing skipped, or failed, and nothing in between |
| WatchInvariant.FailureGrows | internal/controller/tagupdater_controller.go:559-618 | each failure adds exactly the watched tag to the skipped ones, without a duplicate |
| WatchInvariant.FailedStaysOut | internal/controller/tagupdater_controller.go:148-148 | over any run a failed tag is not written forward before some pass sees a Healthy release |
| WatchInvariant.WaitingProgress | internal/controller/tagupdater_controller.go:87-98 | a waiting pass counts as progress if and only if the commit has been observed, and writes nothing |
| WatchInvariant.WatchSurvivesDisabling | internal/controller/tagupdater_controller.go:238-252 | after a new release the watch is on the recorded tag if and only if rollback and the Application are configured |
| WatchInvariant.ArmedIffNamed | internal/controller/tagupdater_controller.go:244-251 | arming pairs the watch fields if and only if the tag is not empty |
| WatchInvariant.FailedYetPersisted | internal/controller/tagupdater_controller.go:377-388 | a rollback reported as failed is stored all the same if and only if its own update was refused after it changed the object and the reporting update was accepted |
| WatchInvariant.RollbackRestoresSkipped | internal/controller/tagupdater_controller.go:553-618 | over every guarded run a rollback records a skipped tag if and only if no watch has ended well so far |
| DigestHistory.RunKeepsDigests | internal/controller/tagupdater_controller.go:190-253 | with digest resolution on from the first write, both recorded releases always have the valid digest their tag last had, so the missing-history guard is never met |
| DigestHistory.RollbackRestores | internal/controller/tagupdater_controller.go:594-610 | a rollback renders exactly the previous tag's release data with the digest that tag had when it was last live, and records that digest; it fails only for a tag, record, credentials or write that fails |
| DigestHistory.SameTagSameImage | internal/controller/tagupdater_controller.go:190-198 | a pass that leaves the recorded tag alone leaves its image alone, also when it closes a watch on the way |
| DigestHistory.RunKeepsImages | internal/controller/tagupdater_controller.go:190-253 | over every guarded run the recorded image changes only with its tag |
| WatchDuration.OpenBound | internal/controller/tagupdater_controller.go:280-343 | while every check waits, the last one came before arming + two timeouts + one gap, and the observation time is set at most once |
| WatchDuration.WatchCloses | internal/controller/tagupdater_controller.go:268-343 | once checks reach that bound, one of them has closed the watch, before arming + two timeouts + two gaps |
| WatchDuration.PassArms | internal/controller/tagupdater_controller.go:238-258 | a pass that writes and stores a new release leaves a watch just armed |
| WatchDuration.PastDeadlineWaits | internal/controller/tagupdater_controller.go:268-343 | past the deadline of its phase a check waits if and only if a read of that phase fails |
| WatchDuration.BlindWatchStaysOpen | internal/controller/tagupdater_controller.go:270-279 | without successful reads over a run the deadlines are never consulted and the status never changes |
| Observation.DeploymentsFrom | internal/controller/tagupdater_controller.go:495-524 | the history loop and the finished operation give the retained rollouts, with the fallback for a missing start |
| Observation.DeploymentsAre | internal/controller/tagupdater_controller.go:495-550 | a rollout is listed if and only if some history item with revisions describes it |
| Observation.ObservedIsSound | internal/controller/tagupdater_controller.go:434-462 | an observed commit is named, or some rollout deployed at least the branch of delta before the push; with delta zero that rollout contains the commit |
| Observation.MoreRolloutsKeep | internal/controller/tagupdater_controller.go:434-462 | retaining more rollouts never turns the answer false |
| Observation.FractionalStarts | internal/controller/tagupdater_controller.go:456-460 | exactly reported starts are ordered by the stored push time if and only if the push fell on a whole second |
| Observation.OnlyStartsProve | internal/controller/tagupdater_controller.go:506-512 | a history entry past the push proves containment for every rollout it could report if and only if its time is the start |
| WriteShortcut.RunKeepsInPlace | internal/controller/tagupdater_controller.go:253-255 | in every reachable state the manifest at the last written commit is a fixpoint of the edit for the recorded tag, digest and generation, when the edits of releases the run can write are idempotent |
| WriteShortcut.ShortcutRefines | internal/controller/tagupdater_controller.go:204-216 | a pass that may skip the clone ends with the same status, branch and outcome as the pass that clones and edits |
| Retry.SettledAttempt | internal/writeback/git.go:114-119 | an Apply that finds its edit in place commits nothing, whatever others push meanwhile |
| Retry.LandedSettles | internal/writeback/git.go:140-143 | once a push has landed, reported or not, the tip carries the edit |
| Retry.RetryForward | internal/controller/tagupdater_controller.go:216-261 | repeating a forward write whose status stayed as it was, its update lost or its push not acknowledged, adds no commit and stores the same release with the same or a later commit |
| Retry.RetryRollback | internal/controller/tagupdater_controller.go:604-628 | repeating a rollback whose status was lost adds no commit and ends in the same status with the same or a later commit |
| Convergence.PassOutcome | internal/controller/tagupdater_controller.go:53-262 | a pass keeps the invariant, never raises the measure, lowers it with each forward write, and settles if it neither writes nor waits |
| Convergence.LatestIsGreatest | internal/controller/tagupdater_controller.go:148-148 | the forward path picks the unskipped release with the greatest number, or nothing when none is left |
| Convergence.FewWrites | internal/controller/tagupdater_controller.go:53-262 | no run makes more forward writes than the square of one more than the number of releases |
| Convergence.Converges | internal/controller/tagupdater_controller.go:53-262 | after more non-waiting passes than that the run is settled: on the greatest healthy release if there is one, otherwise with every release skipped |
| SettlingTime.SettlesInTime | internal/controller/tagupdater_controller.go:53-343 | with checks at most d apart, a run whose checks reach start + d + bound * (2 * timeout + 3 * d) has settled, on the greatest healthy release if there is one |
| Convergence.SettledStays | internal/controller/tagupdater_controller.go:53-262 | a settled run keeps its release and writes nothing more |
| CalmSample.CalmRunsExist | internal/controller/tagupdater_controller.go:53-262 | the premises of convergence are met by a concrete run whose template fails on missing data, and it writes its release |
| Progress.ProgressTracker.Attempt | internal/controller/progress.go:59-71 | the entry is created or its interval refreshed, and keeps meaning what the trace says |
| Progress.ProgressTracker.Success | internal/controller/progress.go:74-80 | the success is noted for a known key only |
| Progress.ProgressTracker.Forget | internal/controller/progress.go:84-88 | the key is dropped with its history |
| Progress.ProgressTracker.IsStale | internal/controller/progress.go:92-110 | stale if and only if the time since the last success, or else the first attempt, since the last forget exceeds the window |
| Progress.ProgressTracker.Staleness | internal/controller/progress.go:113-121 | the loop reports every tracked key, each with its staleness by trace |
| Progress.ProgressTracker.ProgressHealthy | internal/controller/progress.go:129-142 | unhealthy if and only if some updater is tracked and all tracked ones are stale |
| Progress.RetryKeepsStale | internal/controller/progress.go:57-71 | a further attempt never hides staleness if and only if its window is no longer than the one before |
| Progress.WindowIsMax | internal/controller/progress.go:42-55 | the window is the documented maximum if and only if the product fits 64 bits |

## Left out

- Editor.UpdateManifest: proved for manifests that are block-style layouts with single-line scalars,
  comments and document separators. Flow style, aliases, multi-line plain scalars and non-byte
  columns are outside the layout. Block scalars may be present, and editing one is the error it is in
  the source. A top-level insertion has to be in the last document, because the code is wrong
  otherwise (`TopLevelInsertion`); insertions that collide get the outcome of some order (`Ties`).
- Idempotence.UpdateTwice: takes as a premise that the decoder reads the updated layout as what it
  spells, since yaml.v3 is not part of this model, and patches fields that no target selects by. For
  the others, `FixedPoint` and `SecondRun` take their place, under targets that do not write different
  values to one field.
- Scan.RenderedTokenShape: what the YAML library chooses is the contract `ValidEmitter`.
- FieldOwners.SharedNodeIffCollide: about paths; `Ownership.SharedScalarIff` adds the documents.
- Ownership.SharedScalarIff: for fields that no target selects by. `AcceptedYetShared` is for targets
  without selectors, since whether two label selectors meet is up to them.
- OwnedEdits.EditTwice: takes the decoder's reading back of edited text as a premise (`InScope`), like `UpdateTwice`,
  and speaks of manifests that end in a line feed.
- OwnedEdits.UpdatersCompose: outside pushes have to leave the owned fields alone, and every call
  writes one claimed field. Targets that select nothing in a manifest are errors, as in the source.
- WatchDuration.WatchCloses: needs the two reads, the status updates and the rollback write to succeed, which
  is what makes the deadlines reachable at all.
- Convergence.Converges: transient failures are excluded by its premises; they are covered by `Retry`.
  How many passes do more than wait is its premise, too; `SettlesInTime` puts time in its place.
- Observation.ObservedIsSound: assumes that ArgoCD reports starts in whole seconds. What happens
  without that is `FractionalStarts` and `OnlyStartsProve`.
- Label sets of a `labels` node that is not a mapping are empty here; the source would read its
  children pairwise.
- The sort of the standard library is replaced by insertion sort. For matches that compare equal, or
  when the comparator is no order, the source may pick another one.
- One repository, branch and path per updater run; a change of these in mid-run changes the branch,
  which is not modelled.
- `LastUpdated`, conditions, events, log and message texts, requeue delays.
- Registry, git and Kubernetes clients, credentials, host keys, clone directories, path
  sanitising, URL parsing, field names of release records: inputs of the model.
- The branch of `applyOnce` for an empty commit, which cannot be reached once the bytes differ.
- Mutual exclusion inside the tracker; each operation is one step.
