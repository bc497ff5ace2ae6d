# Verified model of the agent orchestrator's input, patch, authority and read paths

This project models, in Dafny, the parts of the agent orchestrator in which several steps must agree with
one another, and proves what they promise for every input, every run or every reachable state.

* **Inputs of a task.** `resolve_declared_inputs` turns declared data requirements, accepted outputs,
  validity witnesses and a policy into a canonical input manifest or typed refusals. `materialise_plan` puts
  the manifest onto target places, `decode_frozen_manifest` reads it back, and
  `require_current_manifest_use` checks it again later without resolving anything.
* **Unified diffs.** A line parser and an applier that rewrites a list of lines in place with a running
  offset. The format is the "Diff -u or -U Output Format" of the `diff` utility in IEEE Std 1003.1.
* **Clock and certificates.** A persisted clock whose generation counts rollbacks, and the classification of
  the newest certificate under it.
* **Planning grants.** Issue, renew and revoke over an append-only log of rows, safe under retries and under
  interleaved calls.
* **Bounded readers.** Cursor pages with base64url tokens, physical lines and citation pages, and a chunked
  read that truncates UTF-8 safely.

`dafny verify dfyconfig.toml` checks everything.

## Layout

| file | content |
|---|---|
| `Sequences.dfy`, `Ordering.dfy`, `TextLines.dfy` | comprehensions, the stable sort by key, line splitting |
| `InputModel.dfy`, `Resolution.dfy`, `ResolverLoop.dfy` | the resolver: records, specification, loops |
| `ResolutionFacts.dfy`, `ResolverExactness.dfy`, `ResolverOrdering.dfy`, `ResolverStability.dfy`, `ResolverPermutation.dfy` | what a resolution means and what it does not depend on |
| `ManifestUse.dfy`, `ManifestCodec.dfy`, `Materialisation.dfy` | the later check, the persisted form, the target plan |
| `ManifestFacts.dfy`, `StoredManifests.dfy`, `PlanPlaces.dfy` | the same three said over the fields of the records: revisions, witnesses, refusals, bounds, places |
| `UnifiedDiff.dfy`, `DiffApplication.dfy`, `DiffPrinting.dfy`, `DiffRoundTrip.dfy` | parser and applier, refinement, reading printed diffs back, round trip and undo |
| `DiffGrammar.dfy`, `DiffDocuments.dfy` | which texts the parser reads, line by line when hunks apply, whole documents |
| `ClockCertificates.dfy` | clock and certificates |
| `PlanningGrants.dfy`, `GrantLineage.dfy`, `GrantHistory.dfy` | the grant API, every run of it, and where its rows come from |
| `Utf8.dfy`, `ArtifactHead.dfy`, `Base64Url.dfy`, `CursorPaging.dfy`, `Citations.dfy` | the bounded readers |

Code that computes by expressions is modelled by functions; loops and objects are methods proved equal to a
specification function, about which the properties are then proved. Digests, message texts, the path
normaliser, case folding and JSON rendering are function parameters: everything holds for all of them, and a
proof that needs more of one (that a digest is injective, say) states it as a precondition.

## Where the code does less than its documentation

* A removed line that begins `-- `, or an added line that begins `++ `, is taken for a file header inside a
  hunk. `DiffPrinting.ParsePrinted` shows that a printed diff is read back correctly exactly when there is no
  such line.
* A hunk without old lines is applied one line above its place, and refused at the top of a file; a file
  emptied by a diff keeps one line feed. `DiffRoundTrip.ApplyPrinted` gives the exact condition under which
  applying a printed diff yields the new text.
* On a case-insensitive target an ok plan can write two contents to one place: targets are grouped by their
  folded path, but written under the normalised one, and the normaliser (`artifacts/paths.py`) is not
  idempotent; it strips blanks from the whole path before it drops `.` segments. `./ ./ a` becomes ` ./ a`,
  whose target ` a` is written as `a` (`Materialisation.TwoContentsOneTarget`).
  In the same way `./ ./ ../a` becomes ` ./ ../a`, whose target ` ../a` holds no `..` segment
  and is written as `../a`, outside the namespace (`Materialisation.WritesOutside`).
  `Materialisation.EntriesArePlaces`, `EntriesApart`, `EntriesInside` and `SettledTargetsPlaced` give the exact
  conditions.
* The same source path ` ./ a` is persisted with a frozen manifest and refused when it is read back
  (`ManifestCodec.StoredPathNotDecoded`): the decoder accepts exactly the well-formed manifests
  (`ManifestCodec.DecodableIff`).
* A certificate is classified at the system time, which is not observed first and not compared with the clock's
  high-water mark. If the time falls below a deadline that the clock has already observed, the expired certificate
  is usable again (`ClockCertificates.UsableAfterDeadline`). A caller is safe who checks
  `now >= wall_high_ms`, as `require_epochs_locked` and `require_read` do
  (`ClockCertificates.UsableSawTimesInOrder`).
* A token longer than its reader's bound stops paging (`CursorPaging.LongTokenStops`); `CursorPaging.PagingExact`
  says exactly when.
* Two items with one sort key on the two sides of a page boundary: the second is never shown.
  `CursorPaging.PagingExact` gives the exact condition.

## Model

| member | source | states |
|---|---|---|
| `ResolverLoop.ResolveDeclaredInputs` | src/agent_orchestrator/artifacts/input_bindings.py:840-1075 | the loops that append to problems, pending and bindings and fill the per-port dictionary compute `Resolve`, about which the lemmas below speak |
| `ResolverExactness.WeighExact` | src/agent_orchestrator/artifacts/input_bindings.py:629-761 | the disclosure, schema, speculation and witness checks of a candidate succeed exactly when it is permitted, said without the order of the checks; a witness is in force only at the epoch that its scope is at, before its deadline and while current |
| `ResolverExactness.ResolverExact` | src/agent_orchestrator/artifacts/input_bindings.py:840-1075 | a manifest is returned exactly when nothing but unfinished producers stands in the way (and no two bindings share an id); its bindings are then in one-to-one correspondence with the pairs of a ready requirement and an output at a revision it may take, its pending records with the unfinished requirements |
| `ResolverExactness.EveryBindingLicensed` | src/agent_orchestrator/artifacts/input_bindings.py:898-1039 | every binding stands for a ready requirement and an output that is disclosable, schema-declared, speculation-authorised and licensed by a matching witness |
| `ResolutionFacts.SettledIff` | src/agent_orchestrator/artifacts/input_bindings.py:764-837 | a port is settled exactly when a single port has at most one entry and a set port's declared rule gives every entry a position of its own |
| `ResolverOrdering.RankedInOrder` | src/agent_orchestrator/artifacts/input_bindings.py:764-837 | on a set port the ordinals are a bijection onto 0..n-1 that rises strictly with the declared key |
| `ResolverOrdering.ForPortExact` | src/agent_orchestrator/artifacts/input_bindings.py:480-509 | `for_port` lists exactly the pairs of the port, sorted by the declared key, numbered 0, 1, 2 and so on; at most one on a single port |
| `ResolverOrdering.Readiness` | src/agent_orchestrator/artifacts/input_bindings.py:511-520 | every required port of a returned manifest is bound or pending, no problems means a frozen manifest and the other way round, and a frozen manifest without provisional bindings satisfies every required port |
| `ResolverStability.NonInterference` | src/agent_orchestrator/artifacts/input_bindings.py:585-626 | the result depends on the accepted outputs only through what each ready requirement may take, and on authorisations only at the places of requirements that follow them |
| `ResolverStability.UnrelatedOutputsIgnored` | src/agent_orchestrator/artifacts/input_bindings.py:247-255 | outputs at ports no requirement names, or at revisions a requirement may not take, change nothing |
| `ResolverStability.AuthorisationsIgnored` | src/agent_orchestrator/artifacts/input_bindings.py:599-606 | where every requirement is pinned, authorising whatever revisions leaves the result as it was |
| `ResolverStability.Progress` | src/agent_orchestrator/artifacts/input_bindings.py:898-1039 | when further producers finish, pending records only disappear, ports with nothing pending keep their bindings, and on every port the earlier bindings reappear with the same identity and in the same order |
| `ResolverPermutation.OrderIndependence` | src/agent_orchestrator/artifacts/input_bindings.py:480-534 | permuting requirements with distinct ids and accepted outputs gives the same manifest and the same refusals |
| `ManifestFacts.RevisionCarried` | src/agent_orchestrator/artifacts/input_bindings.py:599-606 | a pinned requirement carries its pin, whatever is authorised; one that follows authorised revisions carries the authorised one, and its pin only where none is authorised |
| `ManifestFacts.EveryRevisionBound` | src/agent_orchestrator/artifacts/input_bindings.py:607-626 | whatever was accepted at the place of a ready requirement, at the revision just said, or at any revision without a pin and an authorisation, is bound in a returned manifest |
| `ManifestFacts.BindingRecords` | src/agent_orchestrator/artifacts/input_bindings.py:998-1039 | every binding records, field by field, one requirement and one accepted output; its id is that of its own fields, its converter that of the first declared rule, and it asks for reacceptance exactly when it follows a revision that is not its pin |
| `ManifestFacts.ListedByDeclaredRule` | src/agent_orchestrator/artifacts/input_bindings.py:783-837 | a set port lists the outputs it bound by rising producer ordinal, or by rising text under its order key, numbered 0, 1, 2 and so on |
| `ManifestFacts.ListedAsDeclared` | src/agent_orchestrator/artifacts/input_bindings.py:801-837 | a port with an explicit order lists its requirements exactly as declared |
| `ManifestFacts.RefusalsReported` | src/agent_orchestrator/artifacts/input_bindings.py:898-990 | every requirement that is foreign, undeclared or without its one revision, and every offered output that fails a check, is among the refusals, under the kind of the first check it fails |
| `ManifestFacts.PortReported` | src/agent_orchestrator/artifacts/input_bindings.py:764-836 | when every requirement is met, a port that cannot be settled is reported: too many inputs of a single port, a set port without its order, or an order that is incomplete |
| `StoredManifests.ManifestInOrder` | src/agent_orchestrator/artifacts/input_bindings.py:480-499 | bindings stand by port, ordinal and id, pending records by port and requirement |
| `ManifestUse.RequireCurrentManifestUse` | src/agent_orchestrator/artifacts/taskgraph_inputs.py:21-62 | the check permits exactly when every binding passes, and otherwise raises the refusal of the first check that fails |
| `ManifestUse.UseExact` | src/agent_orchestrator/artifacts/taskgraph_inputs.py:35-62 | one frozen binding, of any manifest, passes exactly when its requirement is unchanged and exactly one accepted output has its identity, which is readable, authorised, schema-declared with the same converter and licensed by a witness |
| `ManifestUse.UsePermittedExact` | src/agent_orchestrator/artifacts/taskgraph_inputs.py:21-62 | any manifest, at any time, under any policy and witnesses, passes exactly when it is frozen, the policy asks for a starting witness, its consumer occurs once, and every binding is upheld there |
| `ManifestUse.ResolvedManifestCurrent` | src/agent_orchestrator/artifacts/taskgraph_inputs.py:21-62 | under the policy, time and witnesses of its resolution, a resolved frozen manifest passes after any later acceptances exactly when each of its inputs still stands |
| `ManifestUse.FreshManifestCurrent` | src/agent_orchestrator/artifacts/taskgraph_inputs.py:21-62 | a freshly resolved frozen manifest always passes in the state it was resolved in |
| `ManifestUse.AcceptedOnce` | src/agent_orchestrator/artifacts/input_bindings.py:840-1075 | every identity of a returned manifest was accepted exactly once |
| `ManifestUse.FrozenManifestLasts` | src/agent_orchestrator/artifacts/taskgraph_inputs.py:21-62 | after any further acceptances a resolved frozen manifest passes exactly when none repeats the identity of one of its inputs and no authorisation that an input follows has moved |
| `ManifestUse.StandsLater` | src/agent_orchestrator/artifacts/taskgraph_inputs.py:41-56 | an input that stood still stands after further acceptances, wherever each arrives, exactly when none repeats its identity and the authorisation it follows has not moved |
| `ManifestFacts.UseNeedsWitnesses` | src/agent_orchestrator/artifacts/input_bindings.py:698-761 | permission means that every input has a witness of its acceptance and support, issued to its consumer to start work, usable, at the epoch its scope is at, before its deadline, and current |
| `ManifestFacts.WitnessesDecideUse` | src/agent_orchestrator/artifacts/taskgraph_inputs.py:60-62 | a permitted manifest, looked at under another time, other epochs and other witnesses, stays permitted exactly when every witness stands under them, and is otherwise refused for its witness |
| `ManifestFacts.ResolvedWitness` | src/agent_orchestrator/artifacts/input_bindings.py:698-761 | the same of the bindings of a resolved manifest under any policy, with unknown scopes and missing witnesses only where the policy allows them |
| `ManifestFacts.RecognisedByIdentity` | src/agent_orchestrator/artifacts/taskgraph_inputs.py:41-46 | a frozen input recognises its output by everything but ordinal, order keys and disclosure |
| `ManifestCodec.DecodeFrozenManifest` | src/agent_orchestrator/artifacts/taskgraph_inputs.py:92-136 | what is accepted encodes to exactly the input, and every encoding of a well-formed frozen manifest is accepted and gives it back |
| `ManifestCodec.BindingRoundTrip` | src/agent_orchestrator/artifacts/taskgraph_inputs.py:107-130 | decoding the encoding of a well-formed binding gives it back |
| `ManifestCodec.EncodingInjective` | src/agent_orchestrator/artifacts/input_bindings.py:536-542 | two frozen manifests with one encoding are one manifest |
| `ManifestCodec.DecodableIff` | src/agent_orchestrator/artifacts/taskgraph_inputs.py:92-136 | what a frozen manifest is encoded to is accepted exactly when the manifest is well formed |
| `StoredManifests.ReadBackIff` | src/agent_orchestrator/artifacts/taskgraph_inputs.py:79-136 | a stored manifest is read back exactly when every field keeps its bounds, given by lengths, characters and numbers, its bindings name its consumer, and they stand in order under ids of their own |
| `ManifestCodec.StoredPathNotDecoded` | src/agent_orchestrator/artifacts/taskgraph_inputs.py:107-130 | a frozen manifest with the stored source path ` ./ a` is never decoded |
| `ManifestCodec.DecodeTargetRules` | src/agent_orchestrator/artifacts/taskgraph_inputs.py:145-162 | accepted target rules re-encode to exactly the input |
| `ManifestCodec.TargetRulesRoundTrip` | src/agent_orchestrator/artifacts/taskgraph_inputs.py:139-162 | decoding encoded rules gives them back if they are well formed and refuses them otherwise |
| `Materialisation.MaterialisePlan` | src/agent_orchestrator/artifacts/input_bindings.py:1156-1232 | the loops that group bindings by place and judge every place compute `PlanOf` |
| `Materialisation.PlanOkIff` | src/agent_orchestrator/artifacts/input_bindings.py:1156-1232 | a plan is without problems exactly when no target, as it is before it is respelled, leaves its namespace and no place, the key that targets are grouped under, has two contents |
| `Materialisation.EveryBindingPlacedOnce` | src/agent_orchestrator/artifacts/input_bindings.py:1190-1232 | a plan without problems lists every binding in exactly one entry |
| `Materialisation.EntriesArePlaces` | src/agent_orchestrator/artifacts/input_bindings.py:1190-1232 | for an ok plan of a manifest with unique binding ids: all entries are written to different targets, each at the place of every binding it lists, inside the namespace and with its content, exactly when writing a target leaves it at its place, for every target of the manifest |
| `Materialisation.SettledTargetsPlaced` | src/agent_orchestrator/artifacts/input_bindings.py:1212-1222 | the same in terms of the target's text: it is enough that the normaliser leaves every folded target as it is, which always holds when case matters, and it is needed where normalising keeps folded text folded |
| `Materialisation.EntriesApart` | src/agent_orchestrator/artifacts/input_bindings.py:1185-1222 | whatever folding and normalising do, two entries of an ok plan share a written target exactly when two targets that are grouped apart are respelled as one |
| `Materialisation.EntriesInside` | src/agent_orchestrator/artifacts/input_bindings.py:1212-1222 | whatever folding and normalising do, an entry of an ok plan is written outside the namespace exactly when a target of the manifest is respelled to leave it |
| `Materialisation.TwoContentsOneTarget` | src/agent_orchestrator/artifacts/input_bindings.py:1212-1222 | source paths ` ./ a` and `a` with different contents: an ok plan that writes both to one target |
| `Materialisation.WritesOutside` | src/agent_orchestrator/artifacts/input_bindings.py:1212-1222 | source path ` ./ ../a`: an ok plan that writes to `../a` |
| `PlanPlaces.EntryPath` | src/agent_orchestrator/artifacts/input_bindings.py:1104-1112 | the entry that lists a binding lies at the port's prefix, the source's namespace if preserved, and the source's path, joined by slashes, as normalised (and folded where case does not matter) |
| `PlanPlaces.NamespacesApart` | src/agent_orchestrator/artifacts/input_bindings.py:1087-1112 | with preserved namespaces, case mattering and joined texts left as they are, different contents from different namespaces, under one prefix or with one path, never contest a place: the only problems are escaping targets |
| `PlanPlaces.EntriesOfNamespacesApart` | src/agent_orchestrator/artifacts/input_bindings.py:1087-1112 | such sources never share a target in an ok plan |
| `PlanPlaces.PrefixMeetsNamespace` | src/agent_orchestrator/artifacts/input_bindings.py:1104-1112 | with different prefixes and different paths two namespaces can meet at one target |
| `PlanPlaces.ConflictReported` | src/agent_orchestrator/artifacts/input_bindings.py:1190-1211 | two contents that meet at one place are reported, with both requirements, artifacts and ports |
| `PlanPlaces.EscapeReported` | src/agent_orchestrator/artifacts/input_bindings.py:1170-1185 | a target with a segment `..` is reported under its requirement |
| `UnifiedDiff.ParseUnifiedDiff` | src/agent_orchestrator/artifacts/bound_workspace.py:169-219 | the line loop over current file, hunks, body and old start computes `Parse` |
| `UnifiedDiff.Rewrite` | src/agent_orchestrator/artifacts/bound_workspace.py:231-247 | the loop that rewrites the list of lines in place with a running offset takes one hunk after the other |
| `UnifiedDiff.ApplyHunks` | src/agent_orchestrator/artifacts/bound_workspace.py:222-251 | the applier, with its final line-feed fix-up, computes `Applied` |
| `UnifiedDiff.FilesPatchedByUnifiedDiff` | src/agent_orchestrator/artifacts/bound_workspace.py:141-162 | all the changed files, or the refusal of the first file that fails for the whole document |
| `DiffApplication.InTurnIsSimultaneous` | src/agent_orchestrator/artifacts/bound_workspace.py:229-247 | for hunks in order and apart, applying in turn succeeds exactly when each matches the original at its own position; the result is the original with every interval replaced at once, longer by the sum of the deltas |
| `DiffDocuments.AppliesIff` | src/agent_orchestrator/artifacts/bound_workspace.py:229-247 | hunks in order and apart apply exactly when every old line of every hunk, counted one by one, is the original's line at its position, line feeds aside, and no hunk reaches past the end |
| `DiffDocuments.AppliedText` | src/agent_orchestrator/artifacts/bound_workspace.py:248-251 | the resulting text; a line feed is added exactly when the original ends in one and the joined lines do not |
| `DiffDocuments.SidesAre` | src/agent_orchestrator/artifacts/bound_workspace.py:232-239 | the old side of a hunk is its context and removed lines, the new side its context and added ones, each in order |
| `DiffDocuments.InsertedBeyondEnd` | src/agent_orchestrator/artifacts/bound_workspace.py:240-242 | a hunk without old lines past the end is refused, although no old line differs |
| `DiffDocuments.OneLineRefusesDocument` | src/agent_orchestrator/artifacts/bound_workspace.py:141-162 | one old line that differs in any file refuses the whole document, as a mismatch of that file or for what refuses an earlier one |
| `DiffDocuments.DocumentExact` | src/agent_orchestrator/artifacts/bound_workspace.py:141-162 | a document applies exactly when every path is safe and in the seeds and its hunks apply; the result holds the new text of every file that changes, and nothing else |
| `DiffGrammar.HeaderIff` | src/agent_orchestrator/artifacts/bound_workspace.py:44 | a line is a hunk header exactly when it has the form `@@ -l[,s] +l[,s] @@`, whatever follows, and only the old start is kept |
| `DiffGrammar.OneFileParsed` | src/agent_orchestrator/artifacts/bound_workspace.py:169-219 | a section's path is that of its second header line, or else of its first; its lines are the context, removed and added ones, empty lines as context, remarks left out; without a path it says nothing |
| `DiffPrinting.ParsePrinted` | src/agent_orchestrator/artifacts/bound_workspace.py:169-219 | a printed multi-file diff is parsed to the patches it was printed from exactly when no changed line begins like a file header |
| `DiffRoundTrip.OutcomeReached` | src/agent_orchestrator/artifacts/bound_workspace.py:229-247 | what the applier makes of printed hunks, insertions included: an insertion lands above the last line so far, or is refused at the top |
| `DiffRoundTrip.ApplyPrinted` | src/agent_orchestrator/artifacts/bound_workspace.py:222-251 | printed hunks applied to the old text give the new text exactly when every insertion repeats the line before it and the file is not emptied |
| `DiffRoundTrip.RoundTrip` | src/agent_orchestrator/artifacts/bound_workspace.py:141-251 | printing the edits of any number of files, parsing and applying, gives exactly the files that change with their new texts |
| `DiffRoundTrip.Undo` | src/agent_orchestrator/artifacts/bound_workspace.py:141-251 | the same edits with additions and removals exchanged take every file back |
| `DiffRoundTrip.ReplacingIsFaithful` | src/agent_orchestrator/artifacts/bound_workspace.py:232-251 | edits with old and new lines in every hunk meet the condition of round trip and undo, both ways |
| `DiffRoundTrip.HeaderLikeLost` | src/agent_orchestrator/artifacts/bound_workspace.py:177-195 | a diff whose removed line begins `-- ` that is not read back |
| `DiffRoundTrip.InsertionMisplaced` | src/agent_orchestrator/artifacts/bound_workspace.py:239-246 | a line added at the end of a file lands above the last line |
| `DiffRoundTrip.EmptiedFileKeepsFeed` | src/agent_orchestrator/artifacts/bound_workspace.py:248-251 | a file emptied by a diff keeps one line feed |
| `ClockCertificates.WatchMeans` | src/agent_orchestrator/assurance/clock.py:23-29 | over every run, counting the readings that are not refused, the high-water mark is the maximum seen, the generation counts the entries into rollback, and the clock is in rollback exactly when the last reading is behind; a refused reading changes nothing |
| `ClockCertificates.RefusedIff` | src/agent_orchestrator/assurance/clock.py:18-29 | a reading is refused exactly when it is no stored time, or when it would open a rollback and the generation cannot grow |
| `ClockCertificates.SameGenerationIff` | src/agent_orchestrator/assurance/clock.py:23-29 | from a stable clock the generation stays exactly over the runs that never go back |
| `ClockCertificates.CertificateUse` | src/agent_orchestrator/api/assurance.py:242-267 | the classification of the newest certificate, with the reasons that apply in their order; usable exactly when there is none |
| `ClockCertificates.UseMeans` | src/agent_orchestrator/api/assurance.py:246-267 | unavailable exactly without a certificate, blocked exactly by the newest one's decision, usable exactly when no reason applies |
| `ClockCertificates.ReasonsMean` | src/agent_orchestrator/api/assurance.py:254-266 | each reason text with the condition it stands for, in order |
| `ClockCertificates.UsableIff` | src/agent_orchestrator/api/assurance.py:242-267 | a certificate issued under a stable clock is usable, at any time after any run of observations, exactly when it says so, root and epochs are the same, no observed reading went back and its deadline is ahead |
| `ClockCertificates.UsableSawTimesInOrder` | src/agent_orchestrator/api/assurance.py:242-267 | a usable certificate saw only non-decreasing observed readings; the time it is looked at, which is not observed, goes on in that order exactly when it is not below the high-water mark, and then the deadline is ahead of all of them; the readings alone are before the deadline exactly when the mark is |
| `ClockCertificates.UsableAfterDeadline` | src/agent_orchestrator/api/assurance.py:242-267 | a certificate whose deadline the clock has observed is usable again when it is looked at below the high-water mark |
| `ClockCertificates.RollbackIsFinal` | src/agent_orchestrator/assurance/clock.py:23-29 | after one rollback a certificate is never usable again |
| `PlanningGrants.PlanningAuthorizationApi.CheckMission` | src/agent_orchestrator/api/planning_authorization.py:87-95 | a mission passes exactly when it is there, of the caller's tenant and not terminal; the policy then becomes the mission's |
| `PlanningGrants.PlanningAuthorizationApi.PutGrant` | src/agent_orchestrator/storage/planning_admission_store.py:114-222 | the write transaction: all or nothing, the old row for a repeated command |
| `PlanningGrants.PlanningAuthorizationApi.IssueGrant` | src/agent_orchestrator/api/planning_authorization.py:114-221 | the new store and the answer are those of `Call` |
| `PlanningGrants.PlanningAuthorizationApi.ChangeGrant` | src/agent_orchestrator/api/planning_authorization.py:250-326 | the new store and the answer are those of `Call` |
| `PlanningGrants.PlanningAuthorizationApi.RenewGrant` | src/agent_orchestrator/api/planning_authorization.py:328-337 | a renewal is the change that keeps the grant active |
| `PlanningGrants.PlanningAuthorizationApi.RevokeGrant` | src/agent_orchestrator/api/planning_authorization.py:339-351 | a revocation without a reason is refused; otherwise it is the change that ends the grant |
| `GrantLineage.NextKeeps` | src/agent_orchestrator/storage/planning_admission_store.py:169-222 | every step of every interleaving keeps the invariant of log, waiting rows, answers and bindings |
| `GrantLineage.Lineage` | src/agent_orchestrator/api/planning_authorization.py:114-351 | over every run the revisions of a grant are 1, 2, 3, ... without gaps, its mission, tenant, scope, planner, policy hash and issuer never change, and a revoked grant is never active again |
| `GrantLineage.OneWinner` | src/agent_orchestrator/api/planning_authorization.py:280-326 | two commands that name the same expected revision and both take effect are one command |
| `GrantLineage.ChangeReplayed` | src/agent_orchestrator/api/planning_authorization.py:260-279 | resending an answered renewal or revocation returns its original row and writes nothing, in every later state |
| `GrantLineage.IssueReplayed` | src/agent_orchestrator/api/planning_authorization.py:131-155 | resending an answered issue, with any approval source, does so exactly while the mission is open under the same policy |
| `GrantLineage.AppliedOnce` | src/agent_orchestrator/storage/planning_admission_store.py:182-222 | a command makes at most one row however often it is sent, and every request binding repeats a row of the log |
| `GrantLineage.ChangeTakesEffect` | src/agent_orchestrator/api/planning_authorization.py:260-326 | a change writes exactly when it may: one row that follows the latest, active after a renewal, inactive after a revocation, with the right expiry |
| `GrantLineage.IssueTakesEffect` | src/agent_orchestrator/api/planning_authorization.py:131-221 | an issue writes exactly when it may: one active row of revision 1 with what was asked for, and the request bound to it |
| `GrantHistory.ClosedMissionIssues` | src/agent_orchestrator/api/planning_authorization.py:87-95 | while a mission is absent, another tenant's or terminal, every issue for it is refused and writes nothing |
| `GrantHistory.ClosedMissionChanges` | src/agent_orchestrator/api/planning_authorization.py:280-288 | so is every change of its grants under a new command; only a command already in the log is answered, with its own row |
| `GrantHistory.RowsWerePrepared` | src/agent_orchestrator/api/planning_authorization.py:87-221 | over every run each row was prepared by a command begun earlier, in a state in which its mission was present, of the caller's tenant and not terminal; a first row under the policy of that moment |
| `GrantHistory.NothingTakenBack` | src/agent_orchestrator/storage/planning_admission_store.py:114-222 | over every run no row and no binding of a request, once written, is taken back or overwritten |
| `GrantHistory.RowsAreSealed` | src/agent_orchestrator/api/planning_authorization.py:167-183 | over every run each row's receipt hash covers its command, grant, revision and grant hash, and its grant hash the content, times and standing of the grant |
| `Utf8.TextEncoded` | src/agent_orchestrator/api/facade.py:929-937 | what is decoded is written back as the bytes it was read from (sections 3 and 4 of RFC 3629) |
| `Utf8.Decoded` | src/agent_orchestrator/api/facade.py:929-937 | every encoding is valid, and decoding undoes it |
| `Utf8.CutLosesLittle` | src/agent_orchestrator/api/facade.py:928-937 | cutting a valid string anywhere loses at most three bytes, and the text is a prefix |
| `ArtifactHead.ReadChunks` | src/agent_orchestrator/api/facade.py:905-918 | for every chunking everything is hashed and the kept head is the first min(size, limit + 1) bytes |
| `ArtifactHead.ContentIsJoined` | src/agent_orchestrator/api/facade.py:914-918 | the content is the reads joined, wherever it was cut |
| `ArtifactHead.ReadArtifact` | src/agent_orchestrator/api/facade.py:905-937 | the answer is a function of the content alone |
| `ArtifactHead.TruncatedText` | src/agent_orchestrator/api/facade.py:928-937 | a truncated artifact is text exactly when its first bytes are UTF-8 up to the limit or at most three bytes short of it |
| `ArtifactHead.TextIsPrefix` | src/agent_orchestrator/api/facade.py:928-937 | UTF-8 content is always answered as text whose bytes are a prefix of the content, at most three short of the limit, and all of it when not truncated |
| `ArtifactHead.TextIsNeverReplaced` | src/agent_orchestrator/api/facade.py:928-937 | an answered text never differs from the content's own bytes, and content within the limit is text exactly when it is UTF-8 |
| `Base64Url.StrippedDecoded` | src/agent_orchestrator/api/assurance.py:129-143 | decoding undoes encoding with stripped padding (section 5 of RFC 4648) |
| `Base64Url.Decoded64` | src/agent_orchestrator/api/taskgraph.py:43-59 | decoding undoes encoding with its padding |
| `Base64Url.StraySkipped` | src/agent_orchestrator/api/assurance.py:133-143 | a stray ASCII character anywhere makes no difference to what a text decodes to; one that is not ASCII makes it unreadable |
| `CursorPaging.TokenRead` | src/agent_orchestrator/api/assurance.py:129-143 | a token is read back as its cursor, unless it is longer than the bound |
| `CursorPaging.TokenPinned` | src/agent_orchestrator/api/assurance.py:600-611 | a token is good for the snapshot it was made in and refused in every other |
| `Ordering.TextOrderIff` | src/agent_orchestrator/api/assurance.py:599 | texts are in order when the first begins the second, or has the smaller code point where they first differ |
| `CursorPaging.ItemOrder` | src/agent_orchestrator/api/assurance.py:599 | items are listed by kind, and by id within a kind |
| `CursorPaging.PagingExact` | src/agent_orchestrator/api/assurance.py:594-620 | following tokens ends with all the pages exactly when the token at every page boundary is short enough to be read; the pages make up the sorted items exactly when no tie stands across a boundary, so always for distinct keys |
| `CursorPaging.ExecutionExact` | src/agent_orchestrator/api/taskgraph.py:355-389 | following tokens ends with all the pages exactly when the token at every page boundary is short enough to be read; they hold every node once, in order, and every edge that leaves a node exactly as often as the view does |
| `CursorPaging.TieLost` | src/agent_orchestrator/api/assurance.py:611-620 | of two items with one key on two sides of a page boundary, one is never shown |
| `CursorPaging.LongTokenStops` | src/agent_orchestrator/api/assurance.py:133-143 | an item whose id has 1537 characters or more, at a page boundary: the page is answered with a token that is refused |
| `Citations.PhysicalLines` | src/agent_orchestrator/api/citations.py:38-51 | the loop over the matches computes the split |
| `Citations.SplitGivesLines` | src/agent_orchestrator/api/citations.py:38-51 | splitting loses nothing, never tears a carriage return from its line feed, and gives non-empty lines with a line end only at their end |
| `Citations.SplitUnique` | src/agent_orchestrator/api/citations.py:38-51 | the lines of a text are the only such list that makes it up |
| `Citations.SpanFound` | src/agent_orchestrator/api/citations.py:54-58 | a citation is found exactly when 1 <= first <= last and its last line is there; one line is cited as itself, more as one after the other |
| `Citations.SpanInSource` | src/agent_orchestrator/api/citations.py:54-58 | the display block is a piece of the source, between the lines before it and the lines after it |
| `Citations.PagesGiveSpan` | src/agent_orchestrator/api/citations.py:146-188 | following `next_offset` from 0 gives exactly the display block, for every page size |

## Left out

- The string-level path normaliser and Unicode case folding: parameters of the model. What is asked of folding
  on case-insensitive targets is in `Materialisation.FoldingLaws` and `StaysFolded`: a folded path stays
  folded, also when characters of it are left out, and folding invents no `..`.
- SHA-256 and JSON text: digests are arbitrary functions, assumed injective only where a grant theorem says
  so; canonical JSON is abstracted to JSON values, cursor JSON to a rendering that parsing undoes.
- `explain`, message texts, `plan_hash` and the JSON forms of refusals: projections without a property of
  their own.
- Digits other than ASCII in hunk headers, which a regular expression would also accept.
- Diffs without a final line feed and files whose last line has none: parsed and applied by the model, but
  the round-trip theorems are about newline-terminated texts.
- `overlay_bound_producer_files` and `bound_artifacts_named_in_envelope`: lookups by path.
- `bind_request`, the event recorded beside a grant row and the row's creation time: plain inserts.
- SQL, transactions and file access: a transaction is one atomic step; the steps of different calls
  interleave.
- The decoders of `contracts/semantic_base.py` and `contracts/htn.py`: their field checks are modelled as far as
  `decode_frozen_manifest` meets them, in `VersionedRef` and `BoundInput`.
- Building snapshots, convergence views, history items, facade whitelisting, approvals and operations:
  projections of tables that are not part of this model.
