# Verified model of the certification, disposable-resource and extraction logic

This project models the parts of the repository in which being wrong is quiet: the code that decides whether
profiles agree, the scripts that own remote resources for a while, the extractor of reference closures, the
expression grammar, the snapshot inventory and the physical naming. `dafny verify dfyconfig.toml` checks it.

Code that changes state is modelled by classes and methods whose `ensures` equate the new state with a
specification function of the old one; the properties are lemmas about those functions. Code made of expressions
is modelled by functions.

## What is modelled

**The conformance verdict pipeline.** A scenario step calls a target (any deterministic state machine over JSON),
transfers bytes, or races several calls. `Matching` has the three recursive walks of the runner (`resolveRefs`,
`normalize`, `diff`), `Runner` the run itself with its four growing stores, `Walk` and `Differential` the pairwise
comparison, `Manifest` the certification decisions. On top of them:

- `References`: what resolving and normalizing leave at each place of a value. `Places`: `diff` and `walk` report exactly
  the places at which two values do not fit, and what they hold there.
- `Verdicts` and `Records`: a step adds a failure if and only if it does not get what it asks for, whatever its kind, and
  what it leaves in the stores. `Comparison`: which differences two runs have.
- `Simulation`: two targets whose generated ids correspond under an injective renaming produce runs that fail at
  the same steps and paths; `Surfacing`: they leave the same records exactly if the renamed strings have surfaced as
  ids; `TwinDrift`: whether two such profiles drift can be read off the records of one of them.
- `RunLaws`: when polling stops because the probe accepted, the step adds no failure; every match survives the capture
  of an id exactly unless the id is spelled like the placeholder of an earlier one.
- `Agreement`: `walk` is silent exactly on equal trees, except that an array's `length` is read as a property.
  `Transitivity`: when agreement is transitive, in both directions, and agreement in two steps, which is exactly
  equality after erasing the explained keys.
- `Drift` and `Release`: `drift: "none"` means complete, failure-free runs that agree pairwise before the first
  race, whatever the order of the targets; and what a certified profile then is, in both directions.

**Owned disposable resources.** Three scripts save an intent, create a remote resource, and forget the intent only
after a confirmed delete or a 404. A run is given by how it is started, by the fate of each remote call (answered;
applied with the reply lost or unusable; lost before it arrived; turned down; or, at a Worker's URL, answered by the
platform with a 404 of its own) and by where it crashes; a history is
any sequence of runs over the same state file. `Custody` has what they share, `Publication`, `Binding` and
`Artifacts` the scripts, the modules named `…Safety` the invariants of every world in every history, and those named
`…Exit` what the exit code says.

**Reference closure.** `Pointer` (JSON Pointer, section 4 of RFC 6901), `Closure` (the walk with its growing set and
copy), `Selecting` (what is selected), `Fixture` (the whole extraction) and `Escaping` (one whose copy is not closed).

**Expression grammar, snapshot inventory, naming.** `Expression` with `Precedence`, `Inventory` with `Snapshot`, and
`Naming`.

`Text`, `Assoc`, `Iteration` and `Json` hold decimal numerals and splitting, insertion-ordered records, iteration
with its induction principles, and the JSON type with an explicit `Undefined`.

## Findings

Each bullet names the proofs.

- `Agreement.LengthIsRead`: `walk` reports no difference between `[]` and `{"length": 0}`. `Agreement.WalkExact`
  shows that this reading of `length` is the only exception to tree equality. It also makes agreement intransitive
  (`Transitivity.LengthBreaksTransitivity`): `{}` agrees with `[]`, and `[]` with `{"length": 0}`.
  `Transitivity.AgreeingTransitive` is the exact condition: with flat values under explained keys, agreement carries
  over a middle value if and only if no array in it stands between two objects of which only one has a `length`.
- `Transitivity.AgreeingNotTransitive`: under an explained key, `{x: 1}` agrees with `5` and `5` with `{x: 2}`, but the
  two objects do not agree with each other. `Transitivity.TransitiveExactly` is the exact condition: apart from `length`,
  agreement is transitive from a value if and only if its explained keys hold no arrays or objects.
- `Matching.UndefinedBreaksTransitivity`: an expected property that resolves to `undefined` matches an absent one, so
  matching is not transitive. `Matching.ContainedTransitiveExactly`: it is, if and only if the first value has no such
  property.
- `RunLaws.ShadowFailsStep`: if a target gives out an id spelled like the placeholder `$id:k` of a known id, a step
  that the probe accepts can fail. `RunLaws.AcceptanceIsFinal` shows that nothing else makes it fail, unless its
  expectation names the step itself; and that cause is real too (`RunLaws.SelfReferenceFailsStep`).
- `TwinDrift.ErrorIdsDrift`: errors are recorded as they come, ids included. Two profiles that differ in nothing but
  their generated ids, and give the expected error, drift when its detail carries the id. `TwinDrift.TwinVerdict` is the
  exact condition, and `TwinDrift.SurfacedConcurExactly` shows that error details are the only such place once every
  renamed string surfaces as an id in time.
- `PublicationSafety.SafeExactlyUnspoiled`: a full publication run in a directory whose state file still has the
  database id of an earlier run can leak a database. If the reply to its creation is lost, cleanup deletes the old
  id, takes the 404 for success and forgets the new database. Every other start is safe;
  `PublicationSafety.SafeExactlyHarmless` says which ones can be told before the start.
- `BindingSafety.LeaksExactly`: the binding script takes any 404 on `DELETE /repo` as deleted, also the platform's own
  (which `scripts/artifact_probe.py` knows as code 1042). A session forgets its repository exactly if that request gets
  the platform's 404 while the repository exists; `BindingSafety.SafeExactlyHarmless` says which starts exclude it.
- `Escaping.EscapingExtraction`: a reference that ends in a member called `$ref` plants the string it finds there as a
  reference of the copy. `Closure.CopyClosed` shows that the copy is closed if and only if every string planted by a
  reachable reference is reachable for another reason.
- `Naming.DashCollides`: declaration names may contain dashes, and `a-b` shares the path segment of `aB`.
  `Naming.KebabCollides` decides the collision of any two names, `Naming.SnakeCollidesExactly` and
  `Naming.PhysicalCollidesExactly` do so for `snake`, tables and columns.
- `Drift.CompareMeaning`: the comment on `compareReports` says that from the first race on records are compared for
  shape; the code compares nothing there, every difference is explained. The model follows the code.

## Model

| member | source | states |
|---|---|---|
| Matching.FailureLog.Diff | conformance/src/runner.ts:81-95 | `diff` pushes exactly the failures that the specification lists for the two values, after those already there, and changes nothing else |
| Matching.FailureLog.DiffFields | conformance/src/runner.ts:82-88 | the loop over the properties an expected object names, in their order |
| Matching.FailureLog.DiffItems | conformance/src/runner.ts:89-93 | the loop over two arrays of equal length |
| Matching.DiffDecides | conformance/src/runner.ts:80-95 | `diff` reports nothing if and only if the expected value is recursively contained in the actual one |
| Matching.ContainedReflexive | conformance/src/runner.ts:81-95 | every value without repeated keys matches itself |
| Matching.ContainedTransitive | conformance/src/runner.ts:81-95 | matching is transitive when no object property of the first value is `undefined` |
| Matching.ContainedTransitiveExactly | conformance/src/runner.ts:81-95 | from a value without repeated keys it is transitive if and only if that holds |
| Matching.UndefinedBreaksTransitivity | conformance/src/runner.ts:85 | the smallest case in which it is not: `{k: undefined}`, `{}`, `{k: null}` |
| Matching.ContainedMap | conformance/src/runner.ts:81-95 | applying one function to the strings of both sides keeps a match |
| Matching.DiffsMap | conformance/src/runner.ts:81-95 | under an injective function on strings `diff` reports the same steps and paths |
| References.ResolvedAt | conformance/src/runner.ts:59-78 | at every path of a value, in objects and arrays: resolving keeps the shape and the keys; a `$step.path` whose step succeeded becomes what its answer has there, key by key; `$id:n` becomes the n-th id when asked for and known; nothing else changes |
| References.LeafExact | conformance/src/runner.ts:60-68 | what a string stands for is one value, and resolving gives it |
| References.NormalizedAt | conformance/src/runner.ts:97-113 | at every path that does not go through a dropped property: the volatile properties are gone, a known id is the placeholder of its first place, and nothing else changes |
| Places.DiffFinds | conformance/src/runner.ts:81-95 | `diff` reports a failure if and only if at its path the two values hold its two sides and these do not fit |
| Renaming.NormalizeRenamed | conformance/src/runner.ts:97-113 | normalizing a renamed value against the renamed ids renames the normalized value |
| Renaming.SurfacedErases | conformance/src/runner.ts:97-113 | a normalized value shows no trace of the renaming if and only if every moved string at a kept place is a captured id |
| Renaming.NormalizeCaptured | conformance/src/runner.ts:99-113 | normalizing with one more id is replacing that id in the value normalized before, unless it is spelled like a known placeholder |
| Renaming.ResolveRenamed | conformance/src/runner.ts:59-78 | resolving commutes with the renaming, in both modes |
| Runner.Session.constructor | conformance/src/runner.ts:116-121 | a run starts from the reset target with empty stores |
| Runner.Session.Capture | conformance/src/runner.ts:181-184 | a new string under `id` of a successful object result is appended, anything else leaves the ids alone |
| Runner.Session.Transfer | conformance/src/runner.ts:124-140 | the world after a transfer step: status and text verdicts, the record, and the early exit without transfer support |
| Verdicts.CallVerdict | conformance/src/runner.ts:163-198 | a call step adds no failure if and only if its last answer is the expected error, or a value that contains the expected one, judged with itself and its id among the stores |
| Verdicts.CalledExact | conformance/src/runner.ts:163-179 | the answer a step ends with is that to its last call: the first one that brings what is expected, or the last one allowed, all with the resolved input and the step's context |
| Verdicts.RaceVerdict | conformance/src/runner.ts:141-151 | a race adds no failure if and only if as many calls succeed as wanted and all others fail with an allowed code |
| Verdicts.TransferVerdict | conformance/src/runner.ts:124-139 | a transfer adds no failure if and only if the target supports it, the status is the one asked for or starts with its digit, and the text is as expected |
| Verdicts.RunVerdict | conformance/src/runner.ts:115-201 | the steps named by the failures of a report are exactly those that did not get what they asked for; it has none if and only if every step did |
| Records.CallLeaves | conformance/src/runner.ts:180-186 | what a call leaves: its answer, the id it brings, and the record normalized with that id, an error being kept as it came |
| Records.RaceLeaves | conformance/src/runner.ts:152-160 | what a race leaves: the first success, the id it brings, and a record of how many succeeded and of the sorted codes of the others |
| Runner.Session.PushCodeFailures | conformance/src/runner.ts:149-151 | one failure for each error outcome whose code is not expected, in order |
| Runner.Session.Race | conformance/src/runner.ts:141-162 | the world after a race step: counts, codes, the first winner as the step's raw result, the sorted record |
| Runner.Session.CallAndPoll | conformance/src/runner.ts:163-179 | the target state, result and number of calls after the `eventually` loop |
| Runner.Session.Call | conformance/src/runner.ts:163-198 | the world after a call step, with its verdict given against the ids known after the capture |
| Runner.Session.Take | conformance/src/runner.ts:123-199 | the world after any step |
| Runner.Session.TakeAll | conformance/src/runner.ts:123-199 | the world after all steps is the iterated step |
| Runner.RunScenario | conformance/src/runner.ts:115-201 | the report of a run and the state it leaves the target in |
| RunLaws.CallsBounded | conformance/src/runner.ts:165-179 | the target is called at least once and at most `max(1, attempts)` times, fewer only if the probe accepted |
| RunLaws.AcceptanceIsFinal | conformance/src/runner.ts:167-198 | a result the probe accepted adds no failure, although a result and perhaps an id came in between |
| RunLaws.CaptureExact | conformance/src/runner.ts:109-111 | every match survives the capture of an id if and only if the id is not spelled like a known placeholder |
| RunLaws.ShadowBreaks | conformance/src/runner.ts:109-111 | an expectation and a result for each id that is |
| RunLaws.ShadowFailsStep | conformance/src/runner.ts:167-198 | for such an id, in any world with any target that answers so, a step the probe accepts adds a failure |
| RunLaws.SelfReferenceFailsStep | conformance/src/runner.ts:167-198 | a step `s` that expects `$s.x` and is answered with that text is accepted by the probe and adds a failure |
| RunLaws.RaceRecordOrderFree | conformance/src/runner.ts:144-160 | a race record depends only on the multiset of outcomes, not on who won |
| RunLaws.StepRecords | conformance/src/runner.ts:138-186 | a step that adds no failure leaves exactly its own record |
| RunLaws.CleanRunRecordsAll | conformance/src/runner.ts:115-201 | a run without failures has one record for every step, in step order |
| Simulation.RunsFailAlike | conformance/src/runner.ts:115-201 | two targets alike up to a renaming fail at the same steps and paths, with corresponding ids and raw results |
| Simulation.RunsRecordAlike | conformance/src/runner.ts:115-201 | if every renamed string surfaces as an id before a record shows it, the records are identical, errors equal up to the renaming |
| Surfacing.RecordsAlikeExactly | conformance/src/runner.ts:115-201 | with distinct step names the records are alike if and only if every renamed string surfaces as an id in time |
| Surfacing.MintsAlike | conformance/src/runner.ts:180-186 | two targets whose ids differ: their records are alike exactly when the second string they answer is not the other id |
| TwinDrift.ShowsExactly | conformance/src/differential.ts:24-48 | a value agrees with its renaming if and only if no moved string stands outside the explained keys |
| TwinDrift.TwinsConcurExactly | conformance/src/differential.ts:50-70 | two profiles alike up to a renaming agree before the first races if and only if the records of the first show no moved string outside the explained keys; they have failures together |
| TwinDrift.TwinVerdict | conformance/src/differential.ts:72-96 | two such profiles have no drift if and only if the first run has no failure and shows no moved string before the first races |
| TwinDrift.SurfacedConcurExactly | conformance/src/runner.ts:180-186 | once renamed strings surface as ids in time, that comes down to the details of the first run's errors |
| TwinDrift.ErrorIdsDrift | conformance/src/runner.ts:185-191 | two profiles alike up to their ids, both without failures, drift when the expected error carries the id in its detail |
| Walk.DifferenceLog.Walk | conformance/src/differential.ts:36-48 | `walk` pushes exactly the differences the specification lists |
| Walk.DifferenceLog.WalkItems | conformance/src/differential.ts:37-41 | the loop over two arrays, which passes their key through |
| Walk.DifferenceLog.WalkKeys | conformance/src/differential.ts:42-46 | the loop over the union of the keys of two containers |
| Walk.WalkSwaps | conformance/src/differential.ts:36-48 | exchanging the arguments reports the same places, keys and verdicts with the sides exchanged |
| Places.WalkFinds | conformance/src/differential.ts:18-48 | `walk` reports a difference if and only if at its path the two arguments hold its two sides and these differ; it is explained if and only if the last property name on the path is a provider's |
| Agreement.WalkSilent | conformance/src/differential.ts:36-48 | `walk` reports nothing if and only if the values agree at every key |
| Agreement.WalkExact | conformance/src/differential.ts:36-48 | on JSON that is equality, arrays read as index-keyed objects, except for an array's `length` |
| Agreement.LengthIsRead | conformance/src/differential.ts:42-45 | the exception is real: `[]` and `{length: 0}` |
| Agreement.WalkAgrees | conformance/src/differential.ts:24-48 | `walk` leaves nothing unexplained if and only if the values agree outside the explained keys |
| Agreement.ExplainedAgreementExact | conformance/src/differential.ts:18-48 | with flat values under explained keys that is equality after erasing those keys |
| Agreement.AgreeingReflexive | conformance/src/differential.ts:36-48 | agreement is reflexive |
| Agreement.AgreeingSymmetric | conformance/src/differential.ts:36-48 | agreement is symmetric |
| Transitivity.AgreeingTransitive | conformance/src/differential.ts:36-48 | for JSON with flat explained values at both ends: of three values that agree in two steps the outer ones agree if and only if no array in the middle stands between two objects of which only one has a `length` |
| Transitivity.LengthBreaksTransitivity | conformance/src/differential.ts:42-45 | the smallest case in which they do not: `{}`, `[]` and `{length: 0}` |
| Transitivity.TransitiveExactly | conformance/src/differential.ts:24-48 | apart from `length`, agreement is transitive from a JSON value if and only if its explained keys hold no arrays or objects |
| Transitivity.AgreeingNotTransitive | conformance/src/differential.ts:24-48 | a family of triples for every explained key that holds an object |
| Transitivity.LinkedExact | conformance/src/differential.ts:24-48 | whatever explained keys hold, a third value links two if and only if the two are equal after erasing those keys |
| Differential.WalkRecords | conformance/src/differential.ts:62-67 | the tagged differences of one step |
| Differential.CompareStepsOf | conformance/src/differential.ts:60-67 | the loop over the left report's steps, with the race flag that stays set |
| Differential.CompareReports | conformance/src/differential.ts:55-70 | the differences of two runs, an absent scenario being one unexplained difference |
| Differential.RunProfile | conformance/src/differential.ts:80-81 | the reports of one profile over all scenarios, its state threaded through |
| Differential.RunCandidates | conformance/src/differential.ts:76-84 | the map of runs and the list of profiles, skipped ones with their reason |
| Differential.ComparePairs | conformance/src/differential.ts:85-93 | the pairs and differences the two nested loops gather |
| Differential.RunDifferential | conformance/src/differential.ts:72-96 | the report, or the exception for a foreign bundle or a source that changed |
| Comparison.CompareExact | conformance/src/differential.ts:55-70 | two runs have exactly the differences of the records of each step, explained from a scenario's first race on, and one unexplained difference for each scenario the second run lacks |
| Comparison.RunsThread | conformance/src/differential.ts:80-81 | the report of a scenario is that of its run from the state the scenarios before have left |
| Comparison.TenantsDiffer | conformance/src/differential.ts:81 | each scenario of a profile, and each profile, runs in a tenant of its own |
| Comparison.PairExact | conformance/src/differential.ts:89-93 | a pair names its runs, compares every step of every scenario if the first run is complete, and counts its explained and its unexplained differences |
| PairLoops.PositionsOnce | conformance/src/differential.ts:89 | the nested loops visit every two runs, and only once |
| Drift.PairTotal | conformance/src/differential.ts:89-93 | n runs give n (n - 1) / 2 pairs |
| Drift.PairsAtPositions | conformance/src/differential.ts:89-93 | the k-th pair compares the two runs at the k-th position |
| Drift.PairsAccount | conformance/src/differential.ts:89-95 | the counts of the pairs add up to the differences listed, and none is unexplained if and only if every pair says so |
| Drift.CompareMeaning | conformance/src/differential.ts:50-70 | two complete runs compare without unexplained difference if and only if each step before its scenario's first race agrees |
| Drift.CleanIsComplete | conformance/src/differential.ts:80-83 | a profile without failures has a record of every step of every scenario |
| Drift.DriftMeaning | conformance/src/differential.ts:72-96 | `drift: "none"` if and only if every profile that ran has no failure and every two agree before the first races |
| Drift.NoDriftIsComplete | conformance/src/differential.ts:72-96 | and then every profile that ran is complete |
| Drift.DriftOrderFree | conformance/src/differential.ts:55-96 | the drift verdict does not depend on the order of the targets |
| Manifest.BuildManifest | scripts/release-manifest.ts:52-82 | a combination is certified, and a required name not listed as missing, if and only if the evidence for its profile stands; full support is claimed if and only if all of it does |
| Manifest.LiveExact | scripts/release-manifest.ts:48-66 | a live profile is certified if and only if a certified run of the current build and identity, in time, retained that target with all scenarios passed, some step and realtime |
| Manifest.LocalExact | scripts/release-manifest.ts:68-74 | a local profile is certified if and only if the whole suite passed on the current identity, in time and without drift, and the profile ran everything without a failure and was compared with another that did |
| Manifest.MissingExactly | scripts/release-manifest.ts:82 | the names listed as missing are the required profiles whose evidence does not stand |
| Manifest.AllRequiredExact | scripts/release-manifest.ts:59-82 | full support is claimed if and only if there is no reason against any of the five required profiles |
| Manifest.CertificationWindow | scripts/release-manifest.ts:49-82 | for fixed evidence the moments of full certification are none, or the interval from a minute before the later to 90 days after the earlier evidence |
| Manifest.EvidenceTooFarApart | scripts/release-manifest.ts:49-82 | evidence more than 90 days and a minute apart never certifies all five |
| Release.RunCertifies | scripts/release-manifest.ts:67-74 | completeness: a fresh run without drift over all scenarios certifies each local profile that ran, given a second one and some step |
| Release.CertifiedMeans | scripts/release-manifest.ts:67-74 | soundness: a certified profile ran completely and without failure, and agrees with another that did |
| Release.AloneIsNotCertified | scripts/release-manifest.ts:71 | a report in which only one profile ran certifies none |
| ReleaseWitness.CertificationHappens | scripts/release-manifest.ts:67-74 | the hypotheses of these theorems can be met: two targets that answer alike certify each other |
| Custody.Machine.Save | scripts/qualify-artifact-publication.py:98-101 | memory becomes the state file, and that is a world a crash may leave |
| Custody.HistoryInduction | scripts/qualify-artifact-publication.py:85-95 | what every allowed run keeps in all its worlds, every history of allowed runs keeps, crashes included |
| Publication.Create | scripts/qualify-artifact-publication.py:104-121 | a creation by its fate; a taken name is turned down, a Worker is replaced |
| Publication.DeleteKind | scripts/qualify-artifact-publication.py:127-147 | the delete of one kind; a database without a saved id is looked up by its name |
| Publication.Cleanup | scripts/qualify-artifact-publication.py:124-160 | the state after a pass in reverse order, and its failures |
| Publication.Provision | scripts/qualify-artifact-publication.py:176-285 | intent, save and create for repository, database and Worker, stopping at the first exception |
| Publication.Qualify | scripts/qualify-artifact-publication.py:163-431 | the whole script; cleanup happens however the first part ended |
| PublicationExit.ExitExactly | scripts/qualify-artifact-publication.py:163-431 | which status a session reports; it exits with 0 if and only if nothing stays recorded and it only cleaned up, or started from an empty record without a fixture, was built, had every creation answered under a free name, was deployed if asked for, and passed the pilot |
| PublicationSafety.DeletedKindMeans | scripts/qualify-artifact-publication.py:127-153 | a confirmed delete, and a 404, mean that the object is gone |
| PublicationSafety.CleanedMeans | scripts/qualify-artifact-publication.py:124-160 | a pass leaks nothing and leaves recorded as many resources as it counts failures |
| PublicationSafety.ExitZeroIsClean | scripts/qualify-artifact-publication.py:352-431 | exit code 0 means nothing is recorded and nothing exists, however the session was started |
| PublicationSafety.NeverLeaks | scripts/qualify-artifact-publication.py:124-431 | in every world of every history in which no run provisions over an old database id, whatever exists is recorded |
| PublicationSafety.FreshDirectoryNeverLeaks | scripts/qualify-artifact-publication.py:166-169 | a fresh directory and then cleanups only: no leak |
| PublicationSafety.StaleDatabaseLeaks | scripts/qualify-artifact-publication.py:137-153 | the fates that leak a database when an old id is recorded |
| PublicationSafety.SafeExactlyUnspoiled | scripts/qualify-artifact-publication.py:124-353 | a start is safe for all fates if and only if it does not provision over an old database id |
| PublicationSafety.SafeExactlyHarmless | scripts/qualify-artifact-publication.py:163-175 | by what can be checked before the start: safe in all worlds that fit the state file, for all outcomes and fates, if and only if it only cleans up, or records resources, or has a fixture directory, or records no database id |
| PublicationSafety.AnsweredCleanupEmpties | scripts/qualify-artifact-publication.py:124-160 | one cleanup with all calls answered empties any safe state and exits with 0 |
| PublicationSafety.SecondPassIsIdle | scripts/qualify-artifact-publication.py:124-160 | a further cleanup makes no call and changes nothing |
| Binding.DeleteRepo | scripts/qualify-artifact-binding.py:101-107 | the delete through the Worker at the saved URL, any 404 taken as deleted, the platform's own included |
| Binding.ProvisionWorker | scripts/qualify-artifact-binding.py:182-203 | Worker intent, PUT, subdomain, URL saved, readiness |
| Binding.ProvisionRepo | scripts/qualify-artifact-binding.py:204-221 | repository intent, one creation through the Worker, one read |
| Binding.Cleanup | scripts/qualify-artifact-binding.py:258-287 | repository first; the Worker only when no repository is recorded |
| Binding.Qualify | scripts/qualify-artifact-binding.py:48-307 | the whole script, refusing without cleanup when an intent remains |
| BindingExit.ExitExactly | scripts/qualify-artifact-binding.py:48-307 | which status a session reports; it exits with 0 if and only if nothing stays recorded and it only cleaned up, or started without intents, had its six calls answered and passed the publication |
| BindingSafety.WorkerOutlivesRecord | scripts/qualify-artifact-binding.py:182-287 | in every world of every history, whatever the fates, a recorded repository has a recorded, existing Worker with a saved URL, and an existing Worker is recorded |
| BindingSafety.WorkerOutlivesRepo | scripts/qualify-artifact-binding.py:182-287 | in every world of every history in which no delete of an existing repository gets the platform's own 404, nothing leaks, and the Worker exists as long as the repository does |
| BindingSafety.CleanedMeans | scripts/qualify-artifact-binding.py:258-287 | whatever the fates, cleanup without failures leaves nothing recorded, and a repository that stays recorded keeps its Worker; nothing leaks unless the platform's 404 answers the delete |
| BindingSafety.LeaksExactly | scripts/qualify-artifact-binding.py:101-107 | a session leaks if and only if the platform's own 404 answers the delete of its existing repository |
| BindingSafety.SafeExactlyHarmless | scripts/qualify-artifact-binding.py:48-49 | by what can be checked before the start: a start is safe in all worlds that fit the state file and for all fates if and only if it is refused, or only cleans up and no repository is recorded |
| BindingSafety.ExitZeroIsClean | scripts/qualify-artifact-binding.py:258-307 | exit code 0 means nothing is recorded and no Worker exists; a repository exists exactly if its delete got the platform's own 404 |
| BindingSafety.AnsweredCleanupEmpties | scripts/qualify-artifact-binding.py:258-287 | one cleanup with both calls answered empties any safe state and exits with 0 |
| BindingSafety.SecondPassIsIdle | scripts/qualify-artifact-binding.py:258-287 | a cleanup makes no call and changes nothing if and only if nothing is recorded |
| Artifacts.CleanItem | scripts/qualify-artifacts.py:113-126 | one turn of cleanup: forgotten on success and on 404 |
| Artifacts.CleanUp | scripts/qualify-artifacts.py:111-127 | the state after a pass and its failures, or the exception that a lost call raises through it |
| Artifacts.Recreate | scripts/qualify-artifacts.py:456-465 | up to twenty creations, only a `RuntimeError` being tried again |
| Artifacts.Replace | scripts/qualify-artifacts.py:455-466 | delete, create again, and the check of the identity |
| Artifacts.Qualify | scripts/qualify-artifacts.py:150-485 | the whole script with its exit code, `--cleanup-only` and `--keep-on-failure` |
| ArtifactsExit.ExitExactly | scripts/qualify-artifacts.py:150-485 | a session exits with 0 if and only if nothing stays recorded and it only cleaned up, or started from an empty record, made and replaced everything, and passed every check |
| ArtifactsSafety.NeverLeaks | scripts/qualify-artifacts.py:111-485 | in every world of every history, however the runs are started, whatever exists is recorded |
| ArtifactsSafety.ReplacedSafe | scripts/qualify-artifacts.py:454-466 | deleting and creating again under one name keeps that: the record covers the successor |
| ArtifactsSafety.CleanedMeans | scripts/qualify-artifacts.py:111-127 | a pass that ends leaves recorded as many resources as it reports failures |
| ArtifactsSafety.AbortsExactly | scripts/qualify-artifacts.py:118-126 | a pass ends early if and only if one of its calls is lost; a delete that is turned down does not stop it |
| ArtifactsSafety.ExitZeroIsClean | scripts/qualify-artifacts.py:150-153 | exit code 0 means nothing is recorded and nothing exists |
| ArtifactsSafety.AnsweredCleanupEmpties | scripts/qualify-artifacts.py:111-127 | one cleanup with all calls answered empties any world without a leak |
| ArtifactsSafety.SecondPassIsIdle | scripts/qualify-artifacts.py:111-127 | a further cleanup makes no call and changes nothing |
| ArtifactsSafety.RecreatedExactly | scripts/qualify-artifacts.py:456-465 | under a free name it succeeds if and only if the first call not rejected is answered; then one repository was created |
| ArtifactsSafety.PreparedIdentity | scripts/qualify-artifacts.py:243-257 | when the repository comes to be replaced, the identity on record is its own and was given out before |
| ArtifactsSafety.SuccessorIsNew | scripts/qualify-artifacts.py:454-466 | in any session that comes to it, replacing fails only by its calls: with identities never given out twice, the comparison of the two never fails |
| Pointer.UnescapeEscape | research/cf-forge/extract-fixtures.py:19 | the two replacements undo the escapes of RFC 6901, section 3, in this order |
| Pointer.SetPathSame | research/cf-forge/extract-fixtures.py:21-23 | writing a value where it already is changes nothing, so writes through shared objects are harmless |
| Pointer.SetPathSub | research/cf-forge/extract-fixtures.py:21-23 | building stubs and overwriting in the copy keeps it a sub-document |
| Pointer.SetPathKeeps | research/cf-forge/extract-fixtures.py:21-23 | and keeps what the copy already answers as the document does |
| Pointer.SetPathPart | research/cf-forge/extract-fixtures.py:21-23 | all this also while the copy has empty components of its own, whatever the document has there |
| Pointer.SetPathPartKeeps | research/cf-forge/extract-fixtures.py:21-23 | and then too what was answered stays answered |
| Pointer.SetPathHere | research/cf-forge/extract-fixtures.py:21-23 | what is written at a path is read there |
| Pointer.SetPathElsewhere | research/cf-forge/extract-fixtures.py:21-23 | and a path that leads elsewhere reads as before |
| Closure.PathOfPointer | research/cf-forge/extract-fixtures.py:19 | each path of property names is recovered from the pointer that RFC 6901 writes for it |
| Closure.RefsExact | research/cf-forge/extract-fixtures.py:11-24 | the references of a value are the strings that objects anywhere inside it have at `$ref` |
| Closure.Extractor.Walk | research/cf-forge/extract-fixtures.py:11-24 | the walk ends; the references grow by exactly what a least closure needs; the copy stays a sub-document that answers them; it succeeds if all references it reaches are strings that resolve |
| Closure.Extractor.Visit | research/cf-forge/extract-fixtures.py:16-23 | the same for one reference, with the errors for external and unresolvable ones |
| Closure.Extractor.WalkItems | research/cf-forge/extract-fixtures.py:12-13 | the same for the items of an array |
| Closure.Extractor.WalkFields | research/cf-forge/extract-fixtures.py:24 | the same for the values of an object |
| Closure.GrewIsReachable | research/cf-forge/extract-fixtures.py:10-26 | the collected set is exactly what chains of references reach from the selection |
| Closure.LeastUnique | research/cf-forge/extract-fixtures.py:10-26 | two complete walks collect the same set |
| Closure.CopyClosed | research/cf-forge/extract-fixtures.py:16-23 | after a complete walk every reference in the copy is a collected one if and only if each string planted by a reachable reference ending in `$ref` is reachable |
| Closure.SetPathRefs | research/cf-forge/extract-fixtures.py:21-23 | writing a value brings into the copy only its references, and itself when a string is written at `$ref` |
| Fixture.SkeletonSub | research/cf-forge/extract-fixtures.py:9 | the selection is a sub-document, apart from its empty components |
| Selecting.SkeletonExact | research/cf-forge/extract-fixtures.py:9 | the selection exists if and only if the document has its paths; it holds the head of the document, the chosen methods and the parameters of the chosen paths, empty components, and nothing else |
| Fixture.Extract | research/cf-forge/extract-fixtures.py:8-27 | for any document: succeeds if and only if the paths exist, every reachable reference is a string that resolves, and the components can be asked for security schemes; then the references are those reachable from the selection, the copy is a sub-document answering each as the document does, and it is closed exactly if the strings planted by reachable references are reachable |
| Escaping.EscapingExtraction | research/cf-forge/extract-fixtures.py:15-23 | a document and a selection whose extraction succeeds and is not closed |
| Fixture.SchemesKeep | research/cf-forge/extract-fixtures.py:27 | copying the security schemes last breaks nothing |
| Fixture.SchemesComplete | research/cf-forge/extract-fixtures.py:27 | after it the copy has the document's security schemes, if there are any, and every path that leads elsewhere reads as before |
| Expression.ParseExact | tree-sitter-forge/grammar.js:438-477 | for every token sequence, a tree respects the declared precedences and has these tokens if and only if it is the one the reference parser finds |
| Expression.Unambiguous | tree-sitter-forge/grammar.js:438-477 | two trees that respect the precedences and have the same tokens are the same |
| Expression.RegroupRespects | tree-sitter-forge/grammar.js:459-477 | regrouping a binary expression by precedence gives a tree that respects them |
| Expression.EverySentenceParses | tree-sitter-forge/grammar.js:438-477 | every sentence the grammar derives has its one respecting tree: the precedences reject nothing |
| Precedence.TwoOperators | tree-sitter-forge/grammar.js:459-477 | `a p b q c` is `(a p b) q c` if and only if `p` is of the class of `q` or a tighter one, the five classes written out by operator; otherwise it is `a p (b q c)` |
| Precedence.RowParses | tree-sitter-forge/grammar.js:459-477 | the tree of a row of operands has at its top the last operator of the loosest class present, and so on for the rows on both sides; no other tree is parsed |
| Precedence.EverySentenceIsARow | tree-sitter-forge/grammar.js:438-477 | every sentence is such a row |
| Precedence.PrefixTakesOne | tree-sitter-forge/grammar.js:458 | a prefix operator takes only the operand next to it |
| Inventory.Lister.Visit | scripts/vault-snapshot.py:21-57 | succeeds if and only if there is no special file and both budgets hold; then appends the rows of the directory and adds its bytes; each error means what it says |
| Inventory.Lister.VisitNames | scripts/vault-snapshot.py:23-57 | the same for the loop over sorted names |
| Inventory.Lister.VisitEntry | scripts/vault-snapshot.py:24-57 | the same for one entry |
| Snapshot.InDirRows | scripts/vault-snapshot.py:21-57 | a row is listed if and only if it is that of a node below the directory |
| Snapshot.DirRowsOrdered | scripts/vault-snapshot.py:21-57 | each path is listed once, parents before what they contain |
| Snapshot.DirRowsSorted | scripts/vault-snapshot.py:23 | the rows are sorted: name by name, each directory followed by what is below it |
| Snapshot.DirSizes | scripts/vault-snapshot.py:73-90 | the sizes listed add up to the bytes counted, one row for each entry counted |
| Snapshot.InventoryFixesTree | scripts/vault-snapshot.py:80-83 | equal inventories if and only if equal trees below the roots, contents up to size and digest |
| Snapshot.SameIsEqual | scripts/vault-snapshot.py:80-83 | without digest collisions that is identity |
| Snapshot.Preserve | scripts/vault-snapshot.py:63-100 | a copy is verified if and only if nothing stood in its way and both trees equal the source as first seen |
| Naming.SnakeCase | crates/forgegraph-planner/src/naming.rs:52-65 | the loop computes the specification of `snake` |
| Naming.UnSnakeRecovers | crates/forgegraph-planner/src/naming.rs:52-65 | a name without underscores is recovered from `snake`, up to the case of its first letter |
| Naming.SnakeCollidesExactly | crates/forgegraph-planner/src/naming.rs:52-65 | any two names collide if and only if they are equal once the first letter is in lower case and each later underscore with a lower case letter after it is that letter's capital |
| Naming.SnakeCollides | crates/forgegraph-planner/src/naming.rs:52-65 | without underscores: if and only if they differ at most in the case of the first letter |
| Naming.UnderscoreCollides | crates/forgegraph-planner/src/naming.rs:52-65 | with underscores others collide: `a_b` and `aB` |
| Naming.SnakeIdempotent | crates/forgegraph-planner/src/naming.rs:52-65 | `snake` is idempotent |
| Naming.NeverReserved | crates/forgegraph-planner/src/naming.rs:72-90 | a table is never a reserved word, a column only `status` or `version` |
| Naming.PhysicalCollidesExactly | crates/forgegraph-planner/src/naming.rs:72-90 | any two names share a table, or a column, if and only if they collide or one is spelled like the escaped form of the other |
| Naming.PhysicalCollides | crates/forgegraph-planner/src/naming.rs:72-90 | without underscores: exactly when the names collide |
| Naming.TableInjective | crates/forgegraph-planner/src/naming.rs:72-80 | resources that start in upper case never share a table |
| Naming.ColumnInjective | crates/forgegraph-planner/src/naming.rs:82-90 | fields that do not start in upper case never share a column |
| Naming.KebabCollides | crates/forgegraph-planner/src/naming.rs:67-70 | path segments of any two names collide if and only if the names are equal once underscores are dashes, the first letter is in lower case, and each later dash with a lower case letter after it is that letter's capital |
| Naming.UnKebabRecovers | crates/forgegraph-planner/src/naming.rs:67-70 | a segment gives a name without underscores back, up to the case of the first letter, exactly if no later dash comes before a lower case letter |
| Naming.DashCollides | crates/forgegraph-planner/src/naming.rs:67-70 | a dash before a lower case letter is written like the capital: `a-b` and `aB` |

## Left out

- Runner.Session.PushCodeFailures: the actual value is kept as an object with code and detail, not as the first 300 characters of its JSON text.
- Runner.Session.Race: the racing calls are one transition of the target with arbitrary outcomes; their interleaving is the target's own.
- Runner.Session.Transfer: bytes are text, encoding and decoding are not modelled.
- Runner.Session.CallAndPoll: the delay between two attempts has no effect.
- Matching.FailureLog.Diff: numbers are reals without NaN, property names of the JavaScript prototypes are excluded, and keys that look like integers keep their place.
- Drift.DriftMeaning: requires distinct target names, scenario ids and step names.
- Differential.RunProfile: the targets of different profiles share no state.
- Manifest.BuildManifest: version pins, the profile matrix, benchmarks, feature lists and the texts of the reasons are not modelled; dates are given as parsed milliseconds, an unparsable one as absent.
- Differential.RunDifferential: the certification identity before and after, the bundle's hash and the time are parameters.
- Custody.Machine.Save: writing the state file is atomic.
- Publication.Create: at most one remote object of each kind exists under the random owned name, a 404 of the management API means absent, and no call takes effect later than its reply.
- Publication.Qualify: building, deploying after the upload, the pilot and the evidence file are outcomes given with the run; account checks come before and are not modelled.
- Binding.ProvisionWorker: the bounded retries of the readiness probe are one call.
- ArtifactsSafety.SuccessorIsNew: the provider never gives out a repository identity twice; that is what the script's comparison is there to notice.
- Artifacts.Qualify: fixtures, the checks made through the Worker, tokens, pushes and exports are outcomes given with the run.
- Closure.Extractor.Walk: the copy is a value; that it shares objects with the document is covered by `Pointer.SetPathSame`, which shows that a write through such a share puts a value where it is already.
- Fixture.Extract: the error of a document or path item of the wrong type is the same as that of a missing path; references inside the security schemes are not followed, as in the source.
- Closure.CopyClosed: speaks of the copy before the security schemes; those may mention further references.
- Expression.ParseExact: the generated parser's tables are not part of this model; a reference parser by precedence climbing stands for them. Tokens are given, and literals are one token each.
- Inventory.Lister.Visit: the tree does not change during one inventory, so the errors for a changing source do not occur; extended attributes and hard links are not inventoried by the source either.
- Snapshot.InventoryFixesTree: the mode of the root itself is not covered, since the source does not list it.
- Snapshot.Preserve: what the copy contains is given; copying itself is not modelled.
- TwinDrift.TwinVerdict: the two targets answer alike up to one renaming that stays the same for the whole run.
- Naming.TableInjective: names are without underscores, which `UnderscoreCollides` shows to be needed; `wire` is `snake` by another name.
- The publication journal, workspaces, engine, dispatcher, workflows, schedules, projections, realtime and generated clients: their code is not part of this model.
- scripts/qualify-turso.py, conformance/src/bench.ts and conformance/src/certify.ts: they would only add easy members.
- Git, network, subprocesses and SHA-256 are outcomes or opaque functions.
