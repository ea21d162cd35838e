# Challenge reconciler: model and proofs

The challenge controller keeps one CTFd challenge, with its flags and hints, in line
with a declared resource. This project models it in Dafny and proves what it
guarantees, including when any call to CTFd fails.

## What is modelled

- **Matching.** Flags and hints are matched with what the server lists by a value key,
  first come first served (`Matching`, `Planner`, `Keys`, `Bags`).
- **The prerequisite graph.** Validation, the three-colour search, and what it means for
  a player to unlock hints (`PrereqGraph`).
- **Synchronisation.** `FlagSync` and `HintSync` give each synchronisation as a function
  of the server's state and its answers. `HintProgress` and `HintPhases` show that each
  write, and each phase, only ever makes progress; `HintExact` shows exactly when a whole
  synchronisation does, and `HintMoments` carries this to the state between any two calls.
  `HintTheorems` and the last part of `FlagSync` hold the results.
- **The loop.** `Conversion` has the challenge's own fields, `Lifecycle` has Observe,
  Create, Update, Delete and one reconcile, and `LifecycleTheorems` has the results over
  whole runs.
- **The operations.** `Operations` says what Observe, Create, Update, Delete and the hint
  calls do, in terms of the specification's fields and of single answers; `FlagValues`
  does so for flags, and `Failures` says that the first failing call ends an operation.
- **The code as it runs.** `Server.Client` is the CTFd server and `Controller.External`
  the reconciler: methods with loops, arrays, maps and early returns, each proved equal
  to the function the theorems are about.

## What is assumed of the server

- Every call has one of three outcomes: it is served, it is refused, or it takes effect
  and its reply is lost. The sequence of outcomes is arbitrary.
- Ids are unique and not negative. A creation gets any id that nothing uses and no stored
  prerequisite mentions. Listings keep their order: creations are appended, deletions
  keep the rest in place.
- A patch stores what is sent. A hint's unset title or anonymize value is kept or
  cleared, call by call. A patch that takes away the last prerequisites of a hint sends
  no list (`internal/controller/challenge/flagshints.go:160-163`); the server is assumed
  to store this as no prerequisites, and convergence of such hints rests on it. Unset fields of the challenge itself become anything at all,
  which covers keeping, clearing and recomputing them. Only a challenge of type
  `standard` stores the value it is sent.
- Nobody else writes during a reconcile. Between reconciles anybody may.
- Go's map iteration yields the ids to delete in an arbitrary order, so every result
  holds for each permutation of them.
- Integers are unbounded, except that `Atoi` rejects what does not fit 64 bits.

## What the code does not do

Five things a reader might expect are false of the code. Each has its exact condition.

- A synchronisation of hints can be spoiled: a desired hint without a title is matched
  with a listed one that has a title, it needs a patch, and the server keeps the title
  which that patch does not send. Each attempt is progress exactly if it is not spoiled
  (`HintExact.SyncProgress`), and without failures it converges exactly then
  (`HintTheorems.SyncConverges`). What can be known before a call, the match and the need
  for a patch, decides whether it converges on every server
  (`HintTheorems.ConvergesOnEveryServerIff`). Such a match takes a NUL in a listed title
  (`HintTheorems.NulFreeTitlesAgree`; an example is
  `HintTheorems.NulInTitlePreventsConvergence`), and hints whose titles agree once are
  never spoiled later (`HintTheorems.TitlesKeepAgreeing`).
- Update never sends the type, so it converges exactly when the type already matches
  (`LifecycleTheorems.ReconcileConverges`, `LifecycleTheorems.WrongTypeNeverConverges`).
- Observe takes any failed read of the challenge for absence, so a live challenge gets a
  second one exactly when that read fails and the creation takes effect
  (`LifecycleTheorems.SecondChallengeIffReadFails`). A creation whose reply is lost is
  repeated in the next turn; `LifecycleTheorems.LoopCreates` counts all of them.
- Observe ignores a failed read of the requirements; when this hides drift, and when it
  reports drift that is not there, is characterised by
  `LifecycleTheorems.UnreadRequirementsMislead`.
- Drift in how a challenge's prerequisites are anonymized is never detected
  (`Conversion.AnonymizeDriftUnseen`).

## How to read the results

A moment of a run is so many answers into one of its attempts. Its state is the one in
which that attempt stops if everything is refused from there on, and the rest of the
attempt is progress from it (`HintMoments.CutProgress`). Results about hints hold between
any two moments; results about the loop hold between turns. Every lemma switches automatic
induction off, so that each proof shows the induction it uses.

## Model

| member | source | states |
|---|---|---|
| Keys.HintKeyIdentifiesValue | internal/controller/challenge/flagshints.go:51-54 | for NUL-free titles, hint keys are equal iff content, title (nil and empty alike) and cost are, whatever the contents |
| Keys.FlagKeyIdentifiesValue | internal/controller/challenge/flagshints.go:45-49 | for NUL-free types and data, flag keys are equal iff the flags are, up to the default type |
| Keys.NulInTitleCollides | internal/controller/challenge/flagshints.go:51-54 | two different hints share a key when a title holds a NUL |
| Keys.AtoiReadsNumerals | internal/controller/challenge/challenge.go:142-148 | a name is read as a number iff it is at most one sign and then decimal digits only, with a value that fits 64 bits, and as that value |
| Keys.ItoaIsCanonical | internal/controller/challenge/challenge.go:192 | the name written is a numeral of the id, without plus sign or leading zero |
| Keys.AtoiInvertsItoa | internal/controller/challenge/challenge.go:142-192 | the external name written by Create reads back as the same id, iff the id fits 64 bits |
| Bags.Multiset | internal/controller/challenge/flagshints.go:56-63 | the counting map holds exactly the occurring keys, each with its multiplicity |
| Bags.OneSidedLookupSuffices | internal/controller/challenge/flagshints.go:65-75 | equal key counts and a one-sided lookup hold iff the two lists are permutations of each other |
| Bags.SameIntSet | internal/controller/challenge/conversion.go:168-183 | true iff the two lists are permutations of each other |
| PrereqGraph.Visit | internal/controller/challenge/flagshints.go:219-234 | the recursive search terminates, finishes hints in an order in which each follows all it requires, and any error names a hint on a cycle |
| PrereqGraph.DetectHintCycle | internal/controller/challenge/flagshints.go:210-244 | accepts iff no hint is on a cycle, and iff every hint can be unlocked; a reported hint is on a cycle |
| PrereqGraph.ValidateHintPrereqs | internal/controller/challenge/flagshints.go:192-208 | accepts iff a player can unlock every hint within as many rounds as there are hints; each error reported is genuine |
| PrereqGraph.CyclesNeverUnlock | internal/controller/challenge/flagshints.go:192-194 | a hint on a cycle is not unlocked after any number of rounds |
| PrereqGraph.CompleteOrderMeansUnlockable | internal/controller/challenge/flagshints.go:236-243 | when all hints are finished, the finishing order unlocks all of them |
| Matching.BoundItem | internal/controller/challenge/flagshints.go:140-149 | the j-th desired occurrence of a key keeps the j-th listed item of that key |
| Matching.BindingsDistinct | internal/controller/challenge/flagshints.go:140-149 | no two desired hints keep the same id |
| Matching.SurplusIsUnbound | internal/controller/challenge/flagshints.go:151-154 | the ids to delete are exactly the listed ids that no desired hint keeps |
| Matching.MatchingIsMaximum | internal/controller/challenge/flagshints.go:128-155 | under every key the plan matches the minimum of desired and listed counts |
| Matching.PerfectMatching | internal/controller/challenge/flagshints.go:77-89 | nothing missing and nothing surplus iff each key is listed as often as it is desired |
| Planner.PlanHints | internal/controller/challenge/flagshints.go:128-155 | the pool of queues computes the reference matching, and the deletes are the unwanted ids in some order |
| Planner.Drain | internal/controller/challenge/flagshints.go:151-153 | in whatever order the keys are visited, what is left in the pool is the surplus |
| Planner.AreHintsUpToDate | internal/controller/challenge/flagshints.go:91-126 | true iff the specification is valid, nothing is unwanted, and every desired hint exists with the requirements it should have |
| Planner.AreFlagsUpToDate | internal/controller/challenge/flagshints.go:77-89 | true iff desired and listed flags are the same collection |
| Planner.IndexById | internal/controller/challenge/flagshints.go:364-367 | the table finds each listed hint by id |
| FlagSync.SyncFlagsProgress | internal/controller/challenge/flagshints.go:265-304 | whatever calls fail, each value's count moves towards the wanted one and every effective write closes the distance by one; success means up to date |
| FlagSync.MinimumWrites | internal/controller/challenge/flagshints.go:280-303 | without failures the flags converge with as many writes as the size of the symmetric difference |
| FlagSync.NoShorterWay | internal/controller/challenge/flagshints.go:265-267 | no sequence of single additions and removals reaches the wanted flags with fewer writes |
| FlagSync.FlagWritesExactlyOnDrift | internal/controller/challenge/flagshints.go:79-89 | once listed, a write is sent iff Observe would not call the flags up to date |
| FlagSync.RunConserves | internal/controller/challenge/flagshints.go:265-304 | over any run of failing retries the writes that took effect equal the distance closed, and counts never leave the range between start and target |
| FlagValues.FlagVerdict | internal/controller/challenge/flagshints.go:29-36 | flags are up to date iff the server holds each content with each type and data as often as it is desired, an empty type standing for static |
| FlagValues.SyncFlagsStores | internal/controller/challenge/flagshints.go:282-303 | whatever calls fail, a flag that is added has content and data of a desired one and its type, or static if that is empty; none is removed but a surplus one |
| HintProgress.PostStep | internal/controller/challenge/flagshints.go:346-355 | creating the first missing hint gives that index the new id and changes no other index |
| HintProgress.PatchStep | internal/controller/challenge/flagshints.go:377-386 | a patch that leaves no title standing settles its own hint and changes no id, no key and nothing that is stored under any other id |
| HintProgress.DeleteStep | internal/controller/challenge/flagshints.go:330-334 | deleting an unwanted hint keeps every desired hint in place and leaves the other unwanted ones |
| HintProgress.PatchKeepsKeyIff | internal/controller/challenge/flagshints.go:377-381 | a patch keeps the matched hint's key iff it does not leave a non-empty title standing |
| HintPhases.UnsettledIff | internal/controller/challenge/flagshints.go:363-376 | the patch loop, which knows the ids of created hints too, patches exactly the hints that require one that is missing, are listed without being what is asked for, or are missing and require others |
| HintExact.SyncProgress | internal/controller/challenge/flagshints.go:306-336 | whatever calls fail, a synchronisation is progress iff it is not spoiled; its success means Observe will find the hints up to date iff it is not spoiled, and a spoiled one never leaves them so |
| HintMoments.CutProgress | internal/controller/challenge/flagshints.go:311-336 | from the state after any number of answers, the rest of an unspoiled synchronisation is progress |
| HintTheorems.SyncConverges | internal/controller/challenge/flagshints.go:306-336 | without failures a valid specification converges from any hints the server held, iff the synchronisation is not spoiled |
| HintTheorems.ConvergesOnEveryServerIff | internal/controller/challenge/flagshints.go:306-336 | a valid specification converges on every server that fails no call, and in every order of deletes, iff no listed hint that needs a patch is mis-titled |
| HintTheorems.NulFreeTitlesAgree | internal/controller/challenge/flagshints.go:51-54 | a desired hint without a title is matched with one that has a title only if a listed title holds a NUL |
| HintTheorems.RunProgressesIff | internal/controller/challenge/flagshints.go:306-336 | over any run of failing retries every attempt is progress iff none is spoiled |
| HintTheorems.TitlesKeepAgreeing | internal/controller/challenge/flagshints.go:341-391 | if the titles agree when a run of retries starts, they agree throughout and no attempt is spoiled |
| HintTheorems.AnyTwoMoments | internal/controller/challenge/flagshints.go:311-391 | in an unspoiled run the hints make progress from any moment to any later one |
| HintTheorems.WritesExactlyOnDrift | internal/controller/challenge/flagshints.go:95-126 | once listed, a write is sent iff the hints were not up to date; an invalid specification is never up to date and sends nothing |
| HintTheorems.HintWrites | internal/controller/challenge/flagshints.go:321-391 | without failures the writes sent are, in this order, one creation for each missing hint, one patch under its id for each hint that has to be patched, one deletion for each hint too many, and no others |
| HintTheorems.RetriesNeverDuplicate | internal/controller/challenge/flagshints.go:311-358 | at every moment of an unspoiled run of failing retries the number of hints of each value is between what there was and what is wanted |
| HintTheorems.IdentityIsStable | internal/controller/challenge/flagshints.go:133-155 | in an unspoiled run, once a desired index has an id, from the plan or from the answer to its creation, the plan of every later moment gives it the same one, whatever fails in between |
| HintTheorems.DeletesComeLast | internal/controller/challenge/flagshints.go:321-335 | in an unspoiled run, after a hint was deleted, at no later moment does the hint of a desired index require it |
| HintTheorems.UpToDateIffFaithful | internal/controller/challenge/flagshints.go:95-126 | hints are up to date iff the specification is valid, there is one hint for each desired index and no other, and each has its value, the bag of hints it should require and, if it requires any and this is set, its anonymize setting |
| HintTheorems.ServerGraphIsFaithful | internal/controller/challenge/flagshints.go:306-310 | hints that are up to date are one per desired index, each with its value, exactly the required hints and its anonymize setting; no prerequisite dangles, a player can unlock all of them on the server, and the server's prerequisites form no cycle |
| HintTheorems.ServerCyclesNeverUnlock | internal/controller/challenge/flagshints.go:192-194 | a server hint on a cycle of the stored prerequisites is not unlocked after any number of rounds |
| HintTheorems.NulInTitlePreventsConvergence | internal/controller/challenge/flagshints.go:377-381 | a concrete specification, listing and server for which a synchronisation without failures does not converge |
| Conversion.PatchConvergesIffTypeMatches | internal/controller/challenge/conversion.go:63-87 | an update makes the challenge's fields up to date iff the type already matched |
| Conversion.UpToDateIffPatchIsIdle | internal/controller/challenge/conversion.go:110-150 | up to date iff the type is right and an update would leave the challenge as it is, on a server that keeps what is not sent |
| Conversion.PostConverges | internal/controller/challenge/conversion.go:35-58 | a creation is up to date from the start, whatever the server puts into unset fields |
| Conversion.UnmanagedStateStays | internal/controller/challenge/conversion.go:60-67 | with the state unset, an update sends back the state seen, and the comparison ignores it |
| Conversion.AnonymizeDriftUnseen | internal/controller/challenge/conversion.go:140-148 | the verdict is the same however a challenge's prerequisites are anonymized |
| Controller.External.ChallengeHints | internal/controller/challenge/flagshints.go:249-263 | reads the listing and each hint, and returns the server's hints unless a read fails |
| Controller.External.SyncFlags | internal/controller/challenge/flagshints.go:268-304 | the method is the function SyncFlags for some order of deletes, and changes nothing but that challenge's flags |
| Controller.External.CreateMissingHints | internal/controller/challenge/flagshints.go:341-358 | fills the plan's array in place and posts exactly as CreateMissing does |
| Controller.External.ReconcileHintRequirements | internal/controller/challenge/flagshints.go:363-391 | patches exactly the hints, with exactly the requirements, that Wire does |
| Controller.External.SyncHints | internal/controller/challenge/flagshints.go:311-336 | the method is the function SyncHints for some order of deletes, and changes nothing but that challenge's hints |
| Controller.External.Observe | internal/controller/challenge/challenge.go:136-182 | report, recorded status and reads are those of the function Observe |
| Controller.External.RecordUpToDate | internal/controller/challenge/conversion.go:115-150 | true iff the set fields match and the prerequisites are the same bag |
| Controller.External.Create | internal/controller/challenge/challenge.go:184-194 | server and external name change as in the function Create |
| Controller.External.Update | internal/controller/challenge/challenge.go:196-214 | the method is the function Update for some orders of deletes |
| Controller.External.Delete | internal/controller/challenge/challenge.go:216-230 | the server changes as in the function Delete |
| Operations.NotCreatedYet | internal/controller/challenge/challenge.go:142-148 | for a name that is no 64-bit numeral Observe finds nothing and reads nothing, Update fails and Delete succeeds, and neither sends anything |
| Operations.OtherNamesAreNotCreated | internal/controller/challenge/challenge.go:217-224 | so it is for every name with a character other than digits and a leading sign |
| Operations.ObserveOutcome | internal/controller/challenge/challenge.go:136-182 | absent iff the first read fails or finds nothing, an error iff a later read other than that of the requirements fails, else the verdict; status and name change only as recorded, and nothing is sent |
| Operations.UpToDateMeansType | internal/controller/challenge/conversion.go:115-123 | a challenge reported up to date has the type set, or standard if none is |
| Operations.CreateOutcome | internal/controller/challenge/challenge.go:184-194 | a creation that takes effect adds one challenge with exactly the parameters set, its type or standard, and no flags or hints; its id becomes the name iff it is answered, and else the resource stays as it was |
| Operations.UpdateStores | internal/controller/challenge/conversion.go:63-94 | an update that takes effect stores exactly the parameters set, requirements with their anonymize setting included, sends back the observed state if none is set, and keeps the type; after a failed patch nothing else is touched |
| Operations.UpdateOfNothing | internal/controller/challenge/challenge.go:202-204 | an update of a challenge that is not there fails and changes nothing |
| Operations.DeleteOutcome | internal/controller/challenge/challenge.go:216-230 | a deletion succeeds iff the challenge is there and the call is served, and removes it iff the call takes effect |
| Operations.NothingToDo | internal/controller/challenge/challenge.go:162-181 | a reconcile that finds all up to date, or whose lists cannot be read, sends nothing |
| Operations.PostStores | internal/controller/challenge/flagshints.go:346-355 | a created hint has the declared content, title and cost, no requirements, and an id of its own |
| Operations.PatchStores | internal/controller/challenge/flagshints.go:377-386 | a patched hint has the declared content, cost, prerequisites, and title and anonymize if set; no other hint is touched |
| Operations.SameHintKeyIffSameValue | internal/controller/challenge/flagshints.go:51-54 | for NUL-free titles a listed hint shares the key of a desired one iff content, title and cost agree, none and empty alike |
| Failures.SyncFlagsStops | internal/controller/challenge/flagshints.go:268-304 | a flag synchronisation fails iff one of its calls fails, and sends nothing after that one |
| Failures.SyncHintsStops | internal/controller/challenge/flagshints.go:311-336 | a hint synchronisation of a valid specification fails iff one of its calls fails, and sends nothing after that one |
| Failures.UpdateStops | internal/controller/challenge/challenge.go:196-214 | an update of a live challenge with valid hints fails iff one of its calls fails, and sends nothing after that one |
| Failures.InvalidHintsAreRefused | internal/controller/challenge/flagshints.go:311-314 | with hints that cannot all be unlocked an update fails and leaves the hints as they are |
| LifecycleTheorems.ObserveQuiet | internal/controller/challenge/challenge.go:136-182 | without failures Observe reports exactly whether a live challenge is in sync, and records its state |
| LifecycleTheorems.UpdateOnCourse | internal/controller/challenge/challenge.go:196-214 | whatever calls fail, an update touches only its challenge, and keeps its type and unmanaged state and makes only progress on flags and hints, iff its hints are not spoiled |
| LifecycleTheorems.UpdateConverges | internal/controller/challenge/challenge.go:196-214 | without failures an update brings the flags in line in any case, the fields iff the type matches, and everything iff, besides, the hints can be unlocked and are not spoiled |
| LifecycleTheorems.ReconcileConverges | internal/controller/challenge/challenge.go:136-214 | one reconcile without failures makes an existing challenge up to date for every later Observe, iff its type matches and its hints can be unlocked and are not spoiled |
| LifecycleTheorems.ReconcileOnEveryServerIff | internal/controller/challenge/challenge.go:136-214 | one reconcile brings an existing challenge up to date with every server that fails no call iff its type matches, its hints can be unlocked, and none that needs a patch is mis-titled |
| LifecycleTheorems.TitlesAgreeReconcile | internal/controller/challenge/flagshints.go:377-381 | a reconcile never spoils hints whose titles agree |
| LifecycleTheorems.LifecycleFromAbsent | internal/controller/challenge/challenge.go:136-194 | Create, then drift iff flags or hints are wanted, then after one more reconcile up to date iff the hints can be unlocked |
| LifecycleTheorems.SecondChallengeIffReadFails | internal/controller/challenge/challenge.go:150-155 | a second challenge appears iff the read of the live one fails and the creation takes effect |
| LifecycleTheorems.LoopCreates | internal/controller/challenge/challenge.go:136-194 | over any run of reconciles between edits no challenge disappears, and exactly as many appear as turns found none under the name and had their creation take effect, replies lost included |
| LifecycleTheorems.TurnOnCourse | internal/controller/challenge/challenge.go:136-214 | whatever calls fail, one reconcile keeps the course of every challenge iff it spoils no hints |
| LifecycleTheorems.AgreeingLoopUnspoiled | internal/controller/challenge/challenge.go:136-214 | over any run of reconciles between edits, hints are never spoiled if all titles agree to begin with |
| LifecycleTheorems.LoopNeverDuplicates | internal/controller/challenge/challenge.go:196-214 | over any unspoiled run of reconciles between edits, flag and hint counts stay between start and target and matched hints keep their ids |
| LifecycleTheorems.LoopKeeps | internal/controller/challenge/challenge.go:136-214 | over any run of reconciles between edits every challenge stays, with its type, and with its state if that is unmanaged, whatever its flags and hints |
| LifecycleTheorems.WrongTypeNeverConverges | internal/controller/challenge/conversion.go:115-123 | with another type on the server, no number of reconciles makes Observe report up to date |
| LifecycleTheorems.UnmanagedStateUntouched | internal/controller/challenge/conversion.go:60-67 | with the state unset, over any run of reconciles the server's state is what the last edit or the creation made it |
| LifecycleTheorems.StateEditIsNoDrift | internal/controller/challenge/conversion.go:115-123 | an edit of an unmanaged state alone does not change what Observe reports |
| LifecycleTheorems.AnyHistoryThenOneQuietTurn | internal/controller/challenge/challenge.go:136-214 | after any run of failing reconciles, one without failures converges iff the type matched at the start and the hints can be unlocked and are not spoiled by it |
| LifecycleTheorems.DeleteMeansAbsent | internal/controller/challenge/challenge.go:216-230 | after a successful Delete, Observe reports absence; other challenges are untouched, and a resource that was never created sends nothing |
| LifecycleTheorems.UnreadRequirementsMislead | internal/controller/challenge/challenge.go:157-160 | the verdict is wrong iff the requirements could not be read, the rest is in sync, and either none are wanted and some are set, or some are wanted and exactly these are set |

## Left out

- Setup, Connect, the provider's main and its configuration: wiring of libraries, without logic of its own.
- The CTFd client, HTTP, JSON and the lookup of credentials: replaced by the assumptions above.
- Contexts, status conditions and error texts: an error is kept only where it changes what happens next; a validation error keeps the hint it names.
- The pages and settings controllers: flat comparisons and copies of independent fields.
- Crossplane's own reconciler (polling, rate limits, the pending-creation annotation): a turn is observe, then create or update or nothing.
- The solve count in the status: nothing the controller decides depends on it.
- CTFd keys flags and hints by id alone: since ids are unique on the server, calls about one are modelled as calls about its challenge.
- In syncFlags the pool is drained into one list before deleting, where the source deletes while it iterates; the calls and their order are the same.
- The shape of the server's graph while patches are under way: not claimed, since edges not yet patched can close a cycle with those that are.
