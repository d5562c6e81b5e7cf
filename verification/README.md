# wsauthkit, modelled and proved

wsauthkit authenticates WebSocket handshakes and authorizes actions on resources. This project models
its decision-making code in Dafny and proves what that code promises: the concurrent fan-out of relation
checks, the batch evaluator over composed authorizers, role permissions, the two subprotocol token
extractors, extractor chains, claim normalisation, allowlists and periodic re-verification.

`dafny verify dfyconfig.toml` checks everything.

## How the model is laid out

| file | what it models |
|---|---|
| `FanOut.dfy` | the fan-out as a state machine: every channel operation, slice read, cancellation and return is one atomic step (`Fire`), a schedule is any sequence of steps that can be taken (`Exec`) |
| `FanOutInvariants.dfy` | what holds in every reachable state |
| `FanOutTheorems.dfy` | safety, termination, refinement of the sequential loop, and the call itself as a nondeterministic interleaving |
| `FanOutOutcomes.dfy` | exactly which maps and errors a call can return, and when its feeder can outlive it |
| `Authorizers.dfy` | the tree of authorizers, the verdict on one resource, and what a batch answer has to satisfy |
| `Questions.dfy` | which leaf of a tree is asked about what |
| `Authorization.dfy` | the check on one resource, with its log of questions |
| `Worklist.dfy`, `BatchLoop.dfy` | the batch evaluator's worklist and its loop over the children, on values |
| `BatchOutcomes.dfy` | the outcomes a batch can have, over all schedules and cancellations, as a relation |
| `BatchAuthorization.dfy` | the batch evaluators, with the worklist compacted in place on an array |
| `Cancellation.dfy` | exactly what a batch can say about a resource when it is cancelled from outside |
| `Permissions.dfy` | `action:resource` grants, roles, the RBAC search |
| `Filters.dfy` | the order-preserving filter behind worklists, roles, header lists and chains, and its law |
| `Text.dfy` | the needed part of Go's `strings`, on sequences of code points |
| `Extractor.dfy`, `Gateway.dfy` | the core subprotocol extractor, the gateway's own one, and when they agree |
| `Chains.dfy` | extractor chains |
| `ClaimContainer.dfy`, `Allowlists.dfy`, `Reverification.dfy` | claim maps, the decision after parsing, the periodic check |

**Fan-out** (authorization.go:166-222). The state holds the feeder, the workers, both channels, the
WaitGroup counter, the collector, the context, and the caller's slice, which the caller may overwrite as
soon as the call has returned a map. Interleaving is arbitrary, the outside context may be cancelled at any
point, and a checker whose context is done may fail instead of answering. Every theorem about it is over all
schedules and any number of resources. `FanOutRelationChecks` runs the machine, letting the scheduler pick
any step that can be taken, and its contract is what the batch evaluator relies on. That evaluator may
overwrite its worklist after a child has answered because a fan-out that returned a map has no reader left: the
call hands back its schedule, no continuation of which can read the slice (`NoMoreReads`), `AskChild` passes it on,
and `Compact` requires it (`Unread`). After an error the evaluator may not overwrite the slice, and does not;
`FeederOutlivesFailure` says exactly when a reader can be left.

**Batch authorization** (authorization.go:70-164, 226-303). `Verdict` is the meaning of a tree on one resource. What
its leaves are asked is spelled out in `PolicyVerdict`, `EngineVerdict` and `FunctionVerdict`, in terms of the input's
own fields, and for batches in the contract of `RebacAuthorizeBatch` and in `EngineRepliesMean`.
`AuthorizeBatch` is proved against it for every tree, every list and every choice of the scheduler: `Matches`
says that the batch errs exactly when some listed resource errs, and otherwise has exactly the listed keys with
the pointwise answers. A parameter `mayCancel` says whether the outside context may be cancelled during the call.
`Agrees` says the same of the map as it is read, where a missing key is false, and leaves its keys open;
`Matches` is `Agrees` with exactly the listed keys (`MatchesIsAgreement`).

Each evaluator promises three things. `Serves`: the keys whatever the engines answer, which for a composition are
exactly the listed ones; soundness if bulk engines allow nothing that they do not allow singly (`Modest`); and, if they
read like their single answers (`Consistent`), `Agrees` without cancellation, with an error that some listed resource
reports, and `Agrees` also under cancellation for a batch that succeeds, if no engine in the tree answers one resource
at a time (`NoFanOut`). `Answers`: its outcome is one of those in the relation that `Cancellation.dfy` characterises.
`Frugal`: its log of questions is that of the separate calls, or part of it after an error.

## What turned out not to hold

* A call can return a map without an error and without some of the requested keys exactly when it may be cancelled
  from outside and a key is requested (`KeysCanBeMissing`). The possible maps are the sequential answers on the
  prefixes of the list (`PossibleMaps`).
* So, cancelled, a composition can answer as if a child that is fanned out were not there (`EngineCanVanish`). It
  reports `false` for what its only engine allows (`CancellationDenies`), and it allows a resource on which an engine
  errs, if a later child allows it (`CancellationOverlooksError`). It never allows what is denied pointwise
  (`Authorizers.SoundNeverOverrules`). `CancelledReads` says exactly which answers are possible for a resource,
  `CancelledAgrees` when all of them are the pointwise one, `CancelledAllows` when every allow is a pointwise allow.
  Without fan-outs all of them are (`SteadyWithoutFanOut`, and `Serves` for the evaluators); where no engine that is
  fanned out errs, every allow is (`AllowsWhenEnginesReply`).
* After an error the feeder may still read the slice, exactly if a check before the last resource fails, or if the
  call may be cancelled and has more than one resource (`FeederOutlivesFailure`).
* The error returned need not be the first in the list; it is any of those at a failing position that fewer failing
  positions precede than there are workers (`PossibleErrors`).
* On an empty list a relation authorizer without a checker or a subject returns an error although no resource
  errs; without cancellation this is the only case where a batch differs from asking one by one (`AuthorizeBatch`),
  except for the keys of a bulk engine at the root, whose map is passed on as it is: it may lack requested keys and
  have others (`TableIsConsistent`). Within a composition that makes no difference.
* A permission for an action that contains a colon is parsed as another action and resource; grants mean what
  the type's documentation says exactly for trimmed actions without a colon (`GrantsMeanWhatTheySay`).
* The gateway accepts any two-dot element as a token, the core extractor only three non-empty parts; they agree
  exactly when the first two-dot candidate is well formed (`AgreementExact`, `ExtractorsDiffer`).
* Claims survive a trip through a map exactly when no private claim has a registered name and all dates are whole
  seconds (`RoundTrip`).

Where code and documentation differ, the model follows the code.

## Assumptions

* A checker's answer depends on subject, relation and resource only (until its context is done), every call to it
  returns, and a function authorizer's answer depends on its input only.
* A bulk engine errs exactly when one of its single answers does, and its map reads, for every resource it was asked
  about, like the single answer; it may leave out what it denies and add what it likes (`Consistent`). It does not
  keep or write the slice it is given. Where the identity of an error is stated, a bulk engine that errs reports the
  error of some listed resource (`NamesErrors`). All of this holds of every tree without bulk engines
  (`NoBulkMeetsAll`). Key sets and the partition need no assumption, soundness only `Modest`.
* Cancellation is seen by engines and functions, which may then fail or still answer; role policies ignore it.
* Goroutine steps interleave atomically. Concurrent reads of one slice are no conflict.

## Model

| member | source | states |
|---|---|---|
| FanOutInvariants.Reached | authorization.go:166-222 | every state any schedule leads to keeps the control invariants (who may still run, what each closed channel implies), conservation, and truthfulness of every outcome under way |
| FanOutInvariants.InvStep | authorization.go:173-221 | each atomic step of a goroutine, of the outside context or of the caller after the return keeps those invariants |
| FanOutTheorems.ChannelSafety | authorization.go:173-210 | resources handed out equal, as a multiset, those held, buffered and collected; at most min(8, n) checks are in flight; nobody offers on or closes a closed jobs channel; the WaitGroup never goes negative |
| FanOutTheorems.SendNeverBlocks | authorization.go:174-191 | a worker holding an outcome can send it at once, and the results channel is still open |
| FanOutTheorems.StepDecreases | authorization.go:184-221 | every step of a goroutine, and an outside cancellation, lowers one measure |
| FanOutTheorems.ScheduleBound | authorization.go:166-222 | apart from the caller's own later writes no schedule has more than 5n + min(8, n) + 6 steps, so every goroutine ends |
| FanOutTheorems.NextStep | authorization.go:186-221 | deadlock freedom: while any goroutine is alive, one of them can take a step |
| FanOutTheorems.StuckOnlyWhenDone | authorization.go:173-221 | the reachable states in which no goroutine can move are exactly those where feeder, workers, closer and collector have all ended, also after an early error or a cancellation |
| FanOutTheorems.Completes | authorization.go:184-221 | any schedule, wherever it stops, can be completed by the goroutines alone without a further cancellation |
| FanOutTheorems.ReturnCancels | authorization.go:176-177 | the context is done exactly after an outside cancellation or a return of either kind, and then a feeder still offering can stop at once |
| FanOutTheorems.Quiescence | authorization.go:196-221 | at a returned map nobody can read the caller's slice, and with resources given all goroutines have ended; every read that happens sees what the caller passed |
| FanOutTheorems.SuccessIsFinal | authorization.go:217-221 | after a returned map no later step changes it and no later state can read the slice |
| FanOutTheorems.Sequential | authorization.go:212-221 | the reference loop: succeeds iff every check does, then maps exactly the resources to their answers; fails with one of the checker's errors |
| FanOutTheorems.RefinesSequential | authorization.go:166-222 | without outside cancellation every schedule returns the sequential map, or fails exactly when the loop fails, with one of the checker's errors |
| FanOutTheorems.SoundUnderCancellation | authorization.go:196-221 | a returned map is always the sequential answer on the resources handed out; every key is requested and right |
| FanOutTheorems.Interleave | authorization.go:184-221 | one scheduling decision keeps the invariants and lowers the measure, whichever step is picked |
| FanOutTheorems.FanOutRelationChecks | authorization.go:166-222 | the call under any scheduler: it terminates with an outcome that some schedule returns, hands out a prefix of the list, returns the sequential answer on that prefix, which is the whole list unless cancelled from outside, or else an error of the checker; after a map no continuation of its schedule reads the slice |
| FanOutTheorems.NoReadsAfterSuccess | authorization.go:196-221 | once a map is returned no continuation of the schedule enables a read of the slice |
| FanOutOutcomes.CancellationDropsKeys | authorization.go:196-221 | for every proper prefix of the list whose checks succeed, some cancelled schedule hands out just that prefix and returns its sequential answer |
| FanOutOutcomes.PossibleMaps | authorization.go:166-222 | the maps a call can return are exactly the sequential answers on the prefixes of the list, on proper ones only if it may be cancelled |
| FanOutOutcomes.KeysCanBeMissing | authorization.go:196-221 | some schedule returns a map without a requested key iff the call may be cancelled and the list is not empty |
| FanOutOutcomes.PossibleErrors | authorization.go:186-216 | uncancelled, the possible errors are exactly those at failing positions that fewer than min(8, n) failing positions precede; if it may be cancelled, every error iff the list is not empty |
| FanOutOutcomes.FeederOutlivesFailure | authorization.go:196-216 | the feeder can be about to read the slice after the return iff a check before the last resource fails or, if the call may be cancelled, there is more than one resource |
| FanOutOutcomes.PeakFlight | authorization.go:176-194 | never more than min(8, n) checks are in flight at once, and some schedule has that many |
| Authorization.Authorize | authorization.go:70-90 | the dispatching check on one resource computes the tree's verdict, and its log of questions is `Asked` |
| Authorization.AuthorizeAny | authorization.go:229-245 | the search over children computes the composition's verdict and asks exactly the non-nil children whose predecessors all deny, each its own questions once |
| Authorizers.PolicyVerdict | authorization.go:70-90 | a role policy errs iff there are no claims, and allows iff some role of the caller has a grant covering the pair that trimmed action, colon and trimmed resource are split into at the first colon |
| Authorizers.EngineVerdict | authorization.go:121-134 | a relation engine is asked about the input's subject, or the claims' subject if that is empty, with the input's action and resource; the error without a checker, and the one without any subject |
| Authorizers.FunctionVerdict | authorization.go:24-29 | a function authorizer gets the input as it is |
| Authorizers.AnyOneMore | authorization.go:229-245 | a further child decides only what all earlier ones deny |
| Authorizers.AnyPrefix | authorization.go:229-245 | once a prefix of the children errs or allows, later children do not matter |
| Authorizers.VerdictIsOr | authorization.go:224-245 | where the composition reaches a verdict it allows iff some part of the tree does |
| Authorizers.SoundNeverOverrules | authorization.go:287-302 | a sound batch never allows a resource that would be denied if asked about alone |
| BatchAuthorization.Compact | authorization.go:287-295 | appending into the slice being read leaves the order-preserving filter at the front, everything from the write index on unchanged, and marks exactly the allowed resources; nothing left running by the child may still read the slice |
| Worklist.KeptIsUndecided | authorization.go:287-295 | filtering what one more child allows out of what earlier children deny leaves what all of them deny |
| BatchLoop.SkipStep | authorization.go:258-260 | passing over a nil child, or over any child with nothing left, keeps the worklist exact |
| BatchLoop.AskStep | authorization.go:265-295 | asking a child about the worklist and compacting keeps it exactly what all children so far deny, whatever keys the child's map leaves out or adds |
| BatchLoop.PartitionStep | authorization.go:287-295 | true keys and worklist keep partitioning the request whatever the child answers |
| BatchLoop.GrantStep | authorization.go:287-295 | what a sound child allows on the worklist, some part of the composition allows |
| BatchLoop.FailStep | authorization.go:283-285 | a child erring on the worklist means the composition errs on a requested resource, a resource's error there is a resource's error here, and no earlier child fails in its round |
| BatchLoop.ErrsIffSomeChildFails | authorization.go:262-285 | the composition errs on a requested resource iff some child errs on what all earlier children deny; then one child is the first such |
| BatchLoop.FillStep | authorization.go:298-302 | the false-fill completes the key set and overwrites no allow, whatever the children answered |
| BatchLoop.FillMatches | authorization.go:298-302 | after an exact run the filled results are the pointwise ones |
| BatchOutcomes.CompositionKeys | authorization.go:287-302 | whatever its children answer and whoever cancels, a composition's map has exactly the listed keys |
| Authorizers.MatchesIsAgreement | authorization.go:289 | reading right for every listed resource, with exactly the listed keys, is the pointwise answer |
| Authorizers.TableIsConsistent | authorization.go:160-162 | a bulk engine that returns one table whatever it is asked reads right everywhere, but at the root is the pointwise answer iff the table has exactly the listed keys |
| BatchAuthorization.AuthorizeEach | authorization.go:94-112 | asking one by one gives the pointwise answers or the first resource's error; under cancellation it may fail instead, unless it is about role policies; its log is that of the separate calls |
| BatchAuthorization.AskChild | authorization.go:262-285 | a child asked in its batch form, or one by one where it has none, gives the pointwise answers, and asks what separate calls about the worklist would |
| BatchAuthorization.MisconfiguredErrs | authorization.go:143-157 | the immediate error of an unconfigured relation authorizer is the pointwise outcome iff the list is non-empty |
| BatchAuthorization.RebacAuthorizeBatch | authorization.go:142-164 | the engine is asked about the input's subject, or the claims' subject if that is empty, and the input's action; the error without a checker, and the one without any subject; the relation batch, by bulk call or fan-out, equals the pointwise answers iff the list is non-empty or the authorizer is configured, and a bulk engine's map has exactly the listed keys |
| BatchOutcomes.EngineRepliesMean | authorization.go:160-164 | uncancelled, the outcome is the bulk engine's answer for that subject, relation and list, or puts together the engine's answers for each resource, or is the engine's error on one |
| BatchAuthorization.AuthorizeBatch | authorization.go:92-303 | over whole trees: the batch equals the pointwise verdicts iff the list is non-empty or the root is configured, and a bulk engine at the root has returned exactly the listed keys, with an error of a listed resource; under cancellation it is sound, and where nothing is fanned out a batch that succeeds is still pointwise; a batch that answers asks every leaf exactly what separate calls would, one that errs at most that |
| BatchAuthorization.AnyAuthorizeBatch | authorization.go:252-303 | the composition's batch has exactly the listed keys whatever its engines answer and under cancellation, equals the pointwise verdicts on every list without cancellation, also without a single resource, and leaves the caller's array alone; if it answers it has asked each child exactly the subsequence all earlier children deny; if it fails uncancelled it stops at the first child that errs on that subsequence, whatever the schedule, with an error of that child there |
| BatchAuthorization.FillDenied | authorization.go:298-300 | the last loop adds `false` for exactly the undecided resources |
| Cancellation.CancelledReads | authorization.go:196-302 | over all lists and schedules a cancelled batch that succeeds can allow a resource iff `MayAllow`, and leave it unallowed iff `MayPass`: both decided by the children's verdicts and by which of them are fanned out |
| Cancellation.CancelledAgrees | authorization.go:196-302 | all these batches agree with the verdict on a resource iff it is the only answer `MayAllow` and `MayPass` leave open |
| Cancellation.CancelledAllows | authorization.go:262-295 | every allow of a cancelled batch is a pointwise allow iff the resource may not be allowed while the tree errs on it |
| Cancellation.MayAllowMeans | authorization.go:252-303 | the pointwise answer is always possible, and what is denied pointwise is never allowed |
| Cancellation.SteadyWithoutFanOut | authorization.go:160-164 | without one-by-one engines cancellation leaves only the pointwise answer |
| Cancellation.AllowsWhenEnginesReply | authorization.go:160-164 | where no engine that is fanned out errs, a cancelled batch allows only what is allowed pointwise |
| Cancellation.EngineCanVanish | authorization.go:262-302 | under cancellation a composition can answer whatever it could if a child that is fanned out were nil |
| Cancellation.CancellationDenies | authorization.go:287-302 | whatever the only engine of a composition says, a cancelled batch over any list can deny every resource |
| Cancellation.CancellationOverlooksError | authorization.go:262-302 | a cancelled batch can allow a resource on which the first child, an engine, errs and the pointwise verdict is that error |
| Questions.BatchAsksNoMore | authorization.go:247-296 | over the whole tree, the questions of a batch that answers without an error are, with multiplicity, those of the separate calls; `AuthorizeBatch` is proved to ask exactly them (`Frugal`) |
| Questions.PeelChild | authorization.go:229-245 | of the separate short-circuiting calls, child k gets exactly the resources of its round |
| Questions.CompositionAsks | authorization.go:229-245 | a composition asks exactly what those children ask whose predecessors all deny |
| Questions.LeafIsAsked | authorization.go:121-134 | a leaf is asked once about the resource, except a relation authorizer without a checker or a subject, which asks nobody |
| Permissions.PermissionIsTrimmed | authorization.go:305-307 | a printed permission has nothing to trim |
| Permissions.PrintParse | authorization.go:305-317 | a printed permission always parses, and into the trimmed pair iff the trimmed action has no colon |
| Permissions.ParseOfPrinted | authorization.go:305-317 | what it parses into otherwise: the split at the action's own first colon |
| Permissions.GrantsMeanWhatTheySay | authorization.go:60-67 | every grant matches a printed permission component by component or by wildcard, iff the trimmed action has no colon |
| Permissions.RbacComponentwise | authorization.go:70-90 | for every action, the RBAC check allows iff some role of the caller has a grant covering the pair its permission is split into, which is action and resource iff the action has no colon |
| Permissions.GrantMeans | authorization.go:309-320 | a grant, with white space around it, matches part by part against the permission split at its first colon, `*` standing for anything on either side |
| Permissions.NoColonNoGrant | authorization.go:309-313 | a grant without a colon matches nothing |
| Permissions.SharedGrants | authorization.go:305-320 | two requests are matched by the same grants iff their printed permissions are equal |
| Permissions.RbacAuthorize | authorization.go:70-90 | errs without claims, otherwise decides whether some role in the claims grants the permission |
| Permissions.SearchRoles | authorization.go:81-87 | the outer loop stops at a granting role iff there is one |
| Permissions.SearchGrants | authorization.go:82-86 | the inner loop finds a matching grant iff there is one |
| Permissions.ExtractClaimStrings | authorization.go:322-360 | of the claim of that name, or `roles` if none is given: a non-empty text, the non-empty texts of a list of strings, or the non-empty texts among the entries of a list of anything, in order and with repetitions; none of any other type, without that claim, or without claims |
| Extractor.SplitHeaderList | extractor.go:143-153 | the trimmed non-empty elements, in order |
| Extractor.SecWebSocketProtocol | extractor.go:86-124 | the scanner with its keyword lookahead returns the first element that is or inlines a token; the lookahead never changes the answer |
| Extractor.JwtShape | extractor.go:155-158 | the test accepts exactly three non-empty dot-free parts joined by dots |
| Extractor.ExtractedShape | extractor.go:98-120 | every extracted token is trimmed, has three non-empty dot-free parts and no comma |
| Extractor.HeaderListElements | extractor.go:143-153 | every list element is non-empty, trimmed and comma-free |
| Extractor.TrimKeepsList | extractor.go:88-93 | trimming the header first does not change its elements |
| Extractor.JoinSplit | extractor.go:143-153 | joining elements with ", " and splitting gives them back |
| Extractor.ExtractedFromList | extractor.go:87-123 | whether and what is extracted depends only on the header's list elements |
| Extractor.PlantedIsExtracted | extractor.go:98-120 | a token offered bare, after a keyword or behind an inline prefix in any letter case is what is extracted, if nothing before it holds a token; the letter cases are spelled out |
| Extractor.CandidateMeans | extractor.go:98-120 | an element holds the three-part token it is, or else the one after `bearer.` or `jwt.` in any letter case and white space, and nothing else |
| Extractor.ExtractedMeans | extractor.go:86-124 | a token is extracted from a header iff it is the one held by the first element that holds any |
| Extractor.NoElements | extractor.go:143-153 | a header has no elements iff it is white space and commas |
| Extractor.ErrorsMean | extractor.go:88-96 | without a token, a header of white space and at least one comma is invalid, and any other one, blank or not, is a missing token |
| Text.WordsInAnyCase | extractor.go:99-113 | lower-casing a text gives one of the words looked for iff each of its characters is that letter in one of its two cases |
| Text.SpaceTable | extractor.go:88 | the white space that is trimmed, character by character |
| Gateway.SubprotocolToken | apigateway/auth.go:118-138 | the gateway's loop returns the first two-dot candidate, or the empty string |
| Gateway.GatewayCandidateMeans | apigateway/auth.go:121-134 | an element holds the two-dot text it is, or else the one after `bearer.` or `jwt.` in any letter case and white space, and nothing else |
| Gateway.GatewayMeans | apigateway/auth.go:118-138 | the gateway returns what the first element holds that holds any two-dot text |
| Gateway.PlantedIsFound | apigateway/auth.go:118-138 | the gateway finds a token offered bare, after a keyword or behind an inline prefix in any letter case, if nothing before it is a candidate |
| Gateway.CandidatesCompared | apigateway/auth.go:121-134 | per element, the core's candidates are the gateway's candidates with three non-empty parts |
| Gateway.AgreementExact | apigateway/auth.go:118-138 | the two extractors agree on a header iff its first two-dot candidate is well formed |
| Gateway.AgreementWhenWellFormed | apigateway/auth.go:118-138 | they agree whenever every two-dot candidate has three non-empty parts |
| Gateway.ExtractorsDiffer | apigateway/auth.go:121-123 | on any malformed two-dot element alone the gateway returns it and the core extractor reports no token |
| Chains.ChainExtractors | extractor.go:29-63 | nil iff there is no non-nil extractor, otherwise the chain of the non-nil ones |
| Chains.RunChain | extractor.go:41-62 | the loop returns the first outcome other than "token missing" |
| Chains.FirstDecisiveMeans | extractor.go:41-62 | that outcome is some extractor's, all earlier ones miss; "missing" means all miss |
| Chains.BlankHeaderIsPassed | extractor.go:41-57 | a chain moves on past a subprotocol header that is absent or blank |
| Chains.Flattens | extractor.go:29-63 | a chain nested at any position, nil or not, behaves as its members in its place |
| ClaimContainer.ClaimsFromMapClaims | claims.go:72-99 | the normalised claims, whatever order the map is ranged over in |
| ClaimContainer.Normalised | claims.go:72-143 | every field by the name of its claim: texts only from strings; dates from any numeric type, as whole seconds, a fraction dropped toward zero, and absent for any other type; the audience by its type; everything else private |
| ClaimContainer.DatesByNumber | claims.go:128-143 | which numeric type a date came in makes no difference to the claims |
| ClaimContainer.AudienceClaim | claims.go:106-126 | a list of strings is taken verbatim; of a string or a list of anything, exactly the non-empty texts, in order and with repetitions; none of any other type |
| Filters.FilterSelects | authorization.go:287-295 | the filter keeps exactly the elements at the positions that meet the condition, in order and with repetitions |
| Filters.SelectsIsFilter | authorization.go:287-295 | and nothing else does: that law determines the result |
| ClaimContainer.AsMap | claims.go:37-70 | private claims overlaid with the registered claims that are present; a nil receiver has none |
| ClaimContainer.Lookup | claims.go:37-70 | each key of that map is the registered claim if present, else the private one |
| ClaimContainer.RegisteredMeans | claims.go:47-67 | each registered claim that is present is under its name, dates in whole seconds rounded down |
| ClaimContainer.PrivateMeans | claims.go:43-45 | every other entry of the map is the private claim of that name |
| ClaimContainer.PrivateClaimsKept | claims.go:77-96 | the private part of normalised claims is the map without the registered names, values unchanged |
| ClaimContainer.RoundTrip | claims.go:37-99 | claims survive the trip through a map iff no private claim has a registered name and all dates are whole seconds |
| ClaimContainer.NormalisationIsIdempotent | claims.go:37-99 | normalising twice is normalising once, for claims and for maps |
| ClaimContainer.FixedPoints | claims.go:37-143 | normalisation leaves a map alone iff each registered claim in it is in its canonical form |
| Allowlists.AllowedValues | validator.go:82-107 | the merged list of first occurrences |
| Allowlists.FirstOccurrencesMeans | validator.go:80-107 | it has exactly the non-empty configured values, no duplicate, in order of first occurrence |
| Allowlists.Contains | validator.go:109-116 | membership |
| Allowlists.ContainsAny | validator.go:118-125 | a common element |
| Allowlists.ValidateParsed | validator.go:68-77 | the decision on a parsed token: accepted claims, or an invalid-token error |
| Allowlists.DecisionBySets | validator.go:68-107 | the decision depends only on the sets of configured values |
| Reverification.Reverify | revocation.go:40-62 | a run takes events until a cancellation or the first failing check, and calls back only with that check's error |
| Reverification.RunMeans | revocation.go:50-82 | runs in terms of the events alone: the first cancellation, tick after the expiry or reply other than "not revoked" is the last event handled, and the callback gets nothing, an invalid-token error, the revoker's error or a token-revoked error, in that order; without such an event all are handled in silence |
| Reverification.RepliesIgnored | revocation.go:69-71 | without a revoker the replies make no difference |
| Reverification.ExpiryLatency | revocation.go:40-67 | with ticks at most an interval apart a connection outlives its claims by at most one interval, and one tick after the expiry suffices for the one callback |

## Left out

- JWT parsing, signatures and key sets: library and network behaviour; the model starts from a verified claim map.
- `normalizeOrigin` and `AllowedOrigins`: they rest on URL parsing, which is not part of this model.
- Bearer header and cookie extraction, the gateway's query parameters and the order of its sources: one-branch code.
- The `Authenticate` pipeline, middleware, adapters, error messages and context storage: straight-line plumbing.
- Claim readers (`claimmap.go`): single type tests.
- Float claims outside the int64 range, NaN and infinities: the conversion is not portable in Go, so floats are reals here and integers are unbounded.
- Lower-casing is modelled for ASCII letters only; no other letter lower-cases into one of `bearer.` or `jwt.`, and the keyword branch does not affect results.
- Nil and empty slices or maps are not distinguished.
- The tick interval and its default are not modelled; a run is the sequence of events the loop's select yields, in any order the select may choose.
- A checker that panics or never returns, and the memory model below atomic steps.
- Questions.BatchAsksNoMore: counts a leaf as asked once per resource, also where one bulk call carries the whole list; a role policy counts as asked also when claims are missing.
