# Replikator in Dafny

Replikator copies Secrets and ConfigMaps from a source to mirrors in other namespaces. This project models
its replication engine, the policies that steer it and the text formats around it, and proves what holds of
them for every input, every order of iteration and every run.

The engine works on two pieces of state: the in-memory mirror store, a map from place to entry, and the
cluster, a map from (kind, place) to object. `Engine` describes one execution place by place, with no order
in it; `UseCases` runs it as the Go code does, with loops that change mirrors, store and cluster in place, and
every method there is proved to reach the described state for whatever order the store hands its mirrors out.
All later results are about that description: `Runs` (whole runs, with API faults, registrations, deletions
and outside changes), `Confluence` (any order of independent sources), `Rounds` (one round settles and
converges), `Contention` (sources that want the same places), `Reconcilers` (mirror events, sources built from
annotations, restarts) and `Rules` (cluster replication rules down to the engine). `EndToEnd` says from object to object,
with every key, annotation and field written out, what rules, annotations and mirror events do.

| file | what it holds |
|---|---|
| `Engine.dfy` | one execution of the engine, and what it keeps |
| `UseCases.dfy` | the imperative engine, proved to do exactly that |
| `Runs.dfy`, `Confluence.dfy`, `Rounds.dfy`, `Contention.dfy` | whole runs; reordering; rounds of reconciliation, without and with contention |
| `Reconcilers.dfy`, `Rules.dfy`, `EndToEnd.dfy` | the callers of the engine; the whole way from object to object |
| `Entities.dfy`, `ConfigMapData.dfy` | sources, mirrors, objects, the data codec |
| `Regex.dfy`, `Expressions.dfy` | a regular-expression fragment with its parser and meaning; expressions printed and read back |
| `Anchoring.dfy`, `AllowedNamespaces.dfy`, `Selector.dfy` | pasted anchors, namespace policies, selectors |
| `TargetName.dfy`, `Templates.dfy`, `NamespaceLists.dfy`, `Identifiers.dfy`, `Text.dfy` | templates, lists, printed identifiers, trimming |
| `RateLimiter.dfy`, `Caches.dfy` | token bucket and batches, caches |

`dafny verify dfyconfig.toml` checks everything.

## Modelling choices

- Which API calls fail during one execution is a parameter (`Faults`): listing namespaces, and, per mirror, the
  conflict read, the source read, the target read and the write. Safety results hold for all of them. The calls made
  for one mirror fail or succeed alike for the length of an execution. A mirror event has its own failing reads and
  a plan of faults for each of its executions. An API server refuses an update that changes the type of an existing
  Secret; such a refusal is a failed write, so the fault-free results about Secrets are about writes that keep the type.
- One execution is one atomic step. Clocks, jitter, capture groups and resource versions are parameters. A store
  entry's namespace and name are its key, as in every constructor call of the source.
- Floating point is modelled by real numbers, strings by sequences of Unicode characters, data by bytes.
- Annotation keys are an enumeration with `Other(name)` for all the rest. A nil annotation map is told apart from an
  empty one, because the version guard is.
- The regular-expression fragment has literals, `.`, anchors, groups, alternation, `*`, `+`, `?` and escaped
  punctuation. Text that uses anything else (brackets, braces, escaped letters and digits, lazy operators, group flags)
  is outside the fragment, which is not the same as malformed: `InFragment` tells them apart, and what the library makes
  of such text, an error or an expression that finds the same names, is a parameter (`Library`). Results about policies,
  selectors, rules and events hold for every library; results that spell out a meaning are about text of the fragment.

## Where the code differs from its documentation

The model follows the code.

- A source without `auto-replicate` is never copied and a mirror that asks for it is forgotten
  (`OnDemandWritesNothing`), although the repository's README offers on-demand replication.
- `auto-replicate-to` without `replicate-to` registers mirrors but writes none (`AutoListAloneWritesNothing`), although
  an example in the repository's README relies on it. An `auto-replicate-to` that does not compile, such as
  `a[`, counts as absent, which widens the push (`AutoListDecides`, `BrokenAutoListWidens`, `OpenBracketBreaks`).
- A mirror is brought to the source's data exactly when its recorded version and its annotation are both behind
  (`RepairedExactlyWhen`); a failed write is not retried (`FailedWriteNotRetried`) and a
  deleted mirror not created again (`DeletedMirrorStaysAway`) until the source's version changes.
- A Secret and a ConfigMap of the same name are one owner and overwrite each other's mirrors (`SameNameCollides`),
  with no end (`RivalsOverwriteForever`).
- A Helm object at a target is overwritten (`HelmTargetOverwritten`). Plain objects are never overwritten by executions
  (`NoClobbering`), but a mirror event can overwrite a plain ConfigMap, exactly when `EventClobbersExactly` says.
- A restart does not bring every mirror back: exactly those `RestoredExactlyWhen` names, ConfigMap mirrors not among
  them (`ConfigMapMirrorNotRestored`).
- One round of reconciliation need not reach a fixpoint when sources want the same place (`OneRoundNotEnough`); two do
  (`TwoRoundsAreFixpoint`).
- Text values with control characters move to the binary part of a mirrored ConfigMap (`MirrorPartsIdentical`).
- Rule includes narrow the selector instead of adding to it (`DetermineTargetNamespaces`), and nothing is ever deleted
  from the cluster (`NothingDeleted`).
- Pasted anchors do not always hold the name: not across alternation, not under `^*` or `^?`, and not where a backslash
  escapes the dollar (`AnchoredMeaning`).
- A template with a stray dollar can be filled in wrongly; `SafeExactly` says which templates cannot.

## Model

| member | source | states |
|---|---|---|
| `UseCases.ReflectResources.Execute` | app/internal/application/usecase/reflection.go:50-80 | store and cluster end up exactly as described place by place, whatever order mirrors come in and whatever calls fail; the outcome is the validation or listing error |
| `UseCases.ReflectResources.HandleAutoMirrors` | app/internal/application/usecase/reflection.go:82-107 | after the loop each place holds its old entry, or a new one exactly if it is a free, accepted candidate without conflict |
| `UseCases.ReflectResources.CreateAutoMirrorIfNotExists` | app/internal/application/usecase/reflection.go:109-145 | an existing entry, a conflict or a failed read leaves the store alone, otherwise a new auto entry appears |
| `UseCases.ReflectResources.CheckForConflicts` | app/internal/application/usecase/reflection.go:147-183 | a conflict is an object of the source's kind that is neither Helm's nor a mirror, or a failed read |
| `UseCases.ReflectResources.Cleanup` | app/internal/application/usecase/reflection.go:185-213 | exactly the source's entries (all, or those its policy no longer accepts) leave the store |
| `UseCases.ReflectResources.ReflectToMirror` | app/internal/application/usecase/reflection.go:215-260 | when the entry's version advances and when the object is written, and with what |
| `UseCases.ReflectResources.UpdateMirrorData` | app/internal/application/usecase/reflection.go:262-347 | the object is created or overwritten unless it is up to date or a call fails |
| `UseCases.Gate` | app/internal/domain/service/reflection.go:22-46 | passes exactly for an allowed namespace and a different version, which it records |
| `UseCases.ReflectResources.PushAll` | app/internal/application/usecase/reflection.go:68-77 | pushing to every owned mirror, in the order handed out, completes the execution |
| `UseCases.ReflectResources.WrittenObject` | app/internal/application/usecase/reflection.go:297-343 | the object written for a mirror over the one found |
| `UseCases.ReflectResources.ReadPayload` | app/internal/application/usecase/reflection.go:221-246 | what is read of a source |
| `Entities.Render` | app/internal/application/usecase/reflection.go:275-343 | the object written holds the payload, as far as its kind can, and carries the mirror annotations |
| `Entities.Mirror.SetVersion` | app/internal/domain/entity/resource.go:79-81 | only the version changes |
| `UseCases.MirrorStore.GetBySourceID` | app/internal/infrastructure/adapter/k8s/adapters.go:416-427 | every mirror of the source, each once, and no other |
| `UseCases.MirrorStore.ListByNamespace` | app/internal/infrastructure/adapter/k8s/adapters.go:440-451 | exactly the mirrors of the namespace |
| `UseCases.MirrorStore.Register` | app/internal/infrastructure/adapter/k8s/adapters.go:453-486 | the entry of that place is replaced, identifiers stay consistent |
| `UseCases.MirrorStore.Unregister` | app/internal/infrastructure/adapter/k8s/adapters.go:469-493 | exactly that place is removed |
| `UseCases.UnregisterAutoIn` | app/internal/controllers/controllers.go:651-659 | exactly the auto-created entries of the namespace leave the store |
| `UseCases.HandleSourceDeletion` | app/internal/application/usecase/reflection.go:376-398 | exactly the source's entries leave the store |
| `Engine.Idempotent` | app/internal/application/usecase/reflection.go:50-80 | after a fault-free execution, executing the same source again changes nothing, whatever fails and whatever part of the namespaces is listed |
| `Engine.PolicySafety` | app/internal/application/usecase/reflection.go:66-77 | under any faults a changed object is a mirror owned by the source in a namespace both lists accept; other sources' entries never change; nothing is deleted |
| `Engine.ExactReconciliation` | app/internal/application/usecase/reflection.go:55-107 | the source then owns exactly its old entries still accepted and one entry per free candidate, none if it is not allowed |
| `Engine.FirstContact` | app/internal/application/usecase/reflection.go:109-183 | exactly when an object whose place is not in the store gets written; a plain object never |
| `Engine.HelmTargetOverwritten` | app/internal/application/usecase/reflection.go:151-155 | a Helm object at a target takes the source's data and loses its annotations |
| `Engine.SourceStable` | app/internal/application/usecase/reflection.go:221-246 | a source still reads the same after being its own mirror |
| `Runs.Isolation` | app/internal/domain/entity/resource.go:237-252 | in every run, an object in a namespace no source accepts on both lists is never touched |
| `Runs.NoClobbering` | app/internal/application/usecase/reflection.go:147-183 | in every run, a plain object without a registered mirror of its kind stays as it is |
| `Runs.NothingDeleted` | app/cmd/replikator/main.go:347-357 | in every run, no object disappears except by an outside change |
| `Runs.Quiescence` | app/internal/application/usecase/reflection.go:288-300 | in every run whose writers of an object carry one version, the object is written at most once, and never if it already carries it |
| `Runs.WritesBounded` | app/internal/application/usecase/reflection.go:331-343 | writes made plus places still behind never exceed the places behind at the start, however long the run |
| `Runs.AgreementKept` | app/internal/application/usecase/reflection.go:215-347 | every honest run keeps: an object naming a version holds its data, an entry naming a version has its object at that version |
| `Runs.Convergence` | app/internal/application/usecase/reflection.go:73-77 | after any such run an execution brings every surviving reachable mirror to the source's data |
| `Runs.RepairedExactlyWhen` | app/internal/domain/service/reflection.go:31-35 | with no assumption on the state, exactly when a fault-free execution leaves a mirror with the source's data |
| `Runs.FailedWriteNotRetried` | app/internal/domain/service/reflection.go:35 | after a failed write or target read, no run writes that object while its entry stays and its owner keeps the version, whatever other sources, registrations and deletions come in between |
| `Runs.DeletedMirrorStaysAway` | app/internal/domain/service/reflection.go:31-33 | in every run a mirror deleted from outside is not created again while its entry stays and its owner keeps the version |
| `Runs.OwnershipStable` | app/internal/application/usecase/reflection.go:110-113 | in every run, a registered place keeps its owner, kind and flag until its owner's policy or an explicit removal drops it |
| `Rounds.RoundConverges` | app/internal/application/usecase/reflection.go:50-80 | after one fault-free round of independent sources, in any order and followed by any repeats with any failures, every reachable mirror holds its source's data |
| `Contention.TwoRoundsAreFixpoint` | app/internal/application/usecase/reflection.go:50-145 | two fault-free rounds, each in any order, reach a fixpoint whatever places the sources contend for |
| `Contention.OneRoundEnoughExactlyWhen` | app/internal/application/usecase/reflection.go:109-145 | one round is a fixpoint exactly if no place that one of its sources would take is given up by its owner after the last of them has run, read off the round and the state before it |
| `Contention.FixpointExactlyWhen` | app/internal/application/usecase/reflection.go:109-145 | a round ends in a fixpoint exactly if it leaves no free place one of its sources would take |
| `Contention.RivalsNeverSettle` | app/internal/domain/valueobject/identifiers.go:9-19 | two sources of one identifier at different versions that want the mirror they have share no fixpoint |
| `Contention.RivalsOverwriteForever` | app/internal/domain/service/reflection.go:31-35 | taking turns, after one turn each, every execution writes that mirror |
| `Contention.OneRoundNotEnough` | app/internal/application/usecase/reflection.go:199-213 | a place its owner frees after its taker has run is taken only in the next round |
| `Contention.ContendedRoundConverges` | app/internal/application/usecase/reflection.go:68-77 | after one fault-free round in any order, contention or not, every reachable mirror a source has holds its data |
| `Contention.TakenPlacesSettle` | app/internal/application/usecase/reflection.go:110-113 | after one round every taken place is left alone by all sources |
| `Rounds.RoundIsFixpoint` | app/internal/controllers/controllers.go:434-439 | after such a round no further execution of its sources changes store or cluster, whatever its order, repetition and failures |
| `Rounds.Settled` | app/internal/domain/service/reflection.go:31-33 | after a round, each of its sources has nothing left to do |
| `Confluence.Commute` | app/internal/application/usecase/reflection.go:50-107 | independent executions reach the same state in both orders, whatever fails; one may want a place the other owns and keeps |
| `Confluence.AnyOrder` | app/internal/application/usecase/reflection.go:50-107 | a batch of pairwise independent sources reaches the same state in every order |
| `Confluence.Locality` | app/internal/application/usecase/reflection.go:109-145 | what becomes of a place depends only on that place and on the source's object |
| `Confluence.SameNameCollides` | app/internal/domain/valueobject/identifiers.go:9-19 | a Secret and a ConfigMap of one name do not commute, and the mirror Secret takes the ConfigMap's data |
| `Confluence.SamePlaceContends` | app/internal/application/usecase/reflection.go:109-145 | two sources that would both take a place do not commute |
| `Reconcilers.MirrorReconciler.Reconcile` | app/internal/controllers/controllers.go:345-443 | whatever reads and executions fail, a mirror event is a run of at most one registration and one execution per mirror of its source, and the cache gets exactly its record |
| `Reconcilers.MirrorReconciler.ExecuteForEach` | app/internal/controllers/controllers.go:434-439 | under any faults the loop is as many executions in a row as the source has mirrors |
| `Reconcilers.CleanExecutionIsLast` | app/internal/controllers/controllers.go:434-439 | once one of them meets no fault, the rest change nothing |
| `Reconcilers.EventIsOneExecution` | app/internal/controllers/controllers.go:417-439 | so an event whose first execution meets no fault is one registration and one execution |
| `Reconcilers.MirrorReconciler.RegisterMirror` | app/internal/controllers/controllers.go:417-432 | the entry is replaced by one with an empty version, and the cache gets its record |
| `Reconcilers.MirrorReconciler.RecordOnly` | app/internal/controllers/controllers.go:388-415 | with no announced source an auto mirror is recorded, any other forgotten |
| `Reconcilers.AnnotationsGovernWrites` | app/internal/controllers/controllers.go:154-187 | from annotation text to cluster, for every text and library: an object changes only for a source that says replicate and auto-replicate true, in a namespace some pattern of each list allows, the auto list counting if it has patterns and compiles |
| `Reconcilers.AutoListAloneWritesNothing` | app/internal/controllers/controllers.go:154-187 | without replicate-to no execution writes anything |
| `Reconcilers.BrokenAutoListWidens` | app/internal/domain/entity/resource.go:244-252 | an auto list that does not compile is ignored in favour of replicate-to |
| `Reconcilers.AutoListDecides` | app/internal/domain/entity/resource.go:244-252 | exactly where a source may be pushed: its auto list decides if it has patterns and compiles, replicate-to otherwise |
| `Reconcilers.OpenBracketBreaks` | app/internal/domain/valueobject/identifiers.go:91-97 | the list a[ does not compile |
| `Reconcilers.OnDemandWritesNothing` | app/internal/application/usecase/reflection.go:199-213 | without auto-replicate nothing is written and no entry survives |
| `Reconcilers.WrittenMirrorNamesOwner` | app/pkg/annotations/annotations.go:9-24 | the annotations written give owner and auto flag back |
| `Reconcilers.RestartRestoresRuleMirror` | app/internal/controllers/controllers.go:389-408 | in particular, the event of a rule's Secret mirror restores its entry and touches no object |
| `Reconcilers.RestoredExactlyWhen` | app/internal/controllers/controllers.go:345-443 | from an empty store, exactly when an event puts its mirror's entry back, and with what owner, kind and flag |
| `Reconcilers.ConfigMapMirrorNotRestored` | app/internal/controllers/controllers.go:462-476 | an event at a place without a managed Secret restores no entry |
| `Reconcilers.EventClobbersExactly` | app/internal/controllers/controllers.go:417-439 | exactly when an event changes a plain object: the ConfigMap at the place of a Secret mirror whose source is a ConfigMap that can push there, the push getting through |
| `Reconcilers.MirrorEventClobbersOtherKind` | app/internal/controllers/controllers.go:417-424 | the object then holds the ConfigMap source's data under mirror annotations |
| `Reconcilers.SourceDeletion` | app/internal/application/usecase/reflection.go:376-398 | as a step of a run: the entries of the source go, the cluster stays |
| `Reconcilers.HandleNamespaceDeletion` | app/internal/controllers/controllers.go:645-660 | exactly the namespace's cache keys and auto-created entries go |
| `Rules.DetermineTargetNamespaces` | app/internal/controllers/clusterreplicationrule_controller.go:228-276 | exactly the listed namespaces passing includes, selector and excludes, in order; an error exactly for a selector that does not compile, outside the fragment as the library decides |
| `Rules.RuleAccepts` | app/internal/controllers/clusterreplicationrule_controller.go:424-435 | targets fed back as patterns accept exactly themselves |
| `Rules.RuleEndToEnd` | app/internal/controllers/clusterreplicationrule_controller.go:402-440 | after a rule's execution the source owns exactly the wanted places it had or that were free, and objects change only in wanted namespaces |
| `Rules.RuleOrderIrrelevant` | app/internal/controllers/clusterreplicationrule_controller.go:330-359 | the order of a rule's sources does not matter if their names and target names differ (as without a template and with one kind) and none has another's object for a mirror; mirrors left by other templates do not matter |
| `EndToEnd.RulePushes` | app/internal/controllers/clusterreplicationrule_controller.go:402-440 | the object at ns/name is copied to a free listed target, under the target name if there is one: data and type, or text and binary values, signed with source and version |
| `EndToEnd.RuleOverwritesExactly` | app/internal/application/usecase/reflection.go:147-183 | an object in the way changes exactly if Helm or the engine marked it and it lacks the version |
| `EndToEnd.PlainObjectSurvives` | app/internal/application/dto/dto.go:289-324 | an object with none of Helm's or the engine's marks stays as it is in every run |
| `EndToEnd.SourceExactlyWhen` | app/internal/controllers/controllers.go:154-162 | an object is a source exactly if its replicate annotation is there and says true |
| `EndToEnd.HoldsIsCopy` | app/internal/application/usecase/reflection.go:221-246 | holding a source's payload is having its data and type, or its text and binary values together |
| `EndToEnd.AnnotatedPushExactly` | app/internal/controllers/controllers.go:154-187 | an announced object is copied to a free listed namespace, under its own name, exactly if its four annotations say so, and what the copy holds |
| `EndToEnd.EventExecutesExactly` | app/internal/controllers/controllers.go:478-527 | a mirror event executes the source it names exactly if that is not Helm's and says replicate true; which source and flag are registered and executed, written out; otherwise no object changes |
| `EndToEnd.OtherEventsIgnored` | app/internal/controllers/controllers.go:445-476 | an event about anything but a Secret that names a source and is not Helm's does nothing, nor one whose source is absent or unreadable |
| `AllowedNamespaces.PassesAreSimultaneous` | app/internal/domain/valueobject/identifiers.go:89-92 | the four replacement passes act on each character separately |
| `AllowedNamespaces.CompileGlobCorrect` | app/internal/domain/valueobject/identifiers.go:87-98 | every pattern of the fragment, operators included, compiles exactly if its core is well formed and matches what its core accepts, any other as the library decides; of globs exactly the bracket-balanced compile and match the names the glob means |
| `AllowedNamespaces.NewAllowedNamespaces` | app/internal/domain/valueobject/identifiers.go:71-102 | the policy that `PolicyMeaning` interprets, or an error, for every list and library |
| `AllowedNamespaces.PolicyMeaning` | app/internal/domain/valueobject/identifiers.go:104-114 | every list allows a name exactly when some trimmed pattern allows it and no pattern that does not compile was reached, for every library |
| `AllowedNamespaces.GlobListMeaning` | app/internal/domain/valueobject/identifiers.go:71-114 | a list of globs allows exactly the names its globs mean, and none if an unbalanced one was reached |
| `AllowedNamespaces.PolicyEmpty` | app/internal/domain/valueobject/identifiers.go:116-118 | a policy counts as empty exactly if all patterns are blank or one that does not compile was reached |
| `AllowedNamespaces.LabelsAllowThemselves` | app/internal/domain/valueobject/identifiers.go:71-118 | a list of plain names allows exactly those names |
| `Anchoring.AnchoredMeaning` | app/internal/domain/valueobject/identifiers.go:94 | what any text of the fragment accepts between pasted anchors, and when it compiles: alternation, a leading operator and a trailing backslash included |
| `Regex.PlainInFragment` | app/internal/domain/valueobject/identifiers.go:89-94 | text without brackets, braces, question marks and backslashes is in the fragment |
| `Selector.SelectorMeaning` | app/internal/controllers/clusterreplicationrule_controller.go:212-226 | for every selector of the fragment, whether it compiles and what it accepts, alternation and escapes included |
| `Selector.ValidateSelector` | app/internal/webhooks/clusterreplicationrule_validator.go:124-140 | the webhook admits exactly the selectors the controller compiles |
| `Selector.TemplateExpression` | app/internal/controllers/clusterreplicationrule_controller.go:499-507 | templates are filled by the same expression; an empty selector, which the controller refuses, finds only the empty name |
| `Selector.SelectorIsFullMatch` | app/internal/controllers/clusterreplicationrule_controller.go:217-223 | without alternation and escapes, searching is matching the whole name, in all four combinations of anchors |
| `Expressions.PrintedCompiles` | app/internal/controllers/clusterreplicationrule_controller.go:225 | every expression of the fragment, printed with the parentheses it needs, compiles to one that matches the same spans: groups, alternation, operators and precedence |
| `Expressions.SelectorOfExpression` | app/internal/controllers/clusterreplicationrule_controller.go:212-226 | a printed expression without anchors and escapes, used as a selector, accepts exactly the names it matches as a whole |
| `Expressions.OperatorsCount` | app/internal/domain/valueobject/identifiers.go:94 | a star is any number of repetitions, a plus at least one, a question mark at most one |
| `Expressions.OutsideTexts` | app/internal/controllers/clusterreplicationrule_controller.go:225 | behind any expression a bracket, a brace, an escaped letter or digit or a flag takes the text out of the fragment |
| `Expressions.LazyOutside` | app/internal/controllers/clusterreplicationrule_controller.go:225 | so does a question mark behind a repetition |
| `Expressions.MalformedTexts` | app/internal/controllers/clusterreplicationrule_controller.go:225 | a parenthesis too many, a second or lone operator and an escaped character beyond ASCII are errors, whatever follows |
| `Expressions.UnfinishedTexts` | app/internal/controllers/clusterreplicationrule_controller.go:225 | a group left open and a trailing backslash are errors |
| `Selector.AlternationEscapesAnchors` | app/internal/controllers/clusterreplicationrule_controller.go:217-223 | the selector a\|b accepts the name ax |
| `TargetName.TransformTargetName` | app/internal/controllers/clusterreplicationrule_controller.go:482-519 | the loop of first-occurrence replacements, equal to simultaneous substitution for safe templates |
| `Templates.TemplateFilled` | app/internal/controllers/clusterreplicationrule_controller.go:482-519 | a template printed from text and references, braced or not, of any number of digits, is filled in with the groups referred to, nothing for a group that is not there |
| `Templates.ReferenceNumber` | app/internal/controllers/clusterreplicationrule_controller.go:488-496 | a reference names the decimal number it is printed from, and none if that exceeds 64 bits |
| `TargetName.SequentialIsSimultaneous` | app/internal/controllers/clusterreplicationrule_controller.go:486-516 | for a safe template and groups without dollars, replacing one by one is replacing all at once |
| `TargetName.SafeExactly` | app/internal/controllers/clusterreplicationrule_controller.go:482-519 | exactly the safe templates are filled in right for all texts without dollars, as groups up to the largest number in the template show |
| `TargetName.SafeExactlyForNames` | app/internal/controllers/clusterreplicationrule_controller.go:482-519 | for templates without braces, the same over groups made of name characters |
| `TargetName.WellFormedIsSafe` | app/internal/controllers/clusterreplicationrule_controller.go:483-493 | a template whose every dollar starts a token with a number that fits is safe |
| `TargetName.ClashDisagrees` | app/internal/controllers/clusterreplicationrule_controller.go:515 | for groups that give each token some text, a token occurring in what was built before it always shows in the result |
| `TargetName.TokenLenMeaning` | app/internal/controllers/clusterreplicationrule_controller.go:483-484 | the scanner finds the longest token at a position, and none exactly if there is none |
| `TargetName.DollarInGroup` | app/internal/controllers/clusterreplicationrule_controller.go:515 | with a dollar in a group it is not |
| `TargetName.StrayDollar` | app/internal/controllers/clusterreplicationrule_controller.go:515 | with a stray dollar in the template it is not |
| `RateLimiter.Limiter.Allow` | app/internal/controllers/clusterreplicationrule_controller.go:56-75 | one call is exactly one step of the bucket that the run results are about |
| `RateLimiter.WindowBound` | app/internal/controllers/clusterreplicationrule_controller.go:47-75 | in every run tokens stay within the burst and any window admits at most burst plus rate times its length |
| `RateLimiter.Conservation` | app/internal/controllers/clusterreplicationrule_controller.go:56-75 | level left plus admissions never exceed the level at the start plus rate times time passed |
| `RateLimiter.RefusedExactlyWhen` | app/internal/controllers/clusterreplicationrule_controller.go:64-74 | a call is refused exactly while level plus rate times time passed is below one |
| `RateLimiter.Wait` | app/internal/controllers/clusterreplicationrule_controller.go:77-89 | the delay is the random one if admitted, three seconds if not |
| `RateLimiter.SpacedCallAdmitted` | app/internal/controllers/clusterreplicationrule_controller.go:64-74 | in every run a call 1/qps after the previous one is admitted |
| `RateLimiter.BurstAdmitted` | app/internal/controllers/clusterreplicationrule_controller.go:47-54 | a bucket admits as many calls at one instant as it holds whole tokens, and refuses the next |
| `RateLimiter.SpacedRunAllAdmitted` | app/internal/controllers/clusterreplicationrule_controller.go:56-75 | in a run of any length whose calls are far enough apart to earn a token each, every call is admitted |
| `RateLimiter.NeverThrottled` | app/internal/controllers/clusterreplicationrule_controller.go:77-89 | while the context is live the bucket admits every call of a sequential trace that starts at or after its making, and every delay is the random one |
| `RateLimiter.AddAndExecute` | app/internal/controllers/clusterreplicationrule_controller.go:103-108 | the delay the bucket decides passes before the work; a cancelled wait does no work |
| `RateLimiter.ProcessResources` | app/internal/controllers/clusterreplicationrule_controller.go:330-359 | the loop over a rule's sources goes on after errors, reports exactly those that succeed, and while the context is live is never throttled |
| `RateLimiter.ProcessBatch` | app/internal/controllers/clusterreplicationrule_controller.go:110-123 | work runs on exactly the prefix up to the first failure or cancellation; the bucket admits every call made, each next one after the delay, and every delay is the random one |
| `RateLimiter.BatchDetermined` | app/internal/controllers/clusterreplicationrule_controller.go:110-123 | how far a batch gets and how it ends are determined by the first item that stops it |
| `ConfigMapData.SplitParts` | app/internal/application/usecase/reflection.go:308-316 | the loop splits by printability |
| `ConfigMapData.FlattenParts` | app/internal/application/usecase/reflection.go:239-245 | the loop merges, binary over text |
| `ConfigMapData.IsPrintable` | app/internal/application/usecase/reflection.go:349-356 | all bytes between 32 and 126 |
| `ConfigMapData.TextExactlyWhen` | app/internal/application/usecase/reflection.go:308-316 | a value is text on the mirror exactly if all its bytes lie between 32 and 126, binary otherwise |
| `ConfigMapData.SplitIsFixpoint` | app/internal/application/usecase/reflection.go:308-316 | a mirror of a mirror is byte-identical |
| `ConfigMapData.MirrorPartsIdentical` | app/internal/application/usecase/reflection.go:308-316 | exactly when the mirror has the same two parts as the source |
| `ConfigMapData.TextWithNewlineMoves` | app/internal/application/usecase/reflection.go:349-356 | a text value with a newline is binary on the mirror |
| `NamespaceLists.JoinNamespaces` | app/internal/application/dto/dto.go:134-143 | the printed list that the parser inverts |
| `NamespaceLists.ParseNamespaceList` | app/internal/application/dto/dto.go:214-226 | the loops give the trimmed non-empty pieces |
| `NamespaceLists.SplitNamespaces` | app/internal/application/dto/dto.go:228-245 | the non-empty stretches between commas |
| `NamespaceLists.TrimBlanks` | app/internal/application/dto/dto.go:247-257 | the two index loops trim spaces and tabs |
| `Text.SpaceCodePoints` | app/internal/domain/valueobject/identifiers.go:78 | white space by code point |
| `NamespaceLists.ParseAllowedNamespacesAnnotation` | app/internal/domain/valueobject/identifiers.go:128-142 | the loop gives the pieces trimmed of all white space, a star for the empty value |
| `NamespaceLists.ParseInvertsJoin` | app/internal/application/dto/dto.go:134-143 | parsing a printed list gives it back |
| `NamespaceLists.ParseJoinParse` | app/internal/application/dto/dto.go:214-245 | printing and parsing again changes nothing, for every annotation |
| `NamespaceLists.ParsersAgree` | app/internal/application/dto/dto.go:214-257 | exactly when the two parsers agree: no piece has white space other than spaces and tabs at its ends |
| `NamespaceLists.ParsersAgreeOnBlanks` | app/internal/domain/valueobject/identifiers.go:128-142 | in particular they agree on every non-empty value whose only white space is spaces and tabs |
| `NamespaceLists.RecordRoundTrip` | app/internal/application/dto/dto.go:38-49 | a record survives annotations exactly when its lists are trimmed, non-empty and comma-free |
| `Identifiers.SplitReflects` | app/internal/infrastructure/adapter/k8s/adapters.go:247-254 | the backward scan splits at the last slash |
| `Identifiers.SplitInvertsString` | app/internal/domain/valueobject/identifiers.go:29-31 | splitting inverts printing for slash-free names |
| `Identifiers.StringInvertsSplit` | app/internal/application/dto/dto.go:205-212 | printing inverts splitting exactly for values with a slash |
| `Identifiers.StringInjective` | app/internal/domain/valueobject/identifiers.go:57-59 | printed mirror identifiers are unique keys |
| `Caches.CleanupInvisible` | app/internal/infrastructure/cache/cache.go:79-88 | in every run on a monotone clock, leaving all cleanups out changes no answer |
| `Caches.AnsweredUntilExpiry` | app/internal/infrastructure/cache/cache.go:15-20 | in every run a key set at a time is answered for exactly until its expiry has passed, for ever if that is zero |
| `Caches.Cache.Sweep` | app/internal/infrastructure/cache/cache.go:79-88 | exactly the expired entries go |
| `Caches.PropertiesCache.IsNotFound` | app/internal/infrastructure/cache/cache.go:224-285 | a key reported absent has no known properties, an invariant of every method |
| `Caches.MirrorCache.DeleteByNamespace` | app/internal/infrastructure/cache/cache.go:186-207 | exactly the keys of the namespace go, and they are returned |
| `Caches.PropertiesCache.MarkNotFound` | app/internal/infrastructure/cache/cache.go:271-277 | the key loses its properties and is reported absent; known and absent keys stay disjoint |
| `Caches.IsMirrorInNamespace` | app/internal/infrastructure/cache/cache.go:200-207 | the part before the last slash is the namespace |
| `Caches.KeyNamespace` | app/internal/infrastructure/cache/cache.go:200-207 | a printed identifier is in its own namespace and no other |

## Left out

- Concurrency inside one execution: the read-then-create of a mirror is taken as one step, so nothing is claimed about two executions interleaving within it.
- A nil source, and source kinds other than Secret and ConfigMap, which the engine would accept and do nothing for.
- The replicated-at stamp and all timestamps, status fields, metrics, logging and domain events (the dispatcher has no handlers).
- The meaning of regular expressions beyond the fragment, and the library's limit on nesting depth; capture groups are given as a sequence of strings.
- Anchoring.AnchoredMeaning: is about text of the fragment, because classes, counted and lazy repetition and flags have no meaning here.
- Selector.SelectorMeaning: is about selectors of the fragment, for the same reason.
- TargetName.SafeExactly: is over all texts without a dollar, braces included, so `$$1${1}` counts as unsafe although no name completes its token; `SafeExactlyForNames` is over name characters, for templates without braces.
- TargetName.SequentialIsSimultaneous: an unsafe template can still come out right for particular groups; `SafeExactly` is about all of them.
- Reconcilers.MirrorReconciler.Reconcile: the namespaces listed are the same for all executions of one event.
- Certificate and Ingress reconcilers, federation, the watcher, the admission webhook apart from its selector, and the negative-cache gating of source events.
- Kubernetes client wiring, leader election, configuration and deployment files.
