# The MCPForge gateway, modelled and proved

MCPForge puts a gateway between a model and a company's systems. A tool call is admitted
or refused by a chain of policy stages, limited by counters that every session and every
catalogue generation shares, executed through a per-orchestration queue and answered; the
catalogue is replaced under running calls; identities and role grants live in git-held
mapping files; and text from a model may be written into a draft at one named path. This
project models those parts in Dafny and proves what they promise.

Everything between two `await`s of the source is one atomic step, as in JavaScript, and a
run is any sequence of enabled steps. Objects the source updates in place are classes;
their methods are proved equal to functions on values, and the theorems are about those
functions and about all runs.

| module | models |
|---|---|
| `Semaphore` | the FIFO semaphore with its dead queue entries, and the registry of semaphores |
| `Executor` | executions around one registry, as a step system |
| `Generations` | the executors of all catalogue generations, with requests that are still in the chain |
| `RateLimiter`, `Caps` | the sliding windows and the two counting limiters of stage 6c |
| `Admission` | calls, releases and reloads around one caps runtime, across modules |
| `PolicyChain`, `PolicyStages` | the chain runner over any stages, and the ten stages |
| `Scope`, `Discovery` | the six predicates, the resolver, and what may be listed and found |
| `Activation` | `forge.activate` and a session's lens over a whole session |
| `Reload` | the reloader's promise-chained mutex and the version check |
| `Subject`, `Mapping`, `MappingDocument` | qualified subjects, role resolution, the remap, and the mapping file's reader and writer |
| `Freeze` | the deep freeze on cyclic object graphs |
| `JsValues` | JavaScript values that share objects, and the comparison of two of them without one path |
| `DraftEdit` | the one-path edit and its check, on YAML documents with anchors and aliases |
| `SiteScan` | the interpolation scanner and the search for `next:` values |
| `EchoSampler` | the deterministic 1-in-N sampler of the identity echo |
| `Ordering`, `Wrappers` | string sort, set-to-list deduplication, `Option` |

Check the whole project with `dafny verify dfyconfig.toml`.

## Results that differ from the comments in the source

- **Activation only narrows.** `core/gateway/scope/predicates.ts:222` and `:293-295` say
  the caller can widen its lens with another `forge.activate`. The code resolves an
  activation under the lens in force, so a tool once left out never comes back
  (`Activation.LensNeverWidens`).
- **An alias moves with the edited field.** `adapters/model/src/apply.ts:99` promises that
  nothing but the one path moved. A clone keeps the sharing a YAML alias makes, so the
  deletion removes the slot along every way to it and a second way can change unseen
  (`DraftEdit.AnAliasMovesUnseen`). The promise holds exactly when the container is not
  shared or the text is not new (`DraftEdit.OnlyTheFieldMovesExactlyWhen`).
- **An alias can also stop a suggestion.** One of the field's own text moves with it, so the
  suggestion is refused with "report this as a bug"; one on the way to the field, or one
  that would lose its anchor, makes the writer throw (`DraftEdit.VerdictIs`,
  `DraftEdit.AppliedExactlyWhen`). The order of two suggestions then matters: writing one
  field can remove the alias that blocked the other (`DraftEdit.AnAliasMakesTheOrderMatter`,
  with the exact condition in `DraftEdit.SuggestionsCommuteExactlyWhen`).
- **A missing `output` block is refused as a bug.** The writer creates the block, the check
  sees it, and the suggestion is refused with "report this as a bug"
  (`DraftEdit.WithoutAnOutputBlock`, with drafts in `DraftEdit.NoOutputBlockIsRefused`).
- **Equal versions pin bytes only without reuse.** The reloader compares consecutive
  generations, so v1/A, v2/B, v1/C passes, and so does removing and re-adding a tool
  (`Reload.ReuseUnpinsBytes`). Equal versions force equal bytes exactly when the tool was
  served under that version all the way between (`Reload.VersionPinsExactlyWhen`).
- **The rate bound depends on the clock.** It holds exactly when the clock never comes back
  within a window of a reading it had already left by a whole window
  (`RateLimiter.BoundExactlyWhen`); smaller steps back do no harm.
- **A refused call can use up the minute.** By `core/gateway/caps/rate-limiter.ts:63-65` a
  call refused on one rate limit must not consume the other. One refused for want of a
  concurrency slot consumes both: it has already been recorded in its tool's and its
  caller's window (`Caps.ChargedExactlyWhen`, with runs in
  `Caps.RefusedAndChargedAllTheSame`).
- **The split of the resolver needs a snapshot.** The three scope stages add up to the
  resolver although flags and probe may change between them, but only because the
  consumer, session and lens cannot (`PolicyStages.SplitNeedsTheSnapshot`).
- **Quoted braces count.** The interpolation scanner ends a slot at a `}` inside a string
  (`SiteScan.QuotedBraceIsCounted`, with the exact condition in
  `SiteScan.StripsOneSlotExactlyWhen`).
- **A group or override named `__proto__` is silently dropped** by the mapping reader
  (`MappingDocument.ProtoGroupIsDropped`, `MappingDocument.ProtoOverrideIsDropped`, with a
  file in `MappingDocument.AProtoFileIsAccepted`).
- **A reload does hand out fresh queue slots.** `core/gateway/launch.ts:435-437` says a
  reload must never hand anyone fresh concurrency slots, and keeps one caps runtime for the
  process. The executor and its per-orchestration registry are built anew for every
  catalogue generation, and a request keeps the generation it arrived under
  (`core/gateway/assembly/surface.ts:391-421`). The process stays within the newest limit
  exactly when no earlier generation holds a slot and no request from before is still to
  queue (`Generations.StaysWithinExactlyWhen`), and with another reload to come it may
  always go over (`Generations.EveryReloadMayExceed`); what always holds is the sum of the limits of the
  generations that hold a slot (`Generations.ProcessBound`).
  The echo sampler is rebuilt with the executor, which never checks less
  (`EchoSampler.RebuildingChecksNoLess`).
- **The slots are released.** The headers of `core/gateway/caps/index.ts` and
  `caps/concurrency.ts` say nothing calls `release`; `core/gateway/assembly/surface.ts:278`
  does, and `Admission` proves it does so exactly once.
- **A tool whose probe or kill-switch check threw is still findable**, marked disabled, as
  one the probe switched off; the comment at `core/gateway/meta/visibility.ts:141` speaks
  of the latter only (`Discovery.FindableIsFirstFour`).

## Model

| member | source | states |
|---|---|---|
| `Semaphore.FifoSemaphore.constructor` | adapters/function/src/concurrency.ts:38-43 | starts free and empty, with the invariant |
| `Semaphore.NewSemaphore` | adapters/function/src/concurrency.ts:38-43 | a limit is refused exactly when it is below one |
| `Semaphore.FifoSemaphore.Acquire` | adapters/function/src/concurrency.ts:53-80 | granted at once exactly when a slot is free, otherwise queued last; the invariant holds after |
| `Semaphore.FifoSemaphore.OnTimeout` | adapters/function/src/concurrency.ts:71-75 | fails a request that still waits and nothing else; its dead entry stays queued |
| `Semaphore.FifoSemaphore.Release` | adapters/function/src/concurrency.ts:82-90 | any number of calls of one release closure free one slot and pump; the invariant holds after |
| `Semaphore.FifoSemaphore.PumpQueue` | adapters/function/src/concurrency.ts:92-100 | the shift-and-skip loop computes the specified pump on any queue, dead entries included |
| `Semaphore.FifoSemaphore.QueueDepth` | adapters/function/src/concurrency.ts:49-51 | the depth counts live waiters only, not queue entries |
| `Semaphore.AcquireInv` | adapters/function/src/concurrency.ts:53-80 | an acquire keeps the invariant and is granted exactly when a slot was free |
| `Semaphore.TimeoutInv` | adapters/function/src/concurrency.ts:71-75 | a timeout, at any time, keeps the invariant |
| `Semaphore.TimeoutFailsTheWaiter` | adapters/function/src/concurrency.ts:71-75 | in a run, a timer that fires fails its own request if that still waits, and leaves every other request, the queue and the held count as they were |
| `Semaphore.ReleaseInv` | adapters/function/src/concurrency.ts:82-90 | a release keeps the invariant, and a second release of the same token changes nothing |
| `Semaphore.ReleaseServesOldest` | adapters/function/src/concurrency.ts:82-100 | the queue refines "serve the longest waiter": a release hands the slot to the oldest live waiter and to nobody else, or frees it when nobody waits |
| `Semaphore.RunInv` | adapters/function/src/concurrency.ts:33-101 | in every state of every run: held equals the live unreleased tokens, held is within the limit, and a waiter implies held equals the limit (no lost wake-up, no barging) |
| `Semaphore.SettledOnce` | adapters/function/src/concurrency.ts:27-31 | in every run a request is granted or failed at most once, never both, and never goes back to waiting |
| `Semaphore.TimedOutExactlyWhen` | adapters/function/src/concurrency.ts:71-75 | in every run a request has timed out if and only if its timer met it waiting |
| `Semaphore.GrantedInArrivalOrder` | adapters/function/src/concurrency.ts:92-100 | in every run, when a later request holds a grant every earlier one has been granted or has timed out |
| `Semaphore.ConcurrencyRegistry.For` | adapters/function/src/concurrency.ts:108-125 | one semaphore per orchestration, shared by every caller with the same limit; another limit or a bad one is refused and registers nothing |
| `Executor.StepInv` | adapters/function/src/executor.ts:91-217 | every step of any execution (submit, slot timeout, resume, abort, settle) keeps the system invariant over a shared registry |
| `Executor.RunInv` | adapters/function/src/executor.ts:91-217 | the invariant holds in every state of every interleaving |
| `Executor.HeldCountsHolders` | adapters/function/src/executor.ts:130-138 | a semaphore's held count is the number of executions that own one of its slots |
| `Executor.ExecutorSafety` | adapters/function/src/executor.ts:98-217 | over every interleaving: client calls in flight never exceed an orchestration's limit, an execution has released once exactly when it is finished, and one refused at grant, validation or admission never called the client |
| `Executor.SubmitDecides` | adapters/function/src/executor.ts:98-138 | in any run, what becomes of a submitted call: refused for its grant, its arguments or its orchestration's limit, in this order, or queued with a request that is granted at once exactly when a slot is free |
| `Executor.SlotTimeoutRefuses` | adapters/function/src/executor.ts:130-138 | in any run, after the timer of a queued execution has fired it can resume, and then ends refused with RATE_LIMITED, without a client call |
| `Executor.RateLimitedExactlyWhen` | adapters/function/src/executor.ts:130-138 | in every run an execution is refused with RATE_LIMITED if and only if its timer met its request waiting and it has resumed since |
| `Executor.NothingLeaks` | adapters/function/src/executor.ts:211-216 | when every execution has ended, on whatever exit, no slot is held anywhere |
| `Executor.OutcomeOfTheRun` | adapters/function/src/executor.ts:140-216 | over any run, a finished execution's client call has settled once, and its outcome is made of what came back and of whether the run's own abort had fired before |
| `Executor.ResultExactlyWhen` | adapters/function/src/executor.ts:144-216 | over any run, an execution has ended with a result if and only if its call settled, before its abort fired, with a response within the byte cap, without a target error and with the echo satisfied |
| `Executor.FailedExactlyWhen` | adapters/function/src/executor.ts:159-246 | over any run, what a finished execution failed with, code by code, if and only if: the error's own code where it has one; otherwise on whether the run's abort had fired first, on what was thrown, and for a response on the byte cap before the target's error before the echo |
| `Executor.OutcomeIsFinal` | adapters/function/src/executor.ts:211-216 | once an execution has its outcome nothing later changes it |
| `Generations.StepInv` | core/gateway/launch.ts:446-457 | arrivals, dispatches under the generation a request arrived in, executor steps of any generation and reloads keep every registry's invariant |
| `Generations.RunInv` | core/gateway/launch.ts:446-457 | that holds in every state of every run over any number of reloads |
| `Generations.ProcessBound` | core/gateway/launch.ts:446-457 | in every run the calls in flight on an orchestration, over all generations, are at most the limits of the generations still holding one of its slots, added up |
| `Generations.ArrivalsAreConserved` | core/gateway/assembly/surface.ts:391-421 | over any run the requests that arrived are, one by one, those still on their way and those dispatched or dropped: none is lost and none asks twice |
| `Generations.StaysWithinExactlyWhen` | core/gateway/assembly/surface.ts:391-421 | with no further reload, every continuation keeps the process within the newest limit if and only if no earlier generation holds a slot of the orchestration and no request that arrived under one is still to queue for it |
| `Generations.FillUp` | adapters/function/src/executor.ts:130-138 | from any reachable state the newest generation can be brought exactly to its limit, the others untouched |
| `Generations.EveryReloadMayExceed` | core/gateway/launch.ts:446-457 | from any reachable state and for any orchestration there is a run with one further reload that goes over the newest limit: no state is safe while another reload may come |
| `Generations.AReloadExceedsTheLimit` | core/gateway/launch.ts:446-457 | from the start, for any orchestration, a run that is within its limit before a reload and over it after |
| `RateLimiter.SlidingWindow.Count` | core/gateway/caps/rate-limiter.ts:20-33 | counting first drops every expired prefix reading |
| `RateLimiter.SlidingWindow.Record` | core/gateway/caps/rate-limiter.ts:25-27 | appends the reading and drops none |
| `RateLimiter.CapsRateLimiter.constructor` | core/gateway/caps/rate-limiter.ts:51-55 | starts with no window |
| `RateLimiter.CapsRateLimiter.Check` | core/gateway/caps/rate-limiter.ts:57-91 | the two-window check over heap windows, which never alias, computes the specified check: peek both, record both or neither |
| `RateLimiter.EvictIsFilter` | core/gateway/caps/rate-limiter.ts:29-34 | on ordered readings, evicting the prefix is filtering the whole list |
| `RateLimiter.RunRepresents` | core/gateway/caps/rate-limiter.ts:17-82 | over any history with a non-decreasing clock the stored window is the whole admitted history filtered to the last minute |
| `RateLimiter.AdmittedIffUnderBothLimits` | core/gateway/caps/rate-limiter.ts:57-82 | the rate check lets a call through exactly when it let through fewer than the limit of its tool's and of its caller's calls in the minute before it, over the whole history |
| `RateLimiter.RefusedRecordsNothing` | core/gateway/caps/rate-limiter.ts:63-77 | a refused call records its time in no window |
| `RateLimiter.RefusalNamesTheLimit` | core/gateway/caps/rate-limiter.ts:57-82 | over any history, which of the two limits a refusal names: the tool's when its minute is full, the caller's when only that one is |
| `RateLimiter.RateBound` | core/gateway/caps/rate-limiter.ts:57-82 | under a non-decreasing clock every half-open interval of 60 000 ms holds at most the limit of admitted calls, for every tool and every caller |
| `RateLimiter.BoundWithoutRecross` | core/gateway/caps/rate-limiter.ts:29-82 | the bound holds for every history whose clock never comes back near a reading it has left by a whole window, however else it steps back |
| `RateLimiter.RecrossBreaksTheBound` | core/gateway/caps/rate-limiter.ts:29-34 | for every three readings that do come back, a history of four calls under a limit of one admits two in one minute |
| `RateLimiter.BoundExactlyWhen` | core/gateway/caps/rate-limiter.ts:29-82 | a clock keeps every history read against it within the limit, for all caps, tools, callers and intervals, if and only if it never comes back in that way |
| `Caps.ConcurrencyLimiter.constructor` | core/gateway/caps/concurrency.ts:30-36 | starts with nothing in flight |
| `Caps.ConcurrencyLimiter.TryAcquire` | core/gateway/caps/concurrency.ts:38-48 | takes one slot under the key or, at the limit, nothing |
| `Caps.ConcurrencyLimiter.Release` | core/gateway/caps/concurrency.ts:51-58 | gives one slot back, floored at zero, and forgets a key that reaches it |
| `Caps.KeysAreIndependent` | core/gateway/caps/concurrency.ts:29-63 | after any interleaving of takes and gives over many keys, what is read for a key is what its own operations alone come to, and stays between zero and the limit |
| `Caps.AcquireThenGiveBack` | core/gateway/caps/concurrency.ts:38-58 | giving back what was just taken restores the very table |
| `Caps.CapsRuntime.constructor` | core/gateway/caps/index.ts:56-60 | starts with no window and no slot taken |
| `Caps.CapsRuntime.Check` | core/gateway/caps/index.ts:62-86 | rate windows, then the gateway's slot, then the binding's with the undo: the whole new state |
| `Caps.CapsRuntime.Release` | core/gateway/caps/index.ts:95-100 | gives back one slot of the binding and one of the gateway |
| `Caps.RefusalTakesNoSlot` | core/gateway/caps/index.ts:68-83 | a refusal at any of the four checks leaves both concurrency tables as they were; an admission takes one slot in each |
| `Caps.ChargedExactlyWhen` | core/gateway/caps/index.ts:68-83 | a call uses up a unit of its tool's and of its caller's minute exactly when it is admitted or is refused for want of a concurrency slot, and never when a rate limit refuses it |
| `Caps.VerdictExactlyWhen` | core/gateway/caps/index.ts:62-86 | admitted if and only if both minutes, the gateway's slots and the binding's slots have room; otherwise the first of these without room is what refuses |
| `Caps.RefusedAndChargedAllTheSame` | core/gateway/caps/index.ts:68-83 | a run from the empty state for each of the two refusals: a call refused for want of a slot makes the next call to its tool exceed the rate limit, although none was ever let through |
| `Caps.AdmitThenRelease` | core/gateway/caps/index.ts:62-100 | admission followed by release restores both concurrency tables |
| `Admission.StageIdsAreTheChain` | core/gateway/policy/stages.ts:467-478 | the walk of this module is over exactly the ten stages of the policy chain, in order |
| `Admission.StepInv` | core/gateway/assembly/surface.ts:391-421 | arrivals, stages, 6c, endings, answers and reloads each keep: every count equals the outstanding admitted calls under the key they were admitted with |
| `Admission.RunInv` | core/gateway/assembly/surface.ts:391-421 | that holds over any interleaving of calls and reloads |
| `Admission.SlotsAreConserved` | core/gateway/caps/index.ts:62-100 | each per-binding count equals the outstanding calls admitted under that key, the global count equals all of them, and neither exceeds its limit |
| `Admission.AdmittedExactlyWhenThereIsRoom` | core/gateway/caps/index.ts:62-86 | in any run 6c lets a call on if and only if its tool's and its caller's minute have room and fewer calls are outstanding than the gateway's limit and its binding's; otherwise it refuses with RATE_LIMITED |
| `Admission.BindingIsBounded` | core/gateway/assembly/surface.ts:391-421 | in any run the outstanding calls whose tool, in the catalogue each arrived under, runs on one binding never exceed that binding's limit |
| `Admission.FloorNeverFires` | core/gateway/caps/concurrency.ts:51-58 | a release always finds the slot it gives back, under the admission key, even after a reload moved the binding |
| `Admission.ReleasedExactlyOnce` | core/gateway/assembly/surface.ts:266-279 | an answered call has given its slots back exactly once if 6c admitted it and never otherwise; when all are answered both tables are empty |
| `Admission.TraceTellsAdmission` | core/gateway/assembly/surface.ts:275-278 | for any list of stages with one 6c that is not last, the surface's reading of the trace says "admitted" exactly when the walk got past 6c |
| `Admission.CallsAreToldByTheirEvents` | core/gateway/policy/chain.ts:115-193 | in every run, what each call has been told follows from its own events alone: walking while all its stages continued, decided by the first that stopped it or by the end of the chain, with that stage, trace and code, and answered once its answer was complete |
| `Admission.SnapshotIsServedOnArrival` | core/gateway/assembly/surface.ts:391-421 | in every run a call keeps, through every reload, the catalogue that was the last one loaded when it arrived |
| `Admission.AnswerInv` | core/gateway/assembly/surface.ts:398-412 | the finally that answers a call keeps the conservation invariant |
| `PolicyChain.RunPolicyChain` | core/gateway/policy/chain.ts:101-198 | the loop with its mutable trace, stage and state computes the specified walk |
| `PolicyChain.ProceedOnlyIfAllContinued` | core/gateway/policy/chain.ts:97-130 | proceed implies every stage continued on the state its predecessor left, and the mint did not deny |
| `PolicyChain.AllContinuedProceeds` | core/gateway/policy/chain.ts:162-193 | and conversely |
| `PolicyChain.FirstStopDecides` | core/gateway/policy/chain.ts:115-198 | for any stages, the first that does not continue decides, with its id, the trace up to it and its code or response; a throw, an unknown outcome and a refusal with a blank next all deny; the mint decides once all have continued |
| `PolicyChain.TraceEndsAtDecider` | core/gateway/policy/chain.ts:115-159 | the trace is a prefix of the list ending at the deciding stage; a denial by the mint names the last stage |
| `PolicyChain.ThrowingStageDenies` | core/gateway/policy/chain.ts:119-128 | putting a throwing stage at k leaves decisions taken before k alone and turns every other one into a denial at k |
| `PolicyChain.FaultyStageNeverProceeds` | core/gateway/policy/chain.ts:119-128 | a list with a stage that always throws lets no call proceed |
| `PolicyChain.EntryPointsAgree` | core/gateway/policy/entry-points.ts:27-42 | two calls that differ only in entry point get the same decision when no stage reads it |
| `Scope.UnionRoleScopes` | core/gateway/scope/predicates.ts:55-66 | the loop computes the union; a role with no compiled scope adds nothing |
| `Scope.ScanKillSwitches` | core/gateway/scope/predicates.ts:258-285 | admits exactly when no active flag hits the tool, its server, its binding type, the consumer or the deployment |
| `Scope.EvaluatePredicates` | core/gateway/scope/resolve.ts:59-96 | the nested loops with break and try compute the specified resolution |
| `Scope.ResolutionIsExact` | core/gateway/scope/resolve.ts:59-96 | every catalogue tool is either visible or refused with its first refusal, never both; the list is sorted without duplicates |
| `Scope.NoRefusalIffAllAdmit` | core/gateway/scope/resolve.ts:69-90 | visibility is an intersection: no refusal exactly when every predicate admits, a throwing one counting as refusing |
| `Scope.SixInOrder` | core/gateway/scope/predicates.ts:305-312 | the first refusal follows the documented precedence, the consumer's verdict before the session's lens |
| `Scope.VisibleIffSixAdmit` | core/gateway/scope/resolve.ts:99-104 | visible exactly when all six predicates admit, whatever each one reads |
| `Scope.VisibleExactlyWhen` | core/gateway/scope/predicates.ts:86-312 | on the fields alone, a catalogue tool is visible if and only if a package selects it and a held role grants it, the client is active, its binding types, ceiling, write permission, roles and packages cover it, the lens names it, its probe answered resolved or degraded_readonly, and no flag in force hits it |
| `Scope.RefusalByFields` | core/gateway/scope/predicates.ts:86-312 | the first of these to fail decides which predicate refuses and with which code, stated on the same fields; a missing record or scope denies |
| `Scope.MoreFlagsShowLess` | core/gateway/scope/predicates.ts:256-286 | adding kill-switch flags never shows more tools |
| `Scope.MoreRolesShowMore` | core/gateway/scope/predicates.ts:55-66 | adding human roles never shows fewer tools |
| `PolicyStages.OwnedByVerdicts` | core/gateway/policy/stages.ts:56-60 | which of the three stages owns a refusal, as a condition on the six verdicts |
| `PolicyStages.SplitIsTheResolver` | core/gateway/policy/stages.ts:116-201 | 6a, 6a′ and 6b together pass a tool exactly when the full resolver does at the last of them, even when flags and probe change between the stages |
| `PolicyStages.SplitNeedsTheSnapshot` | core/gateway/policy/stages.ts:116-201 | a concrete case where a consumer record changing between 6a and 6a′ would let a tool outside the lens through all three |
| `PolicyStages.OutOfScopeIsRefusedByItsOwner` | core/gateway/policy/stages.ts:66-201 | with flags and probe read anew at every stage, a tool outside the set resolved at 6b's reading is refused by the stage owning its first refusing predicate there, with the code the resolver's own refusal gives; unknown tools, throwing predicates and inactive consumers included |
| `PolicyStages.ProceedsExactlyWhenCleared` | core/gateway/policy/stages.ts:205-478 | with one reading per stage, a call proceeds with a given state if and only if its tool is in the scope resolved at 6b's reading, the limiter, the argument check, the roles that grant it (one ceiling at or above its class and, for a write, one that may write), the binding, the guardrails, the write gate and the idempotency gate all let it through, and the mint does not deny |
| `PolicyStages.InScopeIsDecided` | core/gateway/policy/stages.ts:205-478 | a call to a tool in scope gets exactly one decision, stated on the entry, the role views and the seams: the first condition to fail gives the stage, the code and the trace, and a replay answers |
| `PolicyStages.Asks6e` | core/gateway/policy/stages.ts:245-293 | 6e continues if and only if some held role that grants the tool has a ceiling at or above its class and, for a write, some such role may write; one read-only role beside it does no harm |
| `PolicyStages.BothDoorsDecideAlike` | core/gateway/policy/entry-points.ts:27-42 | the ten stages read the entry point nowhere, so both doors decide alike when the seams do |
| `PolicyStages.CallTimeRefusal` | core/gateway/policy/stages.ts:66-78 | re-resolving a one-tool catalogue gives exactly that tool's first refusal in the full order |
| `Discovery.ResolveDiscovery` | core/gateway/meta/visibility.ts:89-158 | the loop that fills a list, a set and a map computes the specified visibility |
| `Discovery.FindableIsFirstFour` | core/gateway/meta/visibility.ts:141-153 | findable equals the access map's keys and equals the tools the first four predicates admit |
| `Discovery.DiscoveryIsNested` | core/gateway/meta/visibility.ts:89-158 | listable within visible within findable within read authority |
| `Discovery.WhyNotListed` | core/gateway/meta/visibility.ts:118-153 | a findable tool is unlisted exactly when a grant is missing or the probe or a kill switch stops it, and the annotation says which |
| `Discovery.AnnotatedExactlyWhen` | core/gateway/meta/visibility.ts:89-158 | on the fields alone: which tools are annotated, with what, and which are listable and visible |
| `Activation.SessionServer.constructor` | core/gateway/assembly/surface.ts:339-339 | a session starts on the default lens |
| `Activation.SessionServer.ForgeActivate` | core/gateway/meta/activate.ts:67-228 | the branches and loops compute the specified answer and the lens it leaves |
| `Activation.Reachable` | core/gateway/meta/activate.ts:173-173 | a role or package is intersected with what the session can list, in order |
| `Activation.FindUnlistable` | core/gateway/meta/activate.ts:188-190 | finds the first named tool that cannot be listed |
| `Activation.ActivateOutcome` | core/gateway/meta/activate.ts:67-279 | what a success sets, in terms of the selection and the listable set; an error leaves the lens alone |
| `Activation.ActivationOnlyNarrows` | core/gateway/meta/activate.ts:166-190 | a success sets 1 to 26 tools, all listable and all within the lens in force |
| `Activation.NamedListIsAllOrNothing` | core/gateway/meta/activate.ts:154-227 | an explicit list succeeds exactly when it names 1 to 26 distinct tools that can all be listed, and then sets exactly those |
| `Activation.RoleIsActivatedExactlyWhen` | core/gateway/meta/activate.ts:105-180 | what naming a role does: the error when it is unknown, not held or grants nothing; otherwise what it grants of the listable tools, or the error when that is nothing or too much |
| `Activation.PackageIsActivatedExactlyWhen` | core/gateway/meta/activate.ts:125-180 | what naming a package does, narrowed to a module or not, with a module of an id defined by its dots |
| `Activation.NamedListExactlyWhen` | core/gateway/meta/activate.ts:154-227 | what an explicit list does: too long is refused first, then the least unlistable id decides the code by its annotation, otherwise exactly the named tools are set |
| `Activation.LensIsBounded` | core/gateway/meta/activate.ts:230-263 | over any session run an explicit lens holds 1 to 26 tools |
| `Activation.LensNeverWidens` | core/gateway/meta/activate.ts:259-263 | over any run with changing roles, flags, probe, catalogue and grants, the default never returns and each explicit lens is a subset of every earlier one |
| `Activation.ListStaysUnderTheCap` | core/gateway/assembly/surface.ts:382-483 | tools/list in explicit mode returns at most 30 definitions |
| `Activation.ListedExactlyWhen` | core/gateway/assembly/surface.ts:382-483 | which definitions tools/list returns, in the default mode and in the explicit one |
| `Reload.UnversionedChanges` | core/gateway/assembly/reload.ts:118-137 | the loop lists the tools whose bytes changed under an unchanged version |
| `Reload.UnversionedNone` | core/gateway/assembly/reload.ts:118-137 | the check passes exactly when no tool of both catalogues changed bytes but not version |
| `Reload.SuccessBalances` | core/gateway/assembly/reload.ts:208-236 | on success every changed id changed version, every other common id kept its bytes, and the new tool count is the old one plus the added less the removed |
| `Reload.AttemptExactlyWhen` | core/gateway/assembly/reload.ts:190-237 | a build goes through if and only if no tool changed its bytes under its old version; then added, removed and changed hold exactly the new, the gone and the changed ids, each once; otherwise the refusal names exactly the offending ids, each once; and a build that throws is refused as that |
| `Reload.CommittedExactlyWhenChecked` | core/gateway/assembly/reload.ts:239-258 | in every run, when the record of a built generation settles, that generation serves from then on if and only if the record succeeded and it passes the check against the one serving; otherwise nothing that serves changes |
| `Reload.StepInv` | core/gateway/assembly/reload.ts:239-272 | every step between two awaits keeps the invariant that relates the reloader to a sequential one |
| `Reload.OverlappingIsSerial` | core/gateway/assembly/reload.ts:239-272 | any overlap of reload requests equals running them one by one in arrival order: one active at a time, each with the sequential result, and what serves is the sequential state |
| `Reload.CommitReplacesWhatWasChecked` | core/gateway/assembly/reload.ts:242-255 | a commit replaces the very generation it was checked against; a record that throws changes nothing that serves |
| `Reload.GenerationCountsSuccesses` | core/gateway/assembly/reload.ts:248-255 | the generation number is one plus the recorded successes |
| `Reload.CommittedPassedTheCheck` | core/gateway/assembly/reload.ts:204-207 | consecutive committed catalogues always passed the version check against each other |
| `Reload.VersionPinsBytes` | core/gateway/assembly/reload.ts:118-137 | over a stretch of generations that serve a tool and reuse no version, the same version means the same manifest bytes |
| `Reload.ServedVersionsPinBytes` | core/gateway/assembly/reload.ts:239-272 | the same over any run of overlapping requests, up to what serves at this moment, a run that is still notifying included |
| `Reload.VersionPinsExactlyWhen` | core/gateway/assembly/reload.ts:118-137 | for any versions served over a history, the checks force equal bytes at two generations of one version if and only if the tool was served under that version at every generation between |
| `Reload.ReuseUnpinsBytes` | core/gateway/assembly/reload.ts:124-128 | returning to an old version, or removing and re-adding a tool, passes every check with other bytes |
| `Reload.CatalogueReloader.constructor` | core/gateway/assembly/reload.ts:172-178 | starts at generation 1 serving the initial catalogue |
| `Reload.CatalogueReloader.RequestReload` | core/gateway/assembly/reload.ts:264-271 | queues a run behind the last one |
| `Reload.CatalogueReloader.Start` | core/gateway/assembly/reload.ts:239-243 | a run reads the current generation when its turn comes |
| `Reload.CatalogueReloader.OnBuilt` | core/gateway/assembly/reload.ts:198-236 | the outcome is decided against what the run read, and nothing served changes |
| `Reload.CatalogueReloader.OnRecorded` | core/gateway/assembly/reload.ts:245-255 | commits only after the record succeeded and only when a generation was built |
| `Reload.CatalogueReloader.OnNotified` | core/gateway/assembly/reload.ts:252-256 | a failing notification changes no outcome |
| `Subject.MintedByItsProvider` | core/gateway/identity/subject.ts:40-62 | a subject belongs to a provider exactly when that provider's qualification of some sub produces it, whatever colons the sub holds |
| `Subject.SubjectsNeverCollide` | core/gateway/identity/subject.ts:40-46 | qualification is injective across providers and subs |
| `Subject.GroupsNeverCollide` | core/gateway/identity/subject.ts:73-77 | qualified groups of two providers are equal only for the same provider and the same group |
| `Subject.HoldsOnlyItsOwnProvidersGroups` | core/gateway/identity/subject.ts:79-85 | a member holds an entry of a qualified list exactly when it names one of its groups under its own provider |
| `Mapping.RolesForPrincipal` | core/gateway/identity/group-role-mapping.ts:606-620 | the nested loops return the sorted set of the member's group roles, under its own provider, and its override |
| `Mapping.RolesExactlyWhen` | core/gateway/identity/group-role-mapping.ts:606-620 | the roles are, sorted and each once, exactly those some file grants one of the member's groups under the provider that minted its subject, or the subject itself |
| `Mapping.PersonasForPrincipal` | core/gateway/identity/group-role-mapping.ts:629-643 | the personas offered, in the closed list's order |
| `Mapping.PersonasExactlyWhen` | core/gateway/identity/group-role-mapping.ts:629-643 | a persona is offered if and only if some file offers it to one of the member's groups under the provider that minted its subject; each once |
| `Mapping.QualifiedUnion` | core/gateway/identity/group-role-mapping.ts:646-657 | the sorted qualified groups of every file |
| `Mapping.AdminExactly` | core/gateway/identity/group-role-mapping.ts:688-710 | a member is an identity or super admin exactly when some file lists one of its groups under its own provider |
| `Mapping.RemapOverrides` | core/gateway/identity/group-role-mapping.ts:450-457 | rebuilding the record moves exactly one key, whatever order the entries come in |
| `Mapping.RemapOne` | core/gateway/identity/group-role-mapping.ts:434-492 | the rewritten document and the reported row of one affected file |
| `Mapping.RemapSubjectAcrossMappingFiles` | core/gateway/identity/group-role-mapping.ts:418-503 | refuses an unqualified target before any file is touched; otherwise rewrites exactly the affected files and reports one row each |
| `Mapping.RemapMovesTheOverrides` | core/gateway/identity/group-role-mapping.ts:434-482 | over all files: the new subject resolves to its own roles plus the old one's overrides, the old one to its group roles only, and everyone else's sorted list is unchanged |
| `Mapping.RemapTouchesNothingElse` | core/gateway/identity/group-role-mapping.ts:466-482 | personas, admin lists and admin decisions are unchanged for everyone, and each file changes in its two subject blocks only |
| `Mapping.SuperAdminSubjectsAfter` | core/gateway/identity/group-role-mapping.ts:459-464 | the super-admin subjects are the old ones with one name replaced |
| `Mapping.RemapTwiceIsRemapOnce` | core/gateway/identity/group-role-mapping.ts:426-432 | a second remap changes no file and reports no row |
| `Mapping.RemapToItself` | core/gateway/identity/group-role-mapping.ts:434-457 | a remap of a subject to itself changes nobody's roles |
| `Mapping.RowsAreTheAffectedFiles` | core/gateway/identity/group-role-mapping.ts:425-493 | the reported rows are exactly those of the affected files |
| `Mapping.RowReportsTheGrant` | core/gateway/identity/group-role-mapping.ts:385-403 | a row's roles are, sorted, what its file now grants the new subject, and its flags say what was merged |
| `MappingDocument.ReadEntries` | core/gateway/identity/group-role-mapping.ts:152-168 | the loop accepts exactly the records all of whose entries read, and drops the key `__proto__` |
| `MappingDocument.ReadProviderKeyed` | core/gateway/identity/group-role-mapping.ts:196-221 | accepts exactly the records keyed by provider ids all of whose parts read |
| `MappingDocument.ParseGroupRoleMappingFile` | core/gateway/identity/group-role-mapping.ts:249-323 | the reader names the first block that is wrong, in the source's order, or yields the normalised document |
| `MappingDocument.AcceptedExactlyWhen` | core/gateway/identity/group-role-mapping.ts:249-323 | a file is accepted if and only if every block is well-formed, stated on the raw tree; otherwise the first block that is not, in the source's order, is what is named |
| `MappingDocument.ParsedIsCanonical` | core/gateway/identity/group-role-mapping.ts:249-332 | whatever is accepted is canonical: provider ids, qualified subjects, sorted deduplicated non-empty lists, no empty optional block |
| `MappingDocument.RoundTrip` | core/gateway/identity/group-role-mapping.ts:506-535 | every canonical document reads back, once written, as itself |
| `MappingDocument.WrittenKeysAre` | core/gateway/identity/group-role-mapping.ts:506-535 | of any document exactly the blocks that hold something are written, besides the four keys every file has |
| `MappingDocument.CanonicalExactly` | core/gateway/identity/group-role-mapping.ts:249-332 | the canonical documents are exactly those the reader can produce |
| `MappingDocument.RemapIsReadBack` | core/gateway/identity/group-role-mapping.ts:466-483 | every file a remap to a qualified subject writes reads back as the remapped document |
| `MappingDocument.UnqualifiedTargetIsUnreadable` | core/gateway/identity/group-role-mapping.ts:423-431 | written to an unqualified subject the file would be refused, which is why the remap refuses first |
| `MappingDocument.AdminExactlyForParsedFiles` | core/gateway/identity/group-role-mapping.ts:688-710 | for the files of a deployment as read: a member is an admin exactly when some file lists one of its groups under its own provider |
| `MappingDocument.ProtoGroupIsDropped` | core/gateway/identity/group-role-mapping.ts:156-165 | a group named `__proto__` is accepted and maps nothing; every other group is mapped |
| `MappingDocument.ProtoOverrideIsDropped` | core/gateway/identity/group-role-mapping.ts:156-165 | so is a subject override for it, although it is no qualified subject; every other override is kept |
| `MappingDocument.AProtoFileIsAccepted` | core/gateway/identity/group-role-mapping.ts:152-168 | a file that names `__proto__` both ways is accepted and grants nobody anything |
| `Freeze.ReachableIsClosed` | core/gateway/anomaly/types.ts:145-153 | the reachable objects are closed under properties |
| `Freeze.ReachableIsLeast` | core/gateway/anomaly/types.ts:145-153 | and are contained in every closed set holding the root |
| `Freeze.Freezer.Walk` | core/gateway/anomaly/types.ts:145-153 | one visit on any graph: what it marks it freezes, it leaves no newly marked object with an unmarked child, and it terminates because unseen objects run out |
| `Freeze.FreezeObservation` | core/gateway/anomaly/types.ts:143-156 | freezes exactly the objects reachable from the observation, on any finite graph with sharing and cycles, and changes no property |
| `Freeze.FrozenThroughEveryProperty` | core/gateway/anomaly/types.ts:136-142 | every property of every reachable object leads to a frozen one |
| `JsValues.Without` | adapters/model/src/apply.ts:21-32 | the walking cursor and the deletion in place compute the document without one slot, or the document itself when the walk falls off |
| `JsValues.DeletedReads` | adapters/model/src/apply.ts:28-30 | on any graph, deleting a slot makes exactly the paths through it read as absent and leaves every other reading alone |
| `JsValues.WithoutHidesThePath` | adapters/model/src/apply.ts:21-32 | in an unshared document it hides exactly what lies under the path |
| `JsValues.CheckIsExact` | adapters/model/src/apply.ts:99-105 | for any two unshared documents the check passes if and only if every path not extending the named one reads the same in both |
| `JsValues.CheckOnSharedDocuments` | adapters/model/src/apply.ts:99-105 | what the check still guarantees when containers are shared |
| `DraftEdit.ApplySuggestion` | adapters/model/src/apply.ts:34-107 | the method computes the specified outcome: each refusal, the uncaught throws and the new document |
| `DraftEdit.VerdictIs` | adapters/model/src/apply.ts:96-106 | once the field is found: thrown, refused as a bug or applied, by conditions on the draft's own nodes, aliases and anchors |
| `DraftEdit.AppliedExactlyWhen` | adapters/model/src/apply.ts:49-106 | a suggestion is applied if and only if the draft parses with every alias resolved, its field is found, its container is there as a mapping with no alias on the way, and no alias blocks: none names the field's own text unless that text is already there, and none elsewhere names anything that is replaced |
| `DraftEdit.OutcomeIs` | adapters/model/src/apply.ts:36-107 | the whole outcome in order: field not allowed, draft not parsed, alias unresolved, field not found, and then what becomes of the write |
| `DraftEdit.WritesExactlyWhen` | adapters/model/src/apply.ts:96-96 | the writer throws unless the draft is empty or the path goes down containers to a mapping in which it ends or in which its next key is missing or has no value |
| `DraftEdit.ResolvesExactlyWhen` | adapters/model/src/apply.ts:49-94 | where each of the seven fields is found, read off the draft's value along its own path, and with what each is refused; an input is the first of that name |
| `DraftEdit.NodeReadsAs` | adapters/model/src/apply.ts:48-48 | what the draft's value holds at each node's own path: a scalar its text, a key without a value null, a container itself, an alias what it names |
| `DraftEdit.AppliedReadsBack` | adapters/model/src/apply.ts:50-106 | an applied suggestion reads back as the text itself, and for the aliases as the list of its non-empty lines |
| `DraftEdit.LinesOfAPiece` | adapters/model/src/apply.ts:56-60 | a text without a newline is one line, or none when empty |
| `DraftEdit.LinesAtANewline` | adapters/model/src/apply.ts:56-60 | and at a newline, wherever it stands, the lines are those before it and those after it |
| `DraftEdit.OnlyTheFieldMovesExactlyWhen` | adapters/model/src/apply.ts:99-105 | an applied suggestion reads back at its path, and nothing outside the path has moved if and only if the container is reached by no second path or the field already held the text |
| `DraftEdit.AnAliasMovesUnseen` | adapters/model/src/apply.ts:99-105 | a concrete draft with an aliased container where another path changes and the check passes |
| `DraftEdit.SuggestionsCommuteExactlyWhen` | adapters/model/src/apply.ts:50-106 | suggestions for two different fields commute (neither changes whether or why the other is refused, and the documents are equal) if and only if neither writes over the last alias in the other's way |
| `DraftEdit.AnAliasMakesTheOrderMatter` | adapters/model/src/apply.ts:96-106 | a concrete draft whose second suggestion is refused first and applied after the other |
| `DraftEdit.WithoutAnOutputBlock` | adapters/model/src/apply.ts:61-105 | on any draft whose `output` is no block: refused as a bug where the key is missing or has no value, thrown on any other value |
| `DraftEdit.NoOutputBlockIsRefused` | adapters/model/src/apply.ts:96-105 | three concrete drafts: without the key, `{output}` and `output:` |
| `DraftEdit.MissingContainerIsCreated` | adapters/model/src/apply.ts:96-99 | a write that finds no container creates one from some prefix of the path on, beside every node that was there |
| `DraftEdit.CreatingAParentIsSeen` | adapters/model/src/apply.ts:99-105 | and the check then always refuses |
| `SiteScan.StripInterpolations` | core/gateway/errors/site-scan.ts:56-74 | the index and depth loop computes the specified stripping of any string |
| `SiteScan.StripRendered` | core/gateway/errors/site-scan.ts:55-74 | stripping any template of literals free of `${` (no two adjacent) and brace-balanced slots yields the concatenated literals |
| `SiteScan.EmptyMeansOnlySlots` | core/gateway/errors/site-scan.ts:28-30 | the fixed text is empty exactly when every literal of the template is |
| `SiteScan.StripsOneSlotExactlyWhen` | core/gateway/errors/site-scan.ts:61-71 | around one slot without a nested template the scan is right if and only if no brace closes it early and it is balanced or nothing follows |
| `SiteScan.QuotedBraceIsCounted` | core/gateway/errors/site-scan.ts:66-70 | braces inside quotes are counted: a concrete slot leaks into the fixed text |
| `SiteScan.TemplateIsLiteral` | core/gateway/errors/site-scan.ts:81-93 | a value that is one well-formed template is classified as a literal with exactly its fixed text |
| `SiteScan.BalancedExactlyWhen` | core/gateway/errors/site-scan.ts:66-70 | a slot is balanced if and only if it closes as many braces as it opens and never more up to any point |
| `SiteScan.LiteralExactlyWhen` | core/gateway/errors/site-scan.ts:81-93 | a value is a literal if and only if one kind of quote opens and closes it |
| `SiteScan.AnnotationExactlyWhen` | core/gateway/errors/site-scan.ts:96-98 | of the lines that begin with the key, those passed over are exactly `next: string` with or without a null alternative and a semicolon, with any blanks between |
| `SiteScan.ClosesExactlyWhen` | core/gateway/errors/site-scan.ts:115-124 | a line closes a value if and only if its last character other than a blank is a comma |
| `SiteScan.LinesAreJoined` | core/gateway/errors/site-scan.ts:114-125 | a value on several lines is its trimmed pieces with one space between, from the first that is not empty |
| `SiteScan.OneLineSite` | core/gateway/errors/site-scan.ts:105-137 | a site on a line of its own is reported with that line's number and the very value |
| `SiteScan.ReadValue` | core/gateway/errors/site-scan.ts:114-125 | a value runs to the first line ending in a comma or to the end of the file |
| `SiteScan.ExtractNextSites` | core/gateway/errors/site-scan.ts:105-137 | the nested loops report the specified sites of any file |
| `SiteScan.FoundExactlyWhen` | core/gateway/errors/site-scan.ts:109-125 | a line starts a reported site if and only if it opens a value and no earlier value is still running |
| `SiteScan.SiteAfterACommaIsFound` | core/gateway/errors/site-scan.ts:13-24 | in the one-property-per-line style no site is missed |
| `EchoSampler.CreateDeterministicSampler` | adapters/function/src/identity.ts:62-66 | a rate is accepted exactly when it is a positive integer |
| `EchoSampler.DeterministicSampler.ShouldSample` | adapters/function/src/identity.ts:69-73 | moves the key's own counter by one and no other |
| `EchoSampler.DeterministicSampler.DecideEchoCheck` | adapters/function/src/identity.ts:94-105 | only a sampled read asks the counter |
| `EchoSampler.CounterCountsSampledReads` | adapters/function/src/identity.ts:67-73 | after any history a counter equals the sampled reads of its orchestration: writes and other orchestrations never move it |
| `EchoSampler.EveryRateth` | adapters/function/src/identity.ts:69-73 | the j-th sampled read of an orchestration is checked exactly when the rate divides j, whatever came between |
| `EchoSampler.ExactlyOneInRate` | adapters/function/src/identity.ts:52-57 | of the first n sampled reads exactly ⌈n/rate⌉ are checked, and any rate consecutive ones contain exactly one |
| `EchoSampler.CeilDivRoundsUp` | adapters/function/src/identity.ts:52-57 | the count in that statement is n divided by the rate, rounded up |
| `EchoSampler.RebuildingChecksNoLess` | core/gateway/launch.ts:446-457 | with a sampler built anew for each catalogue generation, an orchestration's reads are checked at least as often as by one sampler for the process, and at most once more for each further generation |
| `EchoSampler.OthersDoNotInterfere` | adapters/function/src/identity.ts:57-60 | a decision about one orchestration does not depend on the traffic of the others |
| `EchoSampler.WritesAreNeverSampledOut` | adapters/function/src/identity.ts:86-105 | in any history a write is checked unless the policy is never, and moves no counter |
| `EchoSampler.SampledReadsAreAll` | adapters/function/src/identity.ts:94-105 | the positions counted are all the sampled reads of the orchestration, each once, in order |

## Left out

- Message, `condition` and `next` texts: outcomes carry the code and the deciding stage, predicate or block.
- HTTP, MCP transport, the portal, the CLI, file-system walks and mapping files that fail to parse: a remap is given the files that loaded.
- YAML, Ajv, zod, hashing, signing and Argon2: parsed values are trees or heaps, a draft is a tree of YAML nodes, and validators, grant checks, write gate, idempotency gate, guardrails and the mint are arbitrary functions.
- Timers: a timeout or an abort is a step that may fire at any moment it is armed.
- Admission.TraceTellsAdmission: assumes 6c is not the last stage, because the runner puts a denial by the mint down to the last stage; in the shipped list it is the fourth.
- RateLimiter.RateBound: assumes a non-decreasing clock; what it needs exactly is in `RateLimiter.BoundExactlyWhen`.
- Reload.VersionPinsBytes: assumes the tool is served throughout and no version is reused, because without either it is false (`Reload.VersionPinsExactlyWhen`).
- Characters and order: strings are sequences of Dafny characters compared one by one, where JavaScript compares UTF-16 code units; numbers are unbounded.
- Object details of JavaScript: property order, accessors, proxies, symbol keys, typed arrays and inherited names, except `__proto__` in the mapping reader.
- DraftEdit.ApplySuggestion: a draft's anchor names are each defined once, before their aliases; merge keys, the library's limit on alias expansion, keys that are themselves aliases, comments and layout are not modelled.
- DraftEdit.SuggestionsCommuteExactlyWhen: the second suggestion works on the nodes the first one left; writing them out as text and parsing that again is the library's and not modelled.
- Generations.StaysWithinExactlyWhen: speaks of continuations without a reload; with one it never holds (`Generations.EveryReloadMayExceed`), and `Generations.ProcessBound` covers every run.
- Freeze.FreezeObservation: the heap it ranges over is any finite set of objects that no property leaves.
- The walk over source directories in the site scan, and splitting a file into lines: it is given the lines.
- Token estimates, cards, search ranking and the resident definitions' texts: only which ids are resident is modelled.
- Merging of overlay limits, dry runs, row caps, the measuring behind the byte cap, consumer quotas, proposals, approvals and the audit chain: each is another component or settled by one branch.
- Stage ids are written `6a'` and `6e'` for the source's `6a′` and `6e′`.
