# A11 in Dafny

A model of the parts of A11's Python layer that carry real algorithms and protocols, with proofs of what they keep.

- **Schema reorganiser** (`a11/actions/jsonschema.py`). Hoists every nested `$defs` entry of a JSON Schema to the root
  and merges equal ones. `Json`, `Inlining`, `Unfolding` and `LexicalScopes` say what a schema means, `FreshNames` and
  `Organising` are the walk as functions on its three tables, `Organiser` is the walk as it runs, `Tracing` tells what
  a walk does with names, `OrganisingTables`, `OrganisingMeaning`, `OrganisingConverse` and `OrganisingUnfolds` hold
  the proofs about walks, `OrganisedSchema` the theorems about the whole, and `OrganisingNames` tells where the names
  of definitions come from. `SchemaLimits` holds the schemas that show where the guarantees end. A schema means the
  tree left when it is inlined, which exists when every reference resolves and none leads back into a definition still
  being expanded; and, recursive or not, the trees left when its named schemas are unfolded to any depth. Two sets of
  names decide what reorganising preserves: names that are handed out for a definition in progress and then withdrawn
  because the definition merges with an equal one, and names of references that no scope resolves.
- **Hosted endpoint** (`a11/client/hosting.py`). `Hosting` is a state machine whose states are the await points of the
  maintenance loop and of its owner; network, hooks, clocks and cancellation are events. `HostingSafety` is the
  invariant, `HostingRecord` ties the history the machine keeps to the events that make it, `HostingGuarantees` is
  what follows over every run, `HostingSteps` tells by the fields before and after what comes of each thing awaited,
  and `HostedEndpoint` is the object whose fields change in place: the same machine, with what each part of a pass
  relies on and leaves behind.
- **Scheduling from another thread** (`a11/_asyncio.py`). `Scheduling` is the event loop's queue with the callbacks of
  one scheduled awaitable, `Scheduler` the closures that update what they share, and `NativeFuture` the future with a
  cancel hook and an await hook.
- **Fiber debugger** (`scripts/a11_fibers.py`). `WaitCycles` finds the cycles of a wait-for map, `FiberReport` builds
  that map from fiber records and walks registries and stacks in memory that may hold anything.
- **Token counters** (`a11/cli/chat_tokens.py`). `ChatTokens` keeps a turn's total from usage reports that repeat and
  arrive in any order; `ChatReports` tells by the blocks of a turn what is counted and shown.
- **Usage evidence** (`scripts/usage_evidence.py`). `UsageEvidence` reconciles the usage reported for each turn with
  the running totals of a harness, each turn told as the difference from the turn before; `UsageRows` tells by the
  events and the baseline what each row says.
- **Annotated actions** (`a11/actions/annotated.py`). `AnnotatedActions` compiles a function's signature into a schema
  and a plan, and follows the plan at a call; `AnnotatedServing` tells by annotations and call what comes of each
  parameter.

Where the code and its documentation disagree the model follows the code:

- The reorganiser's documentation says a reference is resolved against the nearest enclosing `$defs`. The code walks a
  definition with the scopes of the reference to it, so a name can be shadowed where the definition is used.
  `SchemaLimits.ShadowingChangesMeaning` shows a schema on which the two readings differ, and
  `LexicalScopes.LexicalAgrees` proves that they agree on every schema in which all references resolve and each nested
  `$defs` block either redefines nothing visible around it or defines all that is referred to under it.
- A definition that is null counts as missing, since the code cannot tell it from a name it did not find.
- The fallback for a parked stack with unknown bounds measures the first frame's distance from address 0, so such a
  stack yields nothing unless it lies in the lowest 16 MiB; `FiberReport.UnboundedFramesAreLow` states it.
- The markers' documentation says a required port must be supplied. The handler still falls back on the parameter's
  default, or on none where the type admits it; `AnnotatedActions.MissingExactly` says when a call fails.

Conventions. A document that is read is a `Node`: members keep their order, and arrays and objects carry a tag that
stands for object identity. A value that is written is a `Value` whose objects are maps; two values are equal exactly
when their key-sorted JSON texts are, so a value is its own deduplication key. Where a reference names something that
is not an object, Python's inliner raises; `Inlining.Overlay` then keeps the target beside the reference's own members,
so the theorems compare these too. Times are real numbers of seconds.

## Model

| member | source | states |
|---|---|---|
| FreshNames.UniqueNameSettles | a11/actions/jsonschema.py:160-166 | The fresh-name search returns the preferred name if it is free, and otherwise the candidate with the smallest suffix from 2 up that is free. |
| FreshNames.SettlesOnce | a11/actions/jsonschema.py:160-166 | Those two conditions leave one possible answer. |
| FreshNames.TriedGrows | a11/actions/jsonschema.py:163-165 | A taken candidate was not tried before, so every turn of the search leaves fewer names in use to run into; it therefore ends. |
| FreshNames.DecimalReads | a11/actions/jsonschema.py:164 | A suffix is written in decimal: its text is all digits, reads back as the number and has no leading zero. |
| Inlining.RefersExactly | a11/actions/jsonschema.py:217-219 | An object is a reference to a name if and only if the first member under `$ref` is the text `#/$defs/` followed by that name. |
| Inlining.NearestWins | a11/actions/jsonschema.py:220-227 | A name resolves to a definition if and only if the nearest enclosing block with a member of that name has it, and it is not null. |
| Inlining.EntersExactly | a11/actions/jsonschema.py:213-215 | Entering an object adds its `$defs` block, if it is an object, as the nearest scope, and nothing otherwise. |
| Inlining.InlineCovered | a11/status.py:388-414 | An inlining that succeeds is not changed by adding definitions, nor by marking as open ones it does not use. |
| Organising.Walk | a11/actions/jsonschema.py:204-250 | The walk is total on every finite schema, circular references included (fewer definitions not in progress, then smaller nodes), and leaves the definitions in progress as it found them. |
| Organising.ResolveNamed | a11/actions/jsonschema.py:179-202 | Following a reference likewise restores the definitions in progress. |
| OrganisingTables.WalkKeeps | a11/actions/jsonschema.py:204-250 | For every schema: exactly the names of definitions in progress are without a body, finished bodies and content keys stay in bijection, finished definitions never change, and the value returned holds no `$defs` and, below its top, no model or enumeration with a text title left inline. |
| OrganisingTables.SettleKeeps | a11/actions/jsonschema.py:194-202 | A reserved name ends up with its body or is withdrawn in favour of the one definition with that body; either way the name returned has that body and nothing finished changes. |
| OrganisingTables.RegisterKeeps | a11/actions/jsonschema.py:168-177 | Registering an inline schema returns the name of the one definition with its content. |
| Tracing.WalkAccounts | a11/actions/jsonschema.py:204-250 | For every schema: each reference a walk writes, or leaves in a definition it finishes, names a finished definition, a definition still in progress, a name withdrawn after it was handed out, or a name no scope defined; in documents made of dictionaries all of the last three kinds are still referred to somewhere. |
| Tracing.SettleAccounts | a11/actions/jsonschema.py:183-202 | A name handed out while its definition was walked ends up in the table, or among the withdrawn ones if the definition merged with another. |
| Tracing.NoTrace | a11/actions/jsonschema.py:183-236 | Walking a node that can be inlined hands out no name early, withdraws none and finds every reference. |
| OrganisingUnfolds.WalkUnfolds | a11/actions/jsonschema.py:204-250 | For every node, recursive definitions included: if no name is withdrawn and no missing one captured, what the walk writes unfolds, to any depth, to what it read. |
| OrganisingUnfolds.ResolveUnfolds | a11/actions/jsonschema.py:179-202 | The name a reference is given stands, to any depth, for its target: one in progress, one just finished, or one merged into an earlier definition. |
| OrganisingConverse.WalkExpanded | a11/actions/jsonschema.py:204-250 | If what the walk writes can be inlined and no withdrawn or missing name is captured, then what it read could be inlined. |
| OrganisingMeaning.SettleMeans | a11/actions/jsonschema.py:194-202 | Giving the reserved name its body, or withdrawing it, keeps every definition grounded and the meaning of the body. |
| OrganisingMeaning.RefMeaning | a11/status.py:403-408 | A reference with sibling members means those members laid over what it names. |
| OrganisingMeaning.HoistMeans | a11/actions/jsonschema.py:245-248 | Replacing an inline schema by a reference to its registered copy changes nothing about what it means. |
| OrganisedSchema.OrganisedIsTidy | a11/actions/jsonschema.py:252-255 | For every schema: no reserved placeholder survives, no two definitions are equal, `$defs` occurs at the root only and is not empty, and no model or enumeration with a text title is left inline below the root or below the top of a definition. |
| OrganisedSchema.ClosedExactly | a11/actions/jsonschema.py:135-255 | For every schema: a reference in the result that names no entry of the root `$defs` is a withdrawn or a missing name; in documents made of dictionaries these are exactly the withdrawn and missing names that the table does not have, so the result is closed if and only if the table has them all. |
| OrganisedSchema.OrganisedMeans | a11/actions/jsonschema.py:135-255 | For every schema: unless a definition of the result bears a withdrawn or missing name, result and schema can be inlined to the same tree or neither can; a schema that can be inlined has no such names, and its result is closed with every entry expanding. |
| OrganisedSchema.OrganisedUnfolds | a11/actions/jsonschema.py:135-255 | For every schema, recursive ones included, in which no name is withdrawn and no missing one captured: the result unfolds to the same tree as the schema, to every depth. |
| OrganisingNames.NamesAccountedFor | a11/actions/jsonschema.py:160-248 | For every schema: a definition of the result is named after the title its own body bears, and is then a model or an enumeration, or after a definition that a reference in the schema uses and some `$defs` block of it has, not null; with two underscores and a number from 2 up behind it, or as it is. |
| OrganisingNames.TitledExactly | a11/actions/jsonschema.py:245-248 | For every schema: a model or enumeration that the reorganiser meets below the root or below the top of a definition, however deep behind references, is entered under exactly its title, if no other node has that title, none is a title or the name of a definition that it could be a numbered form of, and it is not itself a definition. |
| OrganisingNames.HoistedExactly | a11/actions/jsonschema.py:122-132 | What is hoisted inline is a model or an enumeration with a text for its title, and that text is the name asked for. |
| Organiser.Organiser.PickName | a11/actions/jsonschema.py:160-166 | The counting loop computes that name. |
| Organiser.Organiser.RegisterBody | a11/actions/jsonschema.py:168-177 | The tables afterwards are those of the function `Register`. |
| Organiser.Organiser.ResolveTarget | a11/actions/jsonschema.py:179-202 | Name and tables are those of the function `ResolveNamed`. |
| Organiser.Organiser.WalkNode | a11/actions/jsonschema.py:204-250 | Value and tables are those of the function `Walk`. |
| Organiser.Organise | a11/actions/jsonschema.py:135-255 | The document returned is `Organised(schema)`: it keeps the inlined meaning unless a name is captured, is closed if and only if the table has every withdrawn and missing name, and unfolds as the schema does when none is withdrawn or captured. Its definitions are named as `OrganisingNames.NamesAccountedFor` and `OrganisingNames.TitledExactly` say. |
| LexicalScopes.LexicalAgrees | a11/actions/jsonschema.py:146-151 | On an unambiguous schema resolving references where they are used and where they are written give the same result. |
| LexicalScopes.OrganisedLexically | a11/actions/jsonschema.py:146-151 | Reorganising an unambiguous schema keeps the meaning that the documented reading gives it. |
| SchemaLimits.CyclicIsNotClosed | a11/actions/jsonschema.py:194-198 | On two definitions that refer to each other and to themselves alike, the surviving one still mentions the name that was handed out and withdrawn, which is all that is lost. |
| SchemaLimits.CyclicUnfoldsDiffer | a11/actions/jsonschema.py:194-198 | On the same schema the result unfolds to another tree than the schema, so the unfolding theorem needs that no name is withdrawn. |
| SchemaLimits.RecursiveIsClosed | a11/actions/jsonschema.py:183-188 | On a definition that refers to itself nothing is withdrawn or missing, the result is closed and unfolds as the schema does. |
| SchemaLimits.DanglingIsCaptured | a11/actions/jsonschema.py:233-234 | A reference that leads nowhere can be given a meaning by a definition hoisted under its name: a captured name. |
| SchemaLimits.ShadowingChangesMeaning | a11/actions/jsonschema.py:190-236 | A definition used where one of its own references is shadowed gets the shadowing meaning. |
| Hosting.Earliest | a11/client/hosting.py:223-236 | The expiry taken for a claim is the least of its credentials' expiries. |
| HostingSafety.NextKeeps | a11/client/hosting.py:255-604 | Every event keeps the invariant: at most the current transport unclosed, the event set only with a transport, good attempts and closes, exact backoff, and what each await point relies on. |
| HostingSafety.BeginReplaceInv | a11/client/hosting.py:522-557 | Replacing a transport from anywhere in a pass keeps the invariant, whether or not there is a transport or a hook. |
| HostingSafety.GiveUpInv | a11/client/hosting.py:577-604 | Giving up keeps the invariant. |
| HostingSafety.BackoffDoubles | a11/client/hosting.py:425 | Doubling up to 30 seconds turns min(2^k, 30) into min(2^(k+1), 30). |
| HostingGuarantees.OneTransport | a11/client/hosting.py:291-314 | Over every run: at most one transport is unclosed and it is the current one; the connected event implies one; a transport is closed only after the drop hook was tried on it, if one is set; once hosting has given up or `aclose` has returned there is none. |
| HostingGuarantees.AttemptsAreSettled | a11/client/hosting.py:522-535 | Over every run: each attempt to connect is made before hosting stops and at least the settle interval after the latest close. |
| HostingRecord.NextRecorded | a11/client/hosting.py:255-604 | Every step ties the history to what happens in it: an attempt is added if and only if the step comes to await a connection, a close if and only if a transport is lost (one made in the step included), hooks tried as they are awaited, renewals, rebinds and giving up at their events, and failed reconnects in a row since the loop last got back to polling another way. |
| HostingGuarantees.StepsAreRecorded | a11/client/hosting.py:357-361 | The same at every step of every run from the start of an endpoint. |
| HostingGuarantees.BackoffIsExact | a11/client/hosting.py:371-425 | Over every run, while hosting has not stopped: after k failed reconnects in a row, counted from the events, the backoff is min(2^k, 30); a reconnect that works and a pass that finds the registration in order end the row; it is always between 1 and 30 seconds. |
| HostingGuarantees.RebindsNeedRenewals | a11/client/hosting.py:504-520 | Over every run: between any two events that complete a rebind there is an event that accepts a renewal. |
| HostingGuarantees.OverIsOver | a11/client/hosting.py:291-314 | Once hosting is over, no continuation makes a transport or an attempt to connect. |
| HostingGuarantees.CheckBeginsRebind | a11/client/hosting.py:504-519 | The first look with newer credentials held and at most 120 seconds left begins the rebind. |
| HostingGuarantees.RebindsInTime | a11/client/hosting.py:369-407 | While newer credentials are held from 120 seconds before the lapse on, nobody sets the clock, and the loop works at most D seconds between two looks: as long as the rebind has not begun, at least 90 - D seconds are left. |
| HostingGuarantees.ReachedRebindsInTime | a11/client/hosting.py:481-520 | The same from the start of an endpoint, through any run that leads to 120 seconds before the lapse. |
| HostingSteps.RenewsExactlyWhenDue | a11/client/hosting.py:559-575 | From every state and for every event: a step comes to await a renewal if and only if it ends a poll that is over, hosting has not stopped, there is a claim, and the time to renew it is not given or not later than the wall clock. |
| HostingSteps.PollGoes | a11/client/hosting.py:371-418 | A poll that is over ends the loop if hosting has stopped, renews a claim that is due, and otherwise rebuilds the listener if its credentials lapse within 120 seconds and the claim has only newer ones, or else goes on: a connection that is up is checked once 60 seconds have passed, one that is down is replaced. |
| HostingSteps.RenewGoes | a11/client/hosting.py:383-402 | A renewal replaces the claim and the pass goes on with it; one that fails leaves it as it was; one that is hopeless sets both flags and lets go of the listener and the transport. |
| HostingSteps.DropGoes | a11/client/hosting.py:529-557 | After the drop hook the transport is gone; a second goes by if there was one, and otherwise the next attempt begins unless hosting has stopped. |
| HostingSteps.SettleGoes | a11/client/hosting.py:530-535 | A settle interval that is over, or cut short by a stop, is followed by an attempt, or by none if hosting has stopped. |
| HostingSteps.ConnectGoes | a11/client/hosting.py:357-367 | A connection makes a new transport, checked as of now, and awaits the hook if there is one; without one a rebind is bound to the newer expiry and a reconnect resets the backoff to a second; a failure leaves the old expiry, or doubles the backoff up to 30 seconds. |
| HostingSteps.HookGoes | a11/client/hosting.py:366-367 | A transport hook that raises counts as a failed attempt although the transport is there; one that returns counts as a success. |
| HostingSteps.CheckGoes | a11/client/hosting.py:409-418 | A registration that holds resets the backoff and ends the pass; one that does not clears the event and has the transport replaced. |
| HostingSteps.GiveUpGoes | a11/client/hosting.py:599-604 | Giving up leaves no transport and ends the loop. |
| HostingSteps.CancelGoes | a11/client/hosting.py:305-308 | A cancellation ends the loop at whatever it awaits, and changes nothing else. |
| HostingSteps.ClaimGoes | a11/client/hosting.py:268-287 | A claim that is granted is held; one that names nobody, or is refused, ends the start. |
| HostingSteps.StartGoes | a11/client/hosting.py:288-289 | The first connection makes a transport and awaits the hook if there is one, and else starts the loop; without it the start fails. |
| HostingSteps.StartHookGoes | a11/client/hosting.py:288-289 | The loop starts once the hook has returned; if it raises the start fails. |
| HostingSteps.CloseGoes | a11/client/hosting.py:302-310 | Closing stops hosting, and cancels a loop that was started and waits for it; otherwise it lets go at once. |
| HostingSteps.JoinGoes | a11/client/hosting.py:306-314 | Once the loop has ended the hook is called, then the transport closed, then a claim that is held released and forgotten. |
| HostingSteps.ConfigureBinds | a11/client/hosting.py:238-246 | Asking for the configuration binds the listener to the earliest expiry of the claim, if it has any, and changes nothing else. |
| HostingSteps.OutsideMoves | a11/client/hosting.py:427-430 | Time moves both clocks alike, setting the wall clock moves only that, a drop only marks the transport, and none of them moves what is awaited. |
| HostedEndpoint.HostedEndpoint.ReplaceTransport | a11/client/hosting.py:522-535 | From inside a pass to a valid await point: with a drop hook it has been tried on the transport, without one nothing is left unclosed; once stopped no attempt follows. |
| HostedEndpoint.HostedEndpoint.FinishPoll | a11/client/hosting.py:380-384 | Once a poll is over the loop ends if hosting has stopped, and otherwise awaits a renewal if and only if there is a claim and its time to renew is not given or not later than the wall clock. |
| HostedEndpoint.HostedEndpoint.LetGo | a11/client/hosting.py:552-557 | Afterwards there is no transport, the event is cleared, nothing is unclosed, and the close is recorded with the hook tried if one is set. |
| HostedEndpoint.HostedEndpoint.FinishRelinquish | a11/client/hosting.py:529-533 | The transport is gone; if there was one the settle interval comes before any attempt. |
| HostedEndpoint.HostedEndpoint.Connect | a11/client/hosting.py:533-535 | An attempt is made exactly when hosting has not stopped, and at least the settle interval after the last close. |
| HostedEndpoint.HostedEndpoint.RebindIfLapsing | a11/client/hosting.py:504-520 | A rebind begins if and only if it is due, and with a renewal since the last one; the endpoint is valid at the await reached. |
| HostedEndpoint.HostedEndpoint.CheckRegistration | a11/client/hosting.py:409-418 | The rest of a pass ends at a valid await point, begins no rebind, keeps a live transport and makes no attempt once stopped. |
| HostedEndpoint.HostedEndpoint.FinishGiveUp | a11/client/hosting.py:599-604 | Hosting has ended: no transport, nothing unclosed, the loop over. |
| HostedEndpoint.HostedEndpoint.ResumeMaintainer | a11/client/hosting.py:369-425 | Resuming the loop at any await point is the machine's step and keeps the endpoint valid. The loop comes to await a renewal exactly when `HostingSteps.RenewsExactlyWhenDue` says. |
| HostedEndpoint.HostedEndpoint.ResumeOwner | a11/client/hosting.py:255-314 | Resuming `start` or `aclose` is the machine's step, keeps the endpoint valid, and leaves nothing open once `aclose` is done. |
| HostedEndpoint.HostedEndpoint.Handle | a11/client/hosting.py:255-604 | Whatever happens: at most the current transport is unclosed, the event implies one, none is left after `aclose`, and a stop is final with no attempt after it. |
| HostedEndpoint.Host | a11/client/hosting.py:164-604 | A whole run ends with a single unclosed transport or none, every attempt settled and before the stop, every close after its hook, rebinds each after a further renewal, the exact backoff, and nothing left once hosting has given up or closed. |
| Scheduling.NextKeeps | a11/_asyncio.py:177-227 | Every callback and every call from another thread keeps the queue's invariant: one start, one queued step per running coroutine, cancellations never ahead of the start. |
| Scheduling.CompletesOnce | a11/_asyncio.py:180-227 | In every interleaving the completion is invoked at most once, and has been exactly when the future was already done, task creation raised, or the awaitable took a step and its task ended. |
| Scheduling.StartFindsNoCancellation | a11/_asyncio.py:205-215 | When the start callback comes up the cancellation flag is false, so its own cancel branch is unreachable. |
| Scheduling.SteppedUnlessCancelledEarly | a11/_asyncio.py:167-227 | In every interleaving a cancel called before the start has run keeps the awaitable from being stepped; once its coroutine has ended the awaitable was stepped if and only if there was no such call. |
| Scheduling.StartRuns | a11/_asyncio.py:205-215 | The posted start queues the first slice of a new coroutine, or completes if it cannot be created. |
| Scheduling.CancellationReaches | a11/_asyncio.py:218-222 | A cancellation that comes up marks a queued slice, and queues one for a parked coroutine unless it is passed on; it reaches no coroutine that has ended. |
| Scheduling.SliceRuns | a11/_asyncio.py:197-203 | A slice parks the coroutine, queues the next one, or ends it and completes once; one that was cancelled before it was entered ends it without completing. |
| Scheduling.WakeQueues | a11/_asyncio.py:197-203 | A wake-up queues the next slice of a parked coroutine and does nothing otherwise. |
| Scheduling.CancelIsNotLost | a11/_asyncio.py:217-224 | In every interleaving: a call to cancel has been applied, or is still in the queue. |
| Scheduler.Schedule.StartTask | a11/_asyncio.py:205-215 | When the posted start comes up no cancellation has been applied: the coroutine starts uncancelled with no completion yet, or creation failed and the completion was invoked once. |
| Scheduler.Schedule.Cancel | a11/_asyncio.py:217-224 | Cancelling only posts: it steps nothing, completes nothing and keeps the queue's invariant. |
| Scheduler.Schedule.ApplyCancellation | a11/_asyncio.py:218-222 | A posted cancellation comes up after the start has run, invokes no completion, and keeps the invariant, whether a parked coroutine is woken or the cancellation is passed on to a task it awaits. |
| Scheduler.Schedule.StepTask | a11/_asyncio.py:197-203 | A slice of the wrapper invokes the completion exactly as it finishes; a coroutine cancelled before its start is not stepped. |
| Scheduler.Schedule.RunHead | a11/_asyncio.py:205-226 | The loop taking its next callback keeps the invariant. |
| Scheduler.RunInterleaving | a11/_asyncio.py:160-227 | Any interleaving on the object: at most one completion, with its exact condition; stepped if and only if not cancelled before the start, once the coroutine has ended. |
| NativeFuture.HooksRunOnce | a11/_asyncio.py:46-118 | Whatever is done to a future, refused operations included: the cancel hook has run once if it ended cancelled and no exception had been refused while it was pending, and never otherwise; no await hook has run twice. |
| NativeFuture.RefusedThenCancelled | a11/_asyncio.py:78-80 | An exception the base class refuses takes the cancel hook with it: cancelled afterwards, the future runs no hook. |
| NativeFuture.DoneIsFinal | a11/_asyncio.py:63-118 | Once a future is done no further operation changes its ending or runs a hook. |
| NativeFuture.EndsByFirst | a11/_asyncio.py:63-157 | A future ends as the first operation that can end it says: cancelled, resolved or failed; without one it stays pending. |
| NativeFuture.LastHookRuns | a11/_asyncio.py:97-118 | The hook installed last runs at the next await of a future that is still pending, once, and at no await after that. |
| NativeFuture.NativeFuture.Cancel | a11/_asyncio.py:63-72 | Cancelling a pending future runs the hook if it is still there and takes it out; any other call changes nothing. |
| NativeFuture.NativeFuture.SetException | a11/_asyncio.py:78-80 | An exception is accepted by a pending future if it is fit; refused, it leaves the ending as it was, and the cancel hook is gone either way. |
| NativeFuture.NativeFuture.Await | a11/_asyncio.py:97-101 | The hook is taken out, and runs if the future is pending; it had not run before. |
| NativeFuture.NativeFuture.CompleteFuture | a11/_asyncio.py:149-157 | A future that is done is left alone; a pending one stays pending, without its hook, exactly when the exception is refused. |
| NativeFuture.Operate | a11/_asyncio.py:46-157 | Any sequence of operations on the object: its ending was the first there was, the cancel hook ran once or never as above, and no await hook ran twice. |
| WaitCycles.FindCycles | scripts/a11_fibers.py:307-326 | The lists returned are cycles of the map, share no fiber, and together hold exactly the fibers that wait for themselves; every fiber is pushed exactly once over all starts. |
| WaitCycles.Trace | scripts/a11_fibers.py:313-325 | One start pushes fibers not dealt with before, leaves nothing they wait for undealt with, and closes a cycle exactly when it met one. |
| WaitCycles.WalkCloses | scripts/a11_fibers.py:317-319 | A walk that returns to itself closes a cycle, and its other fibers are on none. |
| WaitCycles.LeadsIntoTrap | scripts/a11_fibers.py:320-321 | A fiber that leads into fibers that lead nowhere else is on no cycle. |
| FiberReport.BuildWaits | scripts/a11_fibers.py:255-274 | Each id waits for the blocker of the last of its records that is blocked by another fiber: the owner of what it waits on, else the fiber it joins. |
| FiberReport.BlockerExactly | scripts/a11_fibers.py:255-274 | A fiber is blocked by the last fiber on the context that owns what it waits on; if there is none, and only if it joins, by the last one at the address it joins. |
| FiberReport.Deadlocks | scripts/a11_fibers.py:268-279 | The cycles reported share no fiber, hold exactly the fibers that wait for themselves, and each has at least two. |
| FiberReport.ReadRegistry | scripts/a11_fibers.py:199-220 | On any memory the walk ends with a linked, readable chain without repeats, stops only at the end, a repeat, something unreadable or the limit, and returns a complete list within the limit whole. |
| FiberReport.WalkFrames | scripts/a11_fibers.py:223-249 | On any memory the addresses are those of aligned, strictly rising frames, at most 128, inside the stack's bounds; with unknown bounds each frame is within 16 MiB of the one before and the first within 16 MiB of address 0, so a higher stack yields none; the walk stops short only where the next frame is implausible, unreadable or without a return address. Said of the words in memory: each frame is the recorded one, or what the one before points to, taken modulo 2 to the 56 on ARM and 2 to the 64 elsewhere, is a multiple of 16 or 8, and lies with its 16 bytes between the recorded bounds if either is not 0; and with fewer than 128 addresses the next word is 0, not above the last frame, misaligned, out of bounds, too far, unreadable or without a return address. |
| FiberReport.UnboundedFramesAreLow | scripts/a11_fibers.py:229-240 | With unknown bounds the n-th frame of any unwinding lies below n times 16 MiB. |
| FiberReport.OneUnwinding | scripts/a11_fibers.py:231-248 | Those conditions determine the frames. |
| ChatTokens.TotalIsSumOnRecord | a11/cli/chat_tokens.py:62-86 | After any blocks the output total is the sum over ids of the output on record less the drift, so it is that sum if and only if the drift is zero; it is when every report counts. |
| ChatTokens.WithdrawnIsCountedAgain | a11/cli/chat_tokens.py:78-84 | A count that is withdrawn and restated is added twice. |
| ChatTokens.LatestOnRecord | a11/cli/chat_tokens.py:70-76 | The usage on record for an id is one reported for it that no other report outdates. |
| ChatTokens.OrderDoesNotMatter | a11/cli/chat_tokens.py:62-86 | The record does not depend on order or repetition of the reports, and with reports that all count neither does the total, when no two reports for an id share a revision. |
| ChatTokens.PendingIsNotNegative | a11/cli/chat_tokens.py:86-93 | The characters reported on never exceed those seen. |
| ChatTokens.LabelIsTotal | a11/cli/chat_tokens.py:92-104 | With reports that all count, a label not marked as an estimate shows exactly the sum over ids, and no label shows less. |
| ChatTokens.ChatTokens.Observe | a11/cli/chat_tokens.py:62-86 | The fields afterwards are those of the function `Observed`; the context follows the report if it is news. |
| ChatTokens.ChatTokens.RestoreContext | a11/cli/chat_tokens.py:39-60 | The context is known if and only if the report is not invalidated and states it, or gives a total or both input and output of a whole request; a stated one wins; with plausible counts it is never below the output. |
| ChatTokens.ObserveTurn | a11/cli/chat_tokens.py:25-86 | A whole turn leaves the latest reports on record, the total that goes with them, and on display the context of a report that no other outdates. |
| ChatReports.FiledTogether | a11/cli/chat_tokens.py:70 | Two reports are filed together if and only if they go by the same usage id, or interaction id where there is none, or came in the same block and have neither. |
| ChatReports.NewsExactly | a11/cli/chat_tokens.py:71-75 | A report is taken in if and only if no earlier one filed with it has as high a revision. |
| ChatReports.ReportMoves | a11/cli/chat_tokens.py:71-86 | A report that is news goes on record; if it is not invalidated and has an output it replaces the output on record in the total and covers all characters so far; nothing else moves the total. |
| ChatReports.OutputIsKnown | a11/cli/chat_tokens.py:78-85 | A turn has an output if and only if some report was news and counted. |
| ChatReports.CharactersExactly | a11/cli/chat_tokens.py:64-67 | The characters of a turn are the sum of all rises of its blocks over the length they were last seen with. |
| ChatReports.CoveredExactly | a11/cli/chat_tokens.py:86 | The characters covered are those spoken before the last report that was news and counted. |
| ChatReports.LabelExactly | a11/cli/chat_tokens.py:92-104 | What is shown exceeds the total by the characters not covered, four to a token and rounded up, unless the turn is finished, has an output and no incomplete report; it is marked if and only if characters are pending, there is no output, or a report is incomplete. |
| ChatReports.ContextExactly | a11/cli/chat_tokens.py:39-60 | The context is the one stated, or else, of a whole request, its total, or else its input, cache and output together; an invalidated report, or one of a turn or of increments that states none, leaves none. |
| ChatReports.ShowTurn | a11/cli/chat_tokens.py:25-104 | After a whole turn the context on display is that of the last report that was news, with its mark, and the output shown is as `ChatReports.LabelExactly` says. |
| UsageEvidence.TotalsAreLast | scripts/usage_evidence.py:214-224 | The totals collected hold each thread once, with the last totals the turn reports for it. |
| UsageEvidence.UpdatesAreLatest | scripts/usage_evidence.py:314-324 | The update kept for an id is one of the turn's that consumes, and no such update for the id outdates it. |
| UsageRows.Reconcile | scripts/usage_evidence.py:209-354 | A turn of a running-total harness reconciles if and only if it has totals, as many latest updates as threads, and each update agrees with the normalised difference of its thread on every counter the source has; the rows and the baseline for the next turn are these. Each row then says what `UsageRows.RowsExactly` states. |
| UsageEvidence.CountedIsUsed | scripts/usage_evidence.py:307-313 | Over any number of turns the differences of a counter add up to its last value less the first baseline, plus every value that a turn of silence made forgotten although the counter was told again. |
| UsageEvidence.CountedExactly | scripts/usage_evidence.py:307-313 | With counters that are not negative, to exactly the last value less the baseline if and only if no turn is silent about a counter that was above zero and is told again. |
| UsageEvidence.UsageAddsUp | scripts/usage_evidence.py:69-188 | Over any run that reconciles, the usage the library reported for a thread adds up to what its running totals say, with what was forgotten counted again; the input too, through the normalisation that takes the cache out of the prompt, save that a turn which does not tell the prompt takes no cache out of it. |
| UsageEvidence.UsageIsExact | scripts/usage_evidence.py:307-354 | For each counter but the input, and totals that are not negative: the reported usage is never below what was used, and equals it exactly under that condition. |
| UsageEvidence.InputIsExact | scripts/usage_evidence.py:69-188 | The reported input is the prompt used less the cache used if and only if what was forgotten of the prompt, and the cache of turns that do not tell it, make up for what was forgotten of the cache; there are no such turns if every report of the thread tells its prompt. |
| UsageRows.ReconcileRun | scripts/usage_evidence.py:209-354 | Reconciling turn after turn succeeds if and only if every turn reconciles with the totals of the one before, and then the reported usage adds up as above for every thread and counter, the input included. The starting values are the baseline's own, as in `UsageRows.AddsUpFromBaseline`. |
| UsageRows.ThreadsInOrder | scripts/usage_evidence.py:214-224 | The threads of a turn come in the order of their first reports. |
| UsageRows.LatestExactly | scripts/usage_evidence.py:314-324 | The update kept for an id is the first with the highest revision among those that are neither about the context only nor taken back; without any none is kept. |
| UsageRows.UpdatesInOrder | scripts/usage_evidence.py:314-324 | The updates come in the order in which their ids first count. |
| UsageRows.RowsExactly | scripts/usage_evidence.py:307-354 | For every baseline: a row has, for each name in the last totals of its thread, that total less what the baseline holds for the thread under that name, 0 if nothing; its expected counts are read off under the source's names, the input without the cache; and it is compared with the update kept. |
| UsageRows.SingleRows | scripts/usage_evidence.py:310-312 | With the totals of a single thread as baseline the row of the first thread to report has, for each name, its last total less the one the baseline holds, 0 if none; a row of any other thread has its totals untouched. |
| UsageRows.AgreesExactly | scripts/usage_evidence.py:341-345 | A row is accepted if and only if the update has the expected value of every counter that is expected at all. |
| UsageRows.AddsUpFromBaseline | scripts/usage_evidence.py:307-354 | Over any run that reconciles, the usage of each counter adds up, under the source's name for it, from what the baseline itself says of the thread. |
| UsageRows.SingleAddsUp | scripts/usage_evidence.py:307-313 | For a single baseline that is the baseline's own count for the first thread to report, and 0 for any other. |
| UsageEvidence.SilenceCountsAgain | scripts/usage_evidence.py:310-313 | A thread that skips a turn is counted from zero when it comes back: a run of three turns that all reconcile, with 12 reported where 7 were used. |
| UsageEvidence.DifferenceCommutes | scripts/usage_evidence.py:277-305 | Normalising a difference of snapshots is differencing the normalised ones for every counter but the total, which comes out smaller by the cache counts that only one snapshot has; it agrees if and only if these cancel out. |
| UsageRows.ClaudeExactly | scripts/usage_evidence.py:125-147 | The counts of a snapshot are its own, thinking as reasoning; the total is there if and only if input and output are, and takes in the cache. |
| UsageEvidence.ClaudeAddsUp | scripts/usage_evidence.py:277-306 | Over any snapshots and any baseline the expected counts add up to the last value of the counter less its first, without what it moved while snapshots did not have it, and for the total without the cache counts that came and went. |
| UsageEvidence.SteadyAddsUp | scripts/usage_evidence.py:277-306 | With the counter in every snapshot nothing is skipped and nothing comes and goes, so the sum is the last snapshot less the baseline. |
| AnnotatedActions.AnalyseParameters | a11/actions/annotated.py:474-620 | A signature is accepted if and only if every parameter can be bound and no two claim the same port or header; then the plan holds each parameter's binding once, in the group of its kind, and the schema has an entry for each binding with the same flag or default, and no other ports. |
| AnnotatedActions.AddTracks | a11/actions/annotated.py:453-459 | The tables of claimed names hold a name if and only if a parameter before it was bound to it. |
| AnnotatedActions.PlannedOnce | a11/actions/annotated.py:462-620 | An accepted plan holds every parameter of the signature exactly once and nothing else. |
| AnnotatedActions.BindArguments | a11/actions/annotated.py:762-779 | The handler fails with the first header, and else the first input, that cannot be had, and otherwise passes what each binding of the plan stands for, whatever the order of its loops. |
| AnnotatedActions.FailureIsAParameters | a11/actions/annotated.py:714-758 | The handler gets as far as the function if and only if every parameter of the signature can be had. |
| AnnotatedActions.MissingExactly | a11/actions/annotated.py:740-758 | A parameter fails for a missing input if and only if it takes a value that cannot be none, has no default, is not marked as not required, and its port is empty; the schema marks every such port as required. |
| AnnotatedServing.AcceptedExactly | a11/actions/annotated.py:486-571 | A signature is accepted if and only if every parameter is ordinary, annotated and marked at most once, an output is a node, no stream is optional or one of nodes, and no two parameters claim the same input, output or header name; an unnamed header goes by the parameter's name with dashes for underscores. |
| AnnotatedServing.OutcomeExactly | a11/actions/annotated.py:714-758 | What a call passes for a parameter, or the failure it ends with, told by annotation, marker, default and what the call brings: a value that is there; for an empty input the parameter's default, or none where none is admitted or the port not required; for an absent header the factory's value, the marker's default, the parameter's, or none if optional; the port itself for nodes, streams and outputs, and the action. |
| AnnotatedServing.ListedExactly | a11/actions/annotated.py:521-620 | The schema lists each parameter: an input as required by its marker, or else unless it is a stream, admits none or has a default; an output as required unless its marker says not; a header with the marker's default, or else the parameter's. |
| AnnotatedServing.FailureExactly | a11/actions/annotated.py:762-779 | A call fails if and only if some parameter cannot be had, and then with the failure of the first of them: headers before inputs, each in the order of the signature. |
| AnnotatedActions.AnalyseResult | a11/actions/annotated.py:623-693 | A result annotation is accepted if and only if it goes with the declared outputs; a function with a result of its own gets one port for it, under the name asked for or `output`, which is then the only output. Unless the caller says otherwise that output is required, except where the function returns a type that admits none. |
| AnnotatedActions.Deliver | a11/actions/annotated.py:781-797 | Yielded values are put in order, and the result port is finalised once, last of all, if and only if the function returned normally and has a result. |
| AnnotatedServing.Serve | a11/actions/annotated.py:474-797 | Compiling and calling: accepted if and only if parameters and result are; each parameter is passed what its own annotation asks for; a missing input fails only where the schema says required; a result is finalised exactly once, and everything delivered goes to the one output the schema declares; without a result nothing is delivered. All of it is stated on the annotations and the call, as the four rows of `AnnotatedServing` above say, and what is delivered value by value. |

## Left out

- The C++ runtime, stores, transports and the Flow language: they are behind the native extension.
- `a11/cli/chat_screen.py`: screen text and its caches, where each method's result is what its code says.
- Annotated actions: media types, type information, autofills, arity and descriptions of ports, the checks of the finished schema, and how values are decoded; a reading is a value, nothing, or an error.
- Usage evidence of harnesses that report each request by itself, the sums over models, the version test and the reports of interrupted turns: no turn depends on another there.
- `get_json_schema_type` in `a11/actions/jsonschema.py`: a case distinction over Python types without state.
- Order of members in a reorganised schema: written objects are maps.
- Key texts: the model takes key-sorted JSON texts to be equal exactly for equal values with string keys.
- Closedness of every result: false, as `SchemaLimits.CyclicIsNotClosed` shows; `OrganisedSchema.ClosedExactly` gives the condition.
- OrganisedSchema.OrganisedUnfolds: says nothing when a name is withdrawn or captured; the trees may then still agree, for instance where an override hides the place.
- OrganisingUnfolds.WalkUnfolds: the same for a walk.
- OrganisingUnfolds.ResolveUnfolds: the same for a reference that is followed.
- OrganisingNames.TitledExactly: says nothing of a title that several schemas share or that could be the numbered form of another name; who then gets the bare name depends on the order in which they are met.
- LexicalScopes.LexicalAgrees: gives a condition under which the two readings agree; that they differ on every other schema is not claimed, since a shadowed name may happen to mean the same.
- LexicalScopes.OrganisedLexically: holds under the same condition.
- A definition re-entered under deeper scopes counts as circular in `Inlining.Inline`, and goes on under the scopes it was entered with in `Unfolding.Unfold`, as in the code, even where the deeper scopes would change what it means.
- Hosted endpoint: a transport that is established in the instant its await is cancelled is taken not to exist; a renewal fails only with a status; `start` and `aclose` are each called once and do not overlap; cancellation may land late or not at all, which only adds runs.
- HostingGuarantees.RebindsInTime: D bounds the time spent other than polling between one look at the credentials and the next, lateness of the timer included.
- Exchange calls, WebSocket and WebRTC negotiation and ICE parsing: events that succeed, fail or drop.
- The event loop is taken to run callbacks in the order posted and to start coroutines through its queue, as asyncio does without an eager factory.
- Which exceptions asyncio refuses differs between its releases; whether one is fit is an argument of the operation.
- The debugger's text output and the decoding of fiber records: a record is its fields.
- Formatting of token counts.
