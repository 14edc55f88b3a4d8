# Verified model of the napi-vm host layer

napi-vm runs guest JavaScript inside a Node process. This project models the layer between
the two worlds and proves what it promises: the protocol that an owner thread and the Node
thread run over shared queues, counters and references; the marshalling of cyclic object
graphs; the transactions, caches and slot tables behind the public API; the linker that
turns npm packages into guest modules; the path algebra and permission globs of the
filesystem plugin; and the position arithmetic of the language server.

`dafny verify dfyconfig.toml` checks everything. One file holds one module.

| area | modules |
|---|---|
| sessions and the host bridge | `Bridge`, `BridgeProtocol`, `ReferenceLife`, `CallLife`, `Session`, `SessionOrder` |
| marshalling | `GuestHeap`, `Marshal`, `Wire`, `WireToHost` |
| host modules, program cache, export slots | `HostNames`, `HostModules`, `HostRegistry`, `Programs`, `ProgramCache`, `GlobalHints`, `ExportSlots` |
| module linker | `ModuleLexer`, `JsonQuote`, `LexemeLocality`, `LexemeKinds`, `TextSplice`, `ModuleRewrite`, `ModuleScan`, `ScanRepeats`, `LinkedScan`, `SpelledText`, `MalformedModules`, `PackageLoader`, `LinkedPackages` |
| paths and permissions | `PathText`, `PosixPath`, `PathLaws`, `GlobRegex`, `Glob`, `PathRules`, `Checker`, `Grants` |
| positions | `LspText` |

How the parts are modelled:

- The session and the bridge are labelled transition systems. A label is one atomic access,
  or the code between two of them, on the thread that performs it; a run is any interleaving.
  Guest evaluation, N-API and JavaScript callbacks appear as labels that may happen whenever
  the source allows them. The cheap counters (`pending`, `guest_admissions`, `calls`,
  `in_flight`) are state of their own, and the invariants tie them to what they stand for.
- Objects that the source mutates are classes with methods proved against functions of the
  old state; the properties are proved about those functions and about runs of them.
- Calls that can fail for reasons outside the model (creating a reference, defining a module,
  assigning a global) fail nondeterministically, so every error path is covered.
- Text is a sequence of scalars where the source works on scalars, of UTF-16 units in the
  module tokenizer and of UTF-8 bytes in module names and line search.

Where a natural claim is false of the code, the code is kept, a concrete case is proved, and
the exact condition is stated:

- an aborted call keeps a retired reference: `BridgeProtocol.AbortKeepsRetiredEntry`, exactly when
  `BridgeProtocol.StrandedExactly` says;
- an owner panic can lose an accepted command: `Session.PanicLosesCommand`, `Session.DisposeAccounts`;
- a submit can pass the gate while an execution that a poll began waits for a host call:
  `Session.PolledCallNotSeen`, `Session.GapExactly`;
- two module names may share a bridge global: `HostModules.OwnershipLost`, `HostNames.NamesApartExactly`;
- a failed host-module registration need not restore the interpreter's module text:
  `HostModules.MisalignedReached`, `HostModules.RestoresExactly`;
- owners without feedback share the global-name hints of a template: `ProgramCache.TemplateHandedAgain`,
  `ProgramCache.HintsSharedExactly`; they are harmless, `GlobalHints.HintsHarmlessExactly`;
- a `\u` escape is not decoded: `JsonQuote.DecodeUndoesQuote`;
- malformed module text may yield a specifier twice: `MalformedModules.DoubledRepeats` and
  `EnclosedRepeats`, exactly when `ScanRepeats.DistinctExactly` says;
- `?` in a permission pattern is not literal and a final `**` stops at line terminators:
  `Glob.MarksBreak`, `Glob.LineBreakRefused`, `Glob.AgreesExactly`;
- a backslash in a file name is seen by rules as a separator: `Checker.DirGrantReachesSibling`,
  `Checker.GrantsExactly`.

Where code and documentation disagree the model follows the code. The comment on
`host_module_prefix` says modules can never share a namespace, which holds for the prefix but
not for prefix and key. The one on `hasModule` says it never disagrees with what `import` can
resolve, which fails in the state of `HostModules.MisalignedReached`. The one in the program
cache says that code without feedback and property sites has no mutable owner-specific state,
but it has hints. The glob documentation calls every character other than `*` literal, which
does not hold for `?`. A wire value with repeated property keys also survives the round trip,
because the guest object keeps the list it is built from.

## Model

| member | source | states |
|---|---|---|
| `Bridge.BridgeState.InsertRef` | src/bindings/bridge.rs:123-132 | a new reference enters the table live and with no call in flight; no other entry changes |
| `Bridge.BridgeState.BeginCall` | src/bindings/bridge.rs:134-144 | succeeds exactly for a registered id and then takes one lease on it; otherwise the table is unchanged |
| `Bridge.BridgeState.AbortCall` | src/bindings/bridge.rs:146-154 | gives a lease back and never deletes, even a retired entry |
| `Bridge.BridgeState.FinishCallOnMain` | src/bindings/bridge.rs:156-175 | the last lease of a retired entry removes and deletes it, any other lease only counts down; an entry that was not retired stays |
| `Bridge.BridgeState.FinishCallOnTeardown` | src/bindings/bridge.rs:177-186 | the same without an environment: the entry goes, nothing is deleted; an entry that was not retired stays |
| `Bridge.BridgeState.Retire` | src/bindings/bridge.rs:188-204 | an idle entry is deleted at once, a leased one is only marked |
| `Bridge.BridgeState.ShutdownOnMain` | src/bindings/bridge.rs:260-299 | the first call deletes exactly the idle references and marks the rest, later calls do nothing |
| `BridgeProtocol.StepKeeps` | src/bindings/bridge.rs:643-700 | every action of either thread keeps the invariant of references, flow, calls, promises and the dependency counter |
| `BridgeProtocol.Reached` | src/bindings/bridge.rs:134-204 | the invariant holds in every state of every interleaving |
| `BridgeProtocol.InFlightCountsLeases` | src/bindings/bridge.rs:134-175 | in-flight numbers are the numbers of outstanding leases and stay below the queue bound plus two, so the saturating arithmetic never saturates |
| `BridgeProtocol.ReferenceSafety` | src/bindings/bridge.rs:156-204 | a reference is deleted at most once and never while leased; a retired unleased entry is one whose latest lease was aborted |
| `BridgeProtocol.StrandedExactly` | src/bindings/bridge.rs:146-204 | an action leaves a retired entry without leases exactly when it is an abort of that entry's only lease; such an entry stays until it is retired again, leased again or the table is shut down |
| `BridgeProtocol.AbortKeepsRetiredEntry` | src/bindings/bridge.rs:146-154 | a run in which an aborted call leaves a retired, unleased, undeleted entry |
| `ReferenceLife.EntryExactly` | src/bindings/bridge.rs:123-204 | an entry comes by registration only, leaves exactly by being retired or shut down while idle or by the last lease of a retired entry, and is retired exactly by being retired or shut down |
| `ReferenceLife.DeletionExactly` | src/bindings/bridge.rs:156-204 | a reference awaits deletion exactly from leaving the table, unless the environment was gone, until it is deleted |
| `ReferenceLife.StaysCallable` | src/bindings/bridge.rs:134-175 | in every run, a registered function that nobody retires can be called until the bridge is shut down, and its reference is not deleted |
| `CallLife.CallsInOrder` | src/bindings/bridge.rs:643-700 | host calls reach Node in the order in which they were dispatched |
| `CallLife.AnsweredExactly` | src/bindings/bridge.rs:1099-1131 | a waiting call is answered or given up exactly by its callback, its promise, a cancellation, a prune after the guest abandoned it, its collection or a failed dispatch |
| `CallLife.NodeCatchesUp` | src/bindings/bridge.rs:906-975 | from every reachable state Node alone can work off all dispatched calls |
| `CallLife.ThenableAnswers` | src/bindings/bridge.rs:1099-1131 | a call whose function returns a promise is answered when the promise settles |
| `BridgeProtocol.SettlesOnce` | src/bindings/bridge.rs:1099-1131 | each call replies at most once, drops its dependency lease exactly once, and its promise reference is deleted exactly once, when its entry is gone |
| `BridgeProtocol.CancellationLeavesNothing` | src/bindings/bridge.rs:69-111 | after a completed cancellation every promise reference is deleted and every settlement answered or collected |
| `Session.StepKeeps` | src/bindings/async_session.rs:306-486 | every action of Node, owner and bridge keeps the session invariant |
| `Session.Reached` | src/bindings/async_session.rs:181-244 | the session invariant holds in every state of every interleaving, panics included |
| `Session.QueuesNeverFull` | src/bindings/async_session.rs:213-243 | queued, executing and replying commands are at most `pending`, which is at most the capacity; a reserved send never finds the channel full and the owner's enqueue always has room |
| `Session.CompletedAtMostOnce` | src/bindings/async_session.rs:306-486 | no command is answered twice, and an accepted one is somewhere until it is answered |
| `Session.DisposeCompletesEverything` | src/bindings/async_session.rs:781-793 | without a panic or a refused completion, exactly the accepted commands have been answered, each once, when the join returns |
| `Session.DisposeAccounts` | src/bindings/async_session.rs:419-487 | in any run, an accepted command is answered by the join exactly when no panic dropped it and no completion was refused |
| `Session.TokensExact` | src/bindings/async_session.rs:181-244 | the table of cancellation tokens holds exactly the commands in flight, plus those a panic dropped |
| `Session.CountersExact` | src/bindings/async_session.rs:134-142 | `guest_admissions` counts the unfinished Run commands and `calls` the held dependency leases; the activity flag lags behind a live execution only where a poll may have begun it |
| `Session.ReentrantSubmitRefused` | src/bindings/async_session.rs:810-843 | under every interleaving, a submit whose gate saw an unfinished Run or announced activity, with an unsettled host call of any run, never reserves a slot |
| `Session.GateDecides` | src/bindings/bridge.rs:481-488 | an uninterrupted gate lets a submit through exactly when the session is open, no wait guard is held, and no dependency is held together with an admission or announced activity |
| `Session.GapExactly` | crates/napi-vm-core/src/interpreter/promise.rs:498-503 | in every reachable state with a live execution and an unsettled host call, the gate opens exactly when the session is open, nothing waits, no Run is unfinished and a poll began the execution unannounced |
| `Session.PolledCallNotSeen` | src/bindings/async_session.rs:430-460 | a run in which a poll begins an execution, its guest code calls the host, and a submit passes the gate |
| `Session.JoinNeedsNoNode` | src/bindings/async_session.rs:781-793 | from every state in which Node waits in the join, the owner reaches its end without an answer from Node, a deadline or a cancellation: the completion queue has room, and the shut-down bridge cuts every wait short |
| `Session.PanicLosesCommand` | src/bindings/async_session.rs:415-432 | a run in which the owner panics during a submit and an accepted command is never answered |
| `Session.RunCanBegin` | src/bindings/async_session.rs:341-375 | a received Run can be executed, and is announced before it begins |
| `SessionOrder.FirstInFirstOut` | src/bindings/async_session.rs:596-596 | in every reached state the accepted commands are those received, those queued and those dropped with the channel, in the order of submission; the one in hand is the latest received, and completions are delivered in the same order |
| `SessionOrder.RunContinues` | src/bindings/async_session.rs:319-325 | what was sent, received and delivered is only ever continued |
| `SessionOrder.AnsweredWereExecuted` | src/bindings/async_session.rs:306-487 | a command is answered only after it was executed, or after close when it was drained |
| `SessionOrder.ShutAcceptsNothing` | src/bindings/async_session.rs:820-822 | once closed with no submit past the check, a session never accepts another command |
| `SessionOrder.ClosedWhenOver` | src/bindings/async_session.rs:415-418 | a disposed, panicked or draining session is closed |
| `SessionOrder.SubmitAccepted` | src/bindings/async_session.rs:823-871 | a submit that passed the gate with a slot free is accepted last in line |
| `SessionOrder.OwnerTakes` | src/bindings/async_session.rs:306-325 | the owner of an open session takes the first command in the queue |
| `SessionOrder.OwnerAnswers` | src/bindings/async_session.rs:419-432 | and answers it once it has been executed |
| `SessionOrder.WaitEndsExactly` | src/bindings/bridge.rs:588-637 | a wait for Node ends only by an answer or a closed channel, a deadline or cancellation, or the shutdown of the bridge |
| `Wire.Walker.Walk` | src/bindings/marshal.rs:807-887 | the walk with a mutable active set computes the function of the path, and restores the set on success and on error |
| `Wire.Walker.WalkArray` | src/bindings/marshal.rs:830-850 | the same for an array, including the early exits |
| `Wire.Walker.WalkObject` | src/bindings/marshal.rs:851-878 | the same for an object, including overlong keys |
| `Wire.Sound` | src/bindings/marshal.rs:807-887 | a success is the finite unfolding of the value and within the limits |
| `Wire.FailureIsBadWalk` | src/bindings/marshal.rs:807-887 | every failure exhibits a walk that returns to a container on it, goes too deep or meets something oversized |
| `Wire.UnfoldingUnique` | src/bindings/marshal.rs:807-887 | a value has at most one unfolding |
| `Wire.CrossesExactly` | src/bindings/marshal.rs:802-887 | the result is `w` exactly when `w` unfolds the value within the limits; it fails exactly when a bad walk exists |
| `Wire.CyclesNeverCross` | src/bindings/marshal.rs:830-856 | a value that reaches itself is refused |
| `Wire.IntoUnfolds` | src/bindings/marshal.rs:889-909 | the built guest value unfolds to the wire value it came from and old containers are untouched |
| `Wire.RoundTrip` | src/bindings/marshal.rs:802-909 | reading back a built wire value returns it exactly when it is within the limits, repeated keys included |
| `WireToHost.IntoBuilds` | src/bindings/marshal.rs:889-909 | the guest value is built of ordinary containers: every property enumerable, the keys the wire's in order |
| `WireToHost.CrossesBack` | src/bindings/marshal.rs:93-208 | copied out again, it shows the host exactly the wire's fields, internal keys left out and the last of a repeated key |
| `WireToHost.FitsCrossesBack` | src/bindings/marshal.rs:93-208 | if it is within the limits of the wire, only the host can make that copy fail |
| `Marshal.Walk` | src/bindings/marshal.rs:128-208 | one crossing extends the memo table by exactly matched containers that the value reaches; within the limits only the host can make it fail |
| `Marshal.FillArray` | src/bindings/marshal.rs:168-173 | the element loop matches element by element while the array is already in the memo table |
| `Marshal.FillObject` | src/bindings/marshal.rs:189-207 | the property loop copies the enumerable non-internal properties and no others, the last of a repeated key |
| `Marshal.ToNapi` | src/bindings/marshal.rs:93-208 | on success the memo table is an injective, edge-preserving map from exactly the reachable containers onto all host containers made |
| `Marshal.CopiedKeys` | src/bindings/marshal.rs:189-207 | the copy of an object has exactly the keys of its enumerable properties that are neither symbols nor setters |
| `Marshal.PathsCommute` | src/bindings/marshal.rs:128-208 | every access path works on both graphs or on neither and reaches corresponding values |
| `Marshal.SharingPreserved` | src/bindings/marshal.rs:152-158 | two paths meet in one guest container exactly when they meet in one host container |
| `HostNames.HostModulePrefix` | src/bindings/vm.rs:47-58 | the loop writes the byte-wise encoding of the name |
| `HostNames.ByteSpells` | src/bindings/vm.rs:47-58 | letters and digits are written as themselves, any other byte as an underscore and its two hexadecimal digits |
| `HostNames.PrefixInjective` | src/bindings/vm.rs:40-58 | different names have different prefixes |
| `HostNames.CollisionsExactly` | src/bindings/vm.rs:47-58 | two globals share a name exactly for the same export or for a clash: one name extends the other by a byte from 0xa0 up and the key spells the rest |
| `HostNames.NamesApartExactly` | src/bindings/vm.rs:47-58 | two names never collide, whatever the keys, exactly when neither extends the other by a byte from 0xa0 up; otherwise ordinary identifiers collide |
| `HostNames.AsciiSeparable` | src/bindings/vm.rs:47-58 | ASCII names never collide |
| `HostNames.CollisionExample` | src/bindings/vm.rs:47-58 | `x` with key `c3_a9_key` and `xé` with key `key` collide |
| `HostModules.CommitKeeps` | src/bindings/vm.rs:771-795 | a successful registration keeps ownership exclusive and exact |
| `HostModules.ExportsHold` | src/bindings/vm.rs:706-728 | the global of each export holds the callback registered for that export |
| `HostModules.RestoresExactly` | src/bindings/vm.rs:744-768 | a failed registration leaves all but the callback counter as before exactly when host and interpreter agreed about the module's text |
| `HostModules.MisalignedReached` | crates/napi-vm-core/src/interpreter/mod.rs:2843-2845 | defining a module and failing to register it again reaches a state in which they do not: the host lists the module, the interpreter has no text for it |
| `HostModules.RemovedKeeps` | src/bindings/vm.rs:1165-1189 | removing a module keeps ownership exclusive and exact |
| `HostModules.CallbacksExact` | src/bindings/vm.rs:605-797 | after any sequence of calls over separable names, refused ones and guest modules in between included, the callbacks are exactly those exposed before and one for each export of a registered host module, held by that export's own global |
| `HostModules.AsciiApart` | src/bindings/vm.rs:47-58 | any set of ASCII names qualifies |
| `HostModules.OwnershipLost` | src/bindings/vm.rs:605-797 | for any two names that are not separable, a two-call run loses a registered module's callback |
| `HostRegistry.Runtime.RegisterCallbacks` | src/bindings/vm.rs:688-704 | the callbacks registered are consecutive new ids, and all of them exactly when none fails |
| `HostRegistry.Runtime.InstallGlobals` | src/bindings/vm.rs:706-728 | either every global holds its callback, or only globals of this call whose assignment works may have changed |
| `HostRegistry.Runtime.RollBackGlobals` | src/bindings/vm.rs:744-756 | the globals are as before the call |
| `HostRegistry.Runtime.RevokeGlobal` | src/bindings/vm.rs:413-423 | a global and its callback go together |
| `HostRegistry.Runtime.Transact` | src/bindings/vm.rs:669-795 | the three phases are one registering step or one refused step of the runs above, and a registering one whenever the host environment cooperates |
| `HostRegistry.Runtime.RegisterHostModule` | src/bindings/vm.rs:605-798 | a success registers distinct usable functions as one step of the runs above, a refusal before the transaction changes nothing, a failed transaction is a refused step, acceptable exports are registered when nothing fails, and ownership stays exact over any separable names |
| `HostRegistry.Runtime.RemoveModule` | src/bindings/vm.rs:1165-1189 | the module is in no table afterwards, its globals and callbacks are gone, in any state of the registries; reports whether anything was registered; ownership stays exact over any separable names |
| `Programs.ForkIsRebuild` | crates/napi-vm-core/src/bytecode/function.rs:124-140 | a fork allocates exactly the cells that compiling the same code again would |
| `Programs.BuildIsFresh` | crates/napi-vm-core/src/bytecode/function.rs:72-82 | what is built has the code asked for and only newly allocated hints, caches and counters, nested functions included |
| `ProgramCache.Evict` | src/bindings/vm.rs:108-112 | afterwards there is room, and the queue still lists the keys once each |
| `ProgramCache.CrowdedHasOldest` | src/bindings/vm.rs:108-109 | the queue is never popped when empty |
| `ProgramCache.EvictsLeast` | src/bindings/vm.rs:108-112 | eviction drops the shortest run of oldest entries that makes room |
| `ProgramCache.Transparent` | src/bindings/vm.rs:90-124 | after any lookups, a lookup answers as compiling would, and a failed one changes nothing |
| `ProgramCache.HandedAsCompiled` | src/bindings/vm.rs:95-124 | only an owner without feedback is given a template, and only one without inline-cache sites; anyone else gets what compiling builds, with untouched caches and counters and the hints its template holds at that moment |
| `ProgramCache.OwnersIsolated` | src/bindings/vm.rs:76-124 | no inline cache or counter that an owner can write is in another owner's program or in a cached template, whatever owners have written before |
| `ProgramCache.HintsSharedExactly` | src/bindings/vm.rs:95-97 | two owners have a cell in common exactly when they hold the same compiled template; both then run without feedback and can write only its hints |
| `ProgramCache.TemplatesPristine` | src/bindings/vm.rs:90-124 | the caches and counters of a cached template are never written |
| `ProgramCache.TemplateHandedAgain` | src/bindings/vm.rs:95-97 | a template without sites is handed to every owner without feedback that asks again, so hints are shared |
| `GlobalHints.HintsHarmless` | crates/napi-vm-core/src/value.rs:1328-1369 | reading a global with any hint gives what reading it without one gives |
| `GlobalHints.HintsHarmlessExactly` | crates/napi-vm-core/src/value.rs:1328-1369 | that holds for every hint exactly when the key is in one slot at most or hints are disabled |
| `GlobalHints.HintedWriteHarmless` | crates/napi-vm-core/src/bytecode/vm.rs:745-785 | writing a global through any hint changes the slots as writing without one does |
| `GlobalHints.HintsComeFromLookups` | crates/napi-vm-core/src/value.rs:1328-1369 | a hint left behind names a slot of the key or was there before |
| `ProgramCache.CacheBounded` | src/bindings/vm.rs:79-124 | at most 64 entries and 2 MiB, `bytes` the sum of key lengths, `order` a listing of the keys without repetition |
| `ProgramCache.FreshProgramCache.MakeRoom` | src/bindings/vm.rs:108-112 | the loop is the eviction function |
| `ProgramCache.FreshProgramCache.PrepareFor` | src/bindings/vm.rs:90-124 | a call is one lookup step: cache, allocation and answer |
| `ExportSlots.StepKeeps` | src/bindings/export_slots.rs:42-82 | every operation keeps: free list exactly the reusable dead slots without repetition, pins exactly the live values, generations within range |
| `ExportSlots.RunKeeps` | src/bindings/export_slots.rs:42-82 | every table of every run satisfies the invariant |
| `ExportSlots.RunExists` | src/bindings/export_slots.rs:42-60 | every list of operations can be run: an insertion always finds its slot |
| `ExportSlots.LiveUntilReleased` | src/bindings/export_slots.rs:42-82 | an id means its value until its first release and nothing afterwards, whatever other releases the run contains |
| `ExportSlots.NeverReused` | src/bindings/export_slots.rs:42-60 | no id is handed out twice |
| `ExportSlots.UnissuedIsNothing` | src/bindings/export_slots.rs:61-66 | an id that was never handed out means nothing |
| `ExportSlots.DrainForgets` | src/bindings/vm.rs:243-247 | draining a queue of releases forgets exactly the queued ids |
| `ExportSlots.Slots.Add` | src/bindings/export_slots.rs:42-60 | in-place insertion is the specified one and the generation does not overflow |
| `ExportSlots.Slots.Lookup` | src/bindings/export_slots.rs:61-66 | lookup by slot and generation |
| `ExportSlots.Slots.Remove` | src/bindings/export_slots.rs:67-82 | in-place release is the specified one; stale ids change nothing |
| `ExportSlots.Slots.DrainReleases` | src/bindings/vm.rs:243-247 | the loop applies every queued release |
| `ModuleLexer.DecodeString` | plugins/npm/module-graph.ts:22-41 | the loop decodes escapes left to right, a final backslash literally |
| `ModuleLexer.NextToken` | plugins/npm/module-graph.ts:47-99 | one turn of the tokenizer consumes the first lexeme and emits its token |
| `ModuleLexer.Tokenize` | plugins/npm/module-graph.ts:43-101 | the loop yields the tokens of the text's lexemes, templates cut short included |
| `JsonQuote.DecodeUndoesQuote` | plugins/npm/module-graph.ts:22-41 | decoding undoes JSON quoting exactly for texts that need no `\u` escape |
| `JsonQuote.HexSpells` | plugins/npm/module-graph.ts:199-203 | the digits of a `\u` escape spell its unit |
| `JsonQuote.HeadOfQuote` | plugins/npm/module-graph.ts:64-78 | a quoted text is read as one string lexeme, whatever follows |
| `LexemeLocality.HeadLocal` | plugins/npm/module-graph.ts:47-99 | a lexeme depends only on its own text and on the kind of text that follows |
| `LexemeKinds.LineComment` | plugins/npm/module-graph.ts:53-57 | a `//` comment reaches to the end of its line |
| `LexemeKinds.BlockComment` | plugins/npm/module-graph.ts:58-63 | a `/*` comment reaches to the first `*/` after its opening, or to the end |
| `LexemeKinds.StringExtent` | plugins/npm/module-graph.ts:64-78 | a string reaches to the first delimiter like its own that is not escaped |
| `LexemeKinds.TemplateExtent` | plugins/npm/module-graph.ts:81-88 | a template is skipped up to the first backtick that is not escaped |
| `LexemeKinds.LongestWord` | plugins/npm/module-graph.ts:89-94 | a word is as long as it can be |
| `LexemeKinds.DepthCounts` | plugins/npm/module-graph.ts:95-98 | the depth is the number of brackets open around, for text that closes none too many |
| `LexemeKinds.TokenDepth` | plugins/npm/module-graph.ts:95-98 | a token has the depth of its place, a closing bracket that of its opening one |
| `LexemeKinds.WordCharacters` | plugins/npm/module-graph.ts:89-91 | the characters of words |
| `LexemeKinds.SpaceCharacters` | plugins/npm/module-graph.ts:49-51 | white space and line terminators of ECMAScript |
| `LexemeKinds.EscapeCharacters` | plugins/npm/module-graph.ts:30-38 | the escapes that stand for another character |
| `TextSplice.SpliceAllWeaves` | plugins/npm/module-graph.ts:196-203 | splicing spans from right to left replaces them all at once and keeps all other text |
| `ModuleRewrite.LexemesOfRewoven` | plugins/npm/module-graph.ts:190-204 | the rewritten text falls into the same lexemes with the edited strings in place |
| `ModuleRewrite.RewriteModuleSpecifiers` | plugins/npm/module-graph.ts:191-204 | the loop splices the replacements sorted by descending start |
| `ModuleRewrite.SortedDescending` | plugins/npm/module-graph.ts:196-198 | distinct starts are sorted strictly descending |
| `ModuleRewrite.RewriteIsRewoven` | plugins/npm/module-graph.ts:190-204 | for distinct string tokens the rewrite is the replacement of exactly these |
| `ModuleRewrite.RewriteKeepsTokens` | plugins/npm/module-graph.ts:190-204 | the rewritten source has the same kinds, depths and other values, each specifier reading as its quoted target |
| `ModuleScan.FindFromString` | plugins/npm/module-graph.ts:103-115 | the loop finds the specifier after the next `from`, or gives up at a statement |
| `ModuleScan.ScanExportList` | plugins/npm/module-graph.ts:165-179 | the loop finds the specifier after the closing brace |
| `ModuleScan.ScanToken` | plugins/npm/module-graph.ts:124-185 | which specifier a token contributes, as `ScanRepeats.SpecifierMeans` describes |
| `ModuleScan.ScanModuleSource` | plugins/npm/module-graph.ts:118-188 | the imports are those of the tokens, in order, as `ScanRepeats.ImportsExactly` describes |
| `ModuleScan.ImportsAreTokens` | plugins/npm/module-graph.ts:118-188 | every import is a string token by span and value |
| `LinkedScan.LinkedModuleScans` | plugins/npm/module-graph.ts:117-204 | scanning a linked module finds exactly the targets it was linked to, for every source without overlapping clauses |
| `ScanRepeats.FindFromMeans` | plugins/npm/module-graph.ts:103-115 | the search finds token `k` exactly when `k` follows the first `from` before a string and no clause ends before it |
| `ScanRepeats.FindAfterBraceMeans` | plugins/npm/module-graph.ts:165-179 | the same for the first outermost closing brace |
| `ScanRepeats.SpecifierMeans` | plugins/npm/module-graph.ts:124-185 | a keyword contributes token `k` exactly when `k` is the specifier of `import "x"` outermost, of `import("x")` anywhere, or of a clause whose search reaches it |
| `ScanRepeats.ImportsExactly` | plugins/npm/module-graph.ts:118-188 | the imports are exactly the specifiers of such clauses, in the order of their keywords |
| `ScanRepeats.StatementWords` | plugins/npm/module-graph.ts:103-115 | the words that end a clause |
| `ScanRepeats.SharedExactly` | plugins/npm/module-graph.ts:124-185 | two keywords share a specifier exactly when one directly follows `import` and both searches reach it, or one stands outermost in the other's export list and both reach it |
| `ScanRepeats.DistinctExactly` | plugins/npm/module-graph.ts:118-188 | the imports of a source have distinct spans exactly when no two clauses overlap so |
| `ScanRepeats.ApartIsDistinct` | plugins/npm/module-graph.ts:118-188 | they do when no `import` is directly followed by `import` or `export` and no such keyword stands outermost in an unclosed export list |
| `MalformedModules.DoubledRepeats` | plugins/npm/module-graph.ts:147-148 | the text `import export * from "x"` yields its specifier twice |
| `MalformedModules.EnclosedRepeats` | plugins/npm/module-graph.ts:165-179 | the text `export { ) export { } from "x"` does too |
| `MalformedModules.RepeatGarbles` | plugins/npm/module-graph.ts:199-203 | splicing one span twice leaves text of the first literal behind |
| `PackageLoader.Schedule` | plugins/npm/guest-package-loader.ts:110-120 | exactly the unseen imports are scheduled and queued |
| `PackageLoader.Turn` | plugins/npm/guest-package-loader.ts:90-131 | one turn prepares the next module and keeps scheduled = prepared + pending; a failure names a reachable module |
| `PackageLoader.Collect` | plugins/npm/guest-package-loader.ts:84-131 | the worklist terminates over any finite set of ids, and prepares a closed set of reachable modules or fails on a reachable one |
| `PackageLoader.CollectedExactly` | plugins/npm/guest-package-loader.ts:84-131 | the prepared modules are exactly the reachable ones |
| `PackageLoader.RegistrationCloses` | plugins/npm/guest-package-loader.ts:148-187 | registering a collected graph keeps the registry closed under imports |
| `PackageLoader.RegistrationRestores` | plugins/npm/guest-package-loader.ts:148-187 | registering puts back whatever others removed of the entry's graph, if the rest is current |
| `PackageLoader.RunStaysClosed` | plugins/npm/guest-package-loader.ts:72-188 | closure survives any interleaving of loads and of host changes to other modules |
| `PackageLoader.RunStaysLoose` | plugins/npm/guest-package-loader.ts:72-188 | if others remove the loader's modules at will, what is left still imports registered modules only |
| `PackageLoader.GuestPackageLoader.FindClaimed` | plugins/npm/guest-package-loader.ts:153-160 | finds a clash exactly when there is one |
| `PackageLoader.GuestPackageLoader.DefineAll` | plugins/npm/guest-package-loader.ts:167-171 | defines exactly the unknown modules; what it defined can be taken back |
| `PackageLoader.GuestPackageLoader.Install` | plugins/npm/guest-package-loader.ts:148-187 | graph and alias are registered, or VM and registry are unchanged; no existing module is overwritten |
| `PackageLoader.GuestPackageLoader.LoadPackage` | plugins/npm/guest-package-loader.ts:72-188 | the registry stays closed and nothing is overwritten; success answers from the cache or with the entry, whose whole graph is then registered as loaded, also after outside removals; a refusal changes neither VM nor registry and names a reachable module that failed or a name somebody else has |
| `PackageLoader.GuestPackageLoader.LoadGraph` | plugins/npm/guest-package-loader.ts:79-187 | the same for the part after the cache |
| `LinkedPackages.LinkedSpeaks` | plugins/npm/guest-package-loader.ts:110-131 | the text of a linked module imports its recorded targets only |
| `LinkedPackages.AliasSpeaks` | plugins/npm/guest-package-loader.ts:133-141 | the text of an alias, with or without a default export, imports the entry only |
| `LinkedPackages.LoadedResolves` | plugins/npm/guest-package-loader.ts:72-188 | after any run, every specifier in the text of a loaded module names a loaded module |
| `PosixPath.NormalizeSegments` | plugins/fs/path-rules.ts:43-56 | the loop is the fold over `.` and `..`; the result has no empty or `.` segment and `..` only in front of a relative path |
| `PosixPath.Normalize` | plugins/platform.ts:128-147 | the computed text, trailing slash included |
| `PosixPath.NormalizedSegments` | plugins/platform.ts:128-147 | normalizing keeps whether a path is absolute and where it leads |
| `PosixPath.NormalizeIdempotent` | plugins/platform.ts:128-147 | normalizing twice is normalizing once |
| `PosixPath.Resolve` | plugins/platform.ts:155-172 | the loop over the parts, last first, builds the gathered text |
| `PosixPath.ResolveWalks` | plugins/platform.ts:155-172 | the result is absolute and leads where following the parts from the left leads |
| `PosixPath.Relative` | plugins/platform.ts:209-225 | following the result from `from` leads where `to` leads |
| `PosixPath.StripTrailingSlashes` | plugins/platform.ts:103-107 | the loop strips trailing slashes but not the root |
| `PosixPath.DirnameDrops` | plugins/platform.ts:174-181 | the parent of a resolved path drops the last segment, which is its base name |
| `PathLaws.DotsResolve` | plugins/platform.ts:133-142 | empty segments and `.` vanish, a name and a following `..` cancel, `..` at the root vanishes |
| `PathLaws.NormalizedExactly` | plugins/platform.ts:128-147 | a normalized path ends in a slash exactly when the path does or it is the root |
| `PathLaws.StrippedExactly` | plugins/platform.ts:103-107 | only slashes are stripped, and all of them unless nothing else is left |
| `PathLaws.ParentAndBase` | plugins/platform.ts:109-181 | for every path the base name is one segment, and below the parent it leads where the path leads |
| `GlobRegex.ParseText` | plugins/fs/path-rules.ts:71-97 | the written expression is read back as its parts, with `?` as a quantifier |
| `GlobRegex.MetaCharacters` | plugins/fs/path-rules.ts:71-71 | the characters that are escaped |
| `Glob.SegmentSound` | plugins/fs/path-rules.ts:73-78 | what a segment's expression takes is text without a slash that the segment matches |
| `Glob.SegmentComplete` | plugins/fs/path-rules.ts:73-78 | the converse |
| `Glob.PatternExact` | plugins/fs/path-rules.ts:85-97 | without `?`, the expression matches a path exactly when the segment-wise glob does, a final `**` not crossing line terminators |
| `Glob.LinesMatterExactly` | plugins/fs/path-rules.ts:89-92 | that restriction is invisible on all paths exactly when the pattern does not end in `**`, or an earlier `**` is followed up to the final one by segments of stars only |
| `Glob.LineBreakRefused` | plugins/fs/path-rules.ts:91-91 | `a/**` refuses a name with a line break beneath `a` |
| `Glob.MarksBreak` | plugins/fs/path-rules.ts:71-78 | a `?` makes the expression invalid, or makes it accept a path that the glob does not |
| `Glob.AgreesLineByLine` | plugins/fs/path-rules.ts:71-97 | the expression is valid and agrees with the line-bounded glob on all paths exactly when the pattern has no `?` |
| `Glob.AgreesExactly` | plugins/fs/path-rules.ts:71-97 | it agrees with the glob itself on all paths exactly when the pattern has no `?` and no final `**` that stops at line terminators |
| `PathRules.EscapesExactly` | plugins/fs/path-rules.ts:67-69 | the text test is the test for a first segment `..` |
| `PathRules.SegmentText` | plugins/fs/path-rules.ts:73-78 | splitting at stars, escaping and joining writes the segment character by character |
| `PathRules.SegmentsToRegex` | plugins/fs/path-rules.ts:85-97 | the loop writes the expression of the pattern |
| `PathRules.CompilePattern` | plugins/fs/path-rules.ts:105-139 | all refusals and all kinds of rule, as `Grants.KindExactly` describes |
| `PathRules.PlainPatternCompiles` | plugins/fs/path-rules.ts:96-96 | without `?` the expression is always valid |
| `PathRules.RuleExact` | plugins/fs/path-rules.ts:105-180 | a rule compiled from a pattern without `?` permits exactly the candidates of its glob |
| `PathRules.DrivePattern` | plugins/fs/path-rules.ts:117-138 | a pattern on a drive is written from the drive in lower case and the segments of the rest |
| `PathRules.DriveCase` | plugins/fs/path-rules.ts:172-180 | the case of a drive letter makes no difference |
| `Grants.TrimMeans` | plugins/fs/path-rules.ts:109-109 | trimming takes off white space on both sides and leaves none there |
| `Grants.KindExactly` | plugins/fs/path-rules.ts:105-139 | each refusal has its exact condition; a rule grants everything exactly for `*` and `**`, is absolute only from a root or drive and relative only otherwise |
| `Grants.PermitsExactly` | plugins/fs/path-rules.ts:105-180 | a compiled pattern permits exactly what its glob grants, absolute ones on the whole path and relative ones below the root |
| `Grants.RequestAllowedExactly` | plugins/fs/checker.ts:111-185 | from manifest to answer: a request is allowed exactly when it leads to a path within the root that some pattern grants |
| `Grants.AbsoluteGrant` | plugins/fs/path-rules.ts:172-180 | an absolute pattern grants exactly the paths whose segments match its own, for names without a backslash |
| `Checker.Canonicalize` | plugins/fs/checker.ts:82-97 | terminates; the longest existing prefix is replaced by its canonical form and the missing tail kept |
| `Checker.InsideExactly` | plugins/fs/checker.ts:99-105 | for canonical paths the text test is containment of segments |
| `Checker.CanonicalRoot` | plugins/fs/checker.ts:67-68 | the root is canonical, or resolved and perhaps with a trailing slash if it does not exist |
| `Checker.SlashedRoot` | plugins/fs/checker.ts:67-105 | a missing root given with a trailing slash contains exactly the paths strictly below it |
| `Checker.WithinExactly` | plugins/fs/checker.ts:99-105 | for every such root the text test is containment of segments |
| `Checker.MatchAny` | plugins/fs/checker.ts:173-180 | the loop permits exactly when some rule does |
| `Checker.CheckManifest` | plugins/fs/checker.ts:161-185 | relative rules see the suffix below the root, absolute rules the whole path |
| `Checker.Authorize` | plugins/fs/checker.ts:111-145 | the answer is the only one that fits where the request leads: each of success, not permitted, outside the root, escaping, NUL and empty is given exactly when its condition holds |
| `Checker.CanonicalUnique` | plugins/fs/checker.ts:82-97 | a path leads to one canonical path at most |
| `Checker.ConfinedTextually` | plugins/fs/checker.ts:119-137 | without links a textually confined relative request leads to the root followed by its own segments, and confinement refuses it exactly when it names a root with a trailing slash itself |
| `Checker.NativeBelowRoot` | plugins/fs/checker.ts:119-130 | such a request names the root followed by its own segments |
| `Checker.NativeFromRoot` | plugins/fs/checker.ts:119-130 | an absolute request names the path of its own segments, its drive first, whatever the root is |
| `Checker.SuffixGoesDown` | plugins/fs/checker.ts:168-170 | the suffix of an authorized path contains no `..` |
| `Checker.SeenAsIs` | plugins/fs/checker.ts:168-171 | rules see the suffix itself exactly when it has no backslash |
| `Checker.BackslashSeenAsUp` | plugins/fs/checker.ts:168-171 | a name with backslashes is one segment of the path but may be seen with `..` |
| `Checker.DirGrantReachesSibling` | plugins/fs/checker.ts:160-180 | a grant of `a/**` permits the file `a\..\b` directly in the root, which its glob does not cover |
| `Checker.RelativeGrant` | plugins/fs/checker.ts:160-180 | end to end: a relative grant permits exactly the paths whose suffix its glob matches |
| `Checker.GrantsExactly` | plugins/fs/checker.ts:160-180 | that holds for all grants without `?` exactly when no name below the root contains a backslash |
| `LspText.FindLineStart` | src/lsp/text.rs:78-92 | the byte loop finds the offset after the n-th newline |
| `LspText.LineStartIsScalar` | src/lsp/text.rs:78-92 | that offset is where the line's first scalar starts, because only a newline is encoded with a newline byte |
| `LspText.LineIndexMeans` | src/lsp/text.rs:78-92 | a line starts behind as many newlines as its number says, and there is none if the text has fewer |
| `LspText.LineEndMeans` | src/lsp/text.rs:94-100 | a line's text holds no newline and ends before `\n`, `\r\n`, a final `\r` or the end of the text |
| `LspText.Utf8Reads` | src/lsp/text.rs:107-117 | a character's bytes read back as it, in the shortest form |
| `LspText.Utf16Reads` | src/lsp/text.rs:119-127 | a character's units read back as it, two exactly for a surrogate pair |
| `LspText.Utf16ColumnToByteOffset` | src/lsp/text.rs:107-117 | the offset of the last scalar that starts at or before the column |
| `LspText.Utf16ColumnToCharColumn` | src/lsp/text.rs:140-149 | the one scalar column that is the first to start at or after the UTF-16 column |
| `LspText.CharColumnInverts` | src/lsp/text.rs:119-149 | converting back gives the scalar column, clamped to the line |
| `LspText.ConvertersAgreeExactly` | src/lsp/text.rs:107-149 | the converters agree exactly outside surrogate pairs; inside one they give its two ends |
| `LspText.OffsetPoints` | src/lsp/text.rs:129-135 | a position's offset is the byte offset of the scalar it points at and of no other |
| `LspText.PositionToOffset` | src/lsp/text.rs:129-135 | the offset of every position, in range or not |
| `LspText.PositionsAreBoundaries` | src/lsp/text.rs:129-135 | it is a character boundary within the text |
| `LspText.DiagnosticRoundTrip` | src/lsp/text.rs:129-158 | the byte offset of a diagnostic's position is that of its own scalar, of the line's end for a column past it, of the text's end for a line past it |

## Left out

- Marshal.ToNapi: Map and Set, promises, proxies, typed arrays and exported functions are one opaque value; an error is a fresh object of name and message.
- Marshal.PathsCommute: needs objects without repeated keys, because which of several equal keys a lookup picks is the interpreter's choice.
- Wire.Walker.Walk: strings are measured in characters of the model, and a number is its bit pattern.
- HostRegistry.Runtime.RegisterHostModule: assigning a given global is taken to behave the same throughout one call, and the generated wrapper to change nothing but its own export record; which names are identifiers is a parameter; the `async` option, which only selects how a callback is registered, is not modelled.
- HostModules.CallbacksExact: covers registering and removing host modules, defining guest modules and failing to register one; a guest module that successfully takes the name of a host module, `setGlobal`, `exposeFunction` and guest code that overwrites a bridge global are outside the runs.
- ProgramCache.OwnersIsolated: which cells execution writes is taken from the source: inline caches and hints always, counters unless feedback is disabled.
- GlobalHints.HintsHarmless: that keys are unique while hints are enabled is the interpreter's own invariant and is assumed.
- ModuleScan.ScanModuleSource: the `hasDefaultExport`, `hasNonLiteralDynamicImport` and `hasCommonJs` flags are not modelled.
- LinkedScan.LinkedModuleScans: specifiers and targets that are `;` or `}`, and targets that are `.` or `(`, are excluded: the scanner does not tell such strings from punctuation.
- PackageLoader.Collect: reading, compiling, resolving and validating one module are a single function of its canonical id that may fail.
- PackageLoader.GuestPackageLoader.LoadPackage: one call runs without interruption, although the source awaits the compiler inside the worklist; changes between calls are events of the runs.
- Bridge.BridgeState.ShutdownOnMain: only the reference table; the promise cancellation of the same source function is `Drain` and `CancelOne` of `BridgeProtocol`, and releasing the thread-safe function is not modelled.
- Checker.Authorize: POSIX paths, and a file system that does not change during one request; `realpath` is any function that gives nothing or a canonical path.
- PosixPath: `basename` with an extension and `extname` are not modelled.
- Session: the values and error texts that commands are answered with, and keeping the event loop alive while some are pending; wall-clock deadlines, scheduling fairness and wake-up liveness; guest code is taken to end once its waits have ended, which the source ensures by cancelling its token.
- BridgeProtocol: argument and result marshalling inside a host call, and the finalizers that only free memory.
- `from_napi` and its cycle detection, which depend on the identity of foreign handles.
- The lexer, parser, interpreter and heap of the core crate, the plugin host, the language server's dispatch, fetch, crypto, timers and package download: outside this layer, or guarded by single checks that would only add easy members.
