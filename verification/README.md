# A verified model of the Godot sandbox's bookkeeping

The extension runs RISC-V guests inside Godot. The guest never holds an engine value: it holds small
integers, addresses and names, and the host keeps the books that say what they stand for. This project
models those books and proves what the rest of the program relies on.

| files | what they model |
|---|---|
| `VariantArena`, `ArenaInvariant`, `ArenaOperations`, `ArenaRuns`, `ArenaVisits`, `ArenaCalls`, `ArenaTheorems`, `ArenaMachine` | scoped and permanent Variants and the stack of call levels |
| `SignatureCodec`, `SignatureRoundTrip`, `SignatureFormat`, `SignatureMachine` | the binary table of function signatures |
| `CallCompletion` | the method table built from it, and the completion of a call with defaults |
| `ClassEmission` | the order of classes in the generated C++ API |
| `AutoIndent`, `IndentedBlocks` | re-indentation of scripts |
| `AddressCache` | the three caches in front of symbol lookup |
| `Permissions` | the allow-list of objects and the restriction callbacks |
| `Hotspots`, `FrameProfiler`, `ProfilerStart` | the two profilers' aggregation |
| `BackgroundThreads` | tracking and joining of translation threads |
| `Angles` | angle and wrap arithmetic |

## How it is modelled

**Arena.** A level has a vector of Variants, with capacity and storage identity, and a vector of pointers.
A pointer is an element of some storage or a Variant of the host's. A reallocation gives the vector a new
identity, so a pointer into the old storage visibly dangles. A guest function is an arbitrary tree of
steps: create, write, assign, clone, make permanent, change the limit, call again, throw. `Inv` is what
holds between any two steps: on every active level the elements and the slots pointing at them are in
bijection, no slot dangles, slot i of level 0 is at element i. `Keeps` is what a step may do, `Framed` what
a whole nested call may do. `VariantArena` and `ArenaRuns` give the operations as functions, the lemmas are
about these, and `ArenaMachine.Sandbox` is the object with its fields updated in place. Its `Valid` contains
`Inv`, and each method is proved to keep it, to do to the fields what the function does to the value, and to
give its caller what the lemmas say: which index resolves to what, what else stayed, exactly when it throws.

What a call leaves behind is told in `ArenaCalls`, from the steps alone: the callee begins one level up with
one slot for each argument, its index n resolving to the Variant that argument n named; each step does what
`StepDoes` says of it; and the arena in which the last of them ended is what the caller finds, apart from the
level and the count of exceptions (`LeftByCall`). So a value written to a permanent index inside a call is
there afterwards, and a Variant made permanent there is found under its new index.

One operation can break the invariant. `set_max_refs`, called outside a VM call with a larger limit while
permanent Variants exist, makes `reserve` move them while the slots keep their old addresses.
`SetMaxRefsIntact` gives the exact condition, for every limit, and `Calm` says that a run contains no call
that fails it; `SafeExactly` and `LifetimeSafe` prove that the runs which are sound in every state they pass
through are exactly the calm ones. Inside a VM call the condition holds by itself. The levels are numbered 0
to 3, so three nested calls fit; the comment at src/sandbox.h:46 calls four the maximum depth.

**Codec.** Printer and parser are functions on byte sequences; `SignatureMachine` has the loops, the cursor
and its failure flag. A signature whose stored default does not match its kind makes the encoder throw.
A value stored beside a default kind that has none is not written, and the required count passes through 32
bits. `RoundTripExact` says exactly which tables come back with nothing changed but the required counts
clamped to the number of parameters, `FixedExactly` which come back as they were, and `SpareDefaultIsLost`
is an input that needs no clamping and yet comes back changed. `SignatureFormat` is the binary form byte by
byte, without a parser, and `DecodesExactly` proves that arbitrary bytes decode exactly if they begin with a
table in this form, and then to that table.

**Lookups.** The answer a lookup should give is the address last registered, else the program's symbol, else
zero. The first cache is keyed by the hash alone, so agreement needs a hash without collisions on the names
in use (`CollisionDisagrees`). Adopting a resource's function list (src/sandbox.cpp:683-688) writes the first
cache only: `AdoptAgrees` says exactly when the other two still agree, `AdoptionIsMissed` is a load in which
they do not, and `RightExactly` proves that the runs in which every lookup is right in every state are exactly
those whose adoptions find no other address cached.

**Permissions.** The engine gives out ids that are never reused and addresses that are. Inside a call the
restrictions only tighten, with the exception the source documents: emptying the list with no object callback
set lifts it. `LoosensExactlyWhenLifted` says which runs do so, from where they start and what they do.

**Auto-indent.** Re-indenting a whole file twice is re-indenting it once. A partial range can move again:
`IdempotentExactly` says when it does not, by the first line rewritten and the columns in force above it. A
line dedented to a column that was never opened is not settled, and a following line of the same column may
land elsewhere (`DepthSteps`). `IndentedBlocks` says the same of characters: a line is read at the column that
its leading spaces and tabs make, and the lines of a block, whatever deeper blocks lie between them, come to
stand under each other and one tab deeper than the line that opens the block.

**Frame profiler.** A profile is the lines of all functions with a new call, in order, as many as there is
room for. A session is any sequence of frames and accumulated profiles after a start. Each script has the
room that the scripts before it leave (`RoomFor`), which depends only on what goes into the profile. A script
without room is deferred: what was remembered of it stays, and a later frame shows its calls. A script with
room that its earlier functions use up loses the new calls of the later ones (`Cut`, `CutExactly`).
`SessionAddsUp` compares frames and accumulated profile at the same counters: the calls add up exactly when
no frame was cut at a new call of the function, and the times exactly when the frames lost less than a
microsecond, where a frame loses its whole time if it has no line for the function, and the fraction of a
microsecond otherwise. `RunningTimeIsLost` is a session in which a function that runs on through a frame makes
them differ. `ProfilerStart` is about the start: right after it both profiles are empty, from any state, and the
frames of a session count from it.

**Hotspots.** Samples are merged under function and file joined without a separator, so two pairs that run
together to one text are one key (`MovedNameMistaken`). `KeySumExactly` says when a sum is that of one function
of one file: exactly when no other pair with samples runs together to the same text.

**Background threads.** `Deinitialize` joins what was tracked when it swapped. When it returns, every thread
ever started has been joined exactly when no start was under way at the swap and none has begun since
(`NothingLeftExactly`). `CanJoinAll` is the absence of deadlock: everything can always still be joined.

## Model

| member | source | states |
|---|---|---|
| ArenaVisits.EveryStateSafe | src/sandbox.cpp:1272-1341 | in every state a sandbox's lifetime passes through, nested calls and throws included, each active level has as many elements as slots owning one, within the capacity, and no slot dangles |
| ArenaVisits.OuterIndexKept | src/sandbox.cpp:976-1097 | while any tree of deeper calls runs, each index of an outer call still resolves in its own level, unmoved once it is on an owned element |
| ArenaVisits.CalledSafe | src/sandbox.cpp:976-1097 | at every point inside a nested call, also while arguments are being scoped, the invariant holds and the caller's levels are exactly as they were |
| ArenaVisits.LifetimeSafe | src/sandbox.cpp:976-1097 | any tree of steps and calls ends at level 0, and every state it passes through is sound if and only if the limit it starts with fits 31 bits and no limit set outside a call moves permanent Variants or exceeds 31 bits |
| ArenaVisits.SafeExactly | src/sandbox.cpp:1806-1816 | the same from any sound state: the invariant holds in every visited state if and only if each `set_max_refs` of the run is harmless where it happens |
| ArenaTheorems.NestedCallKeepsIndices | src/sandbox.cpp:976-1097 | after a nested call, thrown, refused for depth or not, every index resolves as before to a Variant that exists; only a permanent one can hold a new value |
| ArenaRuns.VmCallFramed | src/sandbox.cpp:976-1097 | a call restores the level and leaves each outer level and the host's Variants equal to what they were; level 0 only grows |
| ArenaRuns.RunSafe | src/sandbox.cpp:976-1097 | induction over step trees: the invariant is kept, and so is all that a step must leave alone |
| ArenaCalls.CallReturnsLast | src/sandbox.cpp:976-1097 | what a call leaves behind is the last arena it passed through: that of the step that threw, or of the end of the function, or of the scoping that failed; only the level is the caller's again, and the exceptions are one more if and only if the call was refused for depth or something in it threw |
| ArenaCalls.ArgumentsResolve | src/sandbox.cpp:891-974 | the called function begins one level up with no Variant of its own and one slot per argument, and its index n resolves to the Variant that argument n named, with the value it had |
| ArenaCalls.MadeExactly | src/sandbox.cpp:1272-1283 | a call whose arguments resolve is made if and only if the level above has a slot for each of them |
| ArenaCalls.CallThrowsExactly | src/sandbox.cpp:1083-1096 | a call throws in the caller if and only if an argument it names does not resolve; whatever the callee does is caught |
| ArenaCalls.StepDone | src/sandbox.cpp:1272-1414 | for each step of a guest that is not a call, what holds afterwards under which index, and exactly when it throws; a limit set outside a call reaches all four levels |
| ArenaCalls.WriteIsSeen | src/sandbox.cpp:1376-1406 | whatever a callee did before, a value it writes to or assigns through a permanent index is what the caller's index resolves to after the call |
| ArenaCalls.PermanentIsSeen | src/sandbox.cpp:1342-1375 | a Variant that a callee makes permanent is what the caller finds, with its value, under the new index after the call |
| ArenaCalls.ArgumentMadePermanent | src/sandbox.cpp:1342-1375 | a callee that makes its argument n permanent leaves the value that argument n had under the new index |
| ArenaTheorems.ElementsCounted | src/sandbox.cpp:1272-1341 | the number of elements equals the number of owning slots, at most the number of slots, at most the capacity |
| ArenaTheorems.OneSlotPerElement | src/sandbox.cpp:1272-1341 | each element of an active level has one slot and no second one |
| ArenaTheorems.SlotsLive | src/sandbox.cpp:1296-1316 | whatever a valid index resolves to exists |
| ArenaTheorems.ScopedIndexKept | src/sandbox.cpp:1272-1341 | within a call an index stays valid, storage is never moved, and a slot moves at most once, onto a fresh element |
| ArenaTheorems.PermanentIndexKept | src/sandbox.cpp:1342-1388 | a permanent index names the same element of level 0 after any run |
| ArenaTheorems.HostNeverWritten | src/sandbox.cpp:1317-1341 | no step of a run assigns a Variant that only the host owns (changes to a Variant's contents by the calls at src/sandbox_syscalls.cpp:740, 2335 and 2399 are not steps of the model) |
| ArenaTheorems.RaisingTheLimitDangles | src/sandbox.cpp:1806-1816 | creating in `main` and then raising the limit leaves an index that resolves to storage that is gone |
| ArenaTheorems.ReinitializedInv | src/sandbox.cpp:353-360 | construction and full reset establish the invariant from any storage, if and only if the limit fits 31 bits |
| ArenaOperations.CreateScopedResolves | src/sandbox.cpp:1284-1295 | throws exactly when the level is full; else one slot and one element are spent, the index resolves to the value and no existing Variant changes |
| ArenaOperations.AddScopedResolves | src/sandbox.cpp:1272-1283 | throws exactly when the level is full; else the index resolves to the very pointer, for one slot and no element |
| ArenaOperations.GetMutableResolves | src/sandbox.cpp:1317-1341 | fails exactly for an index that does not resolve, so its capacity throw is unreachable; the index now resolves to an owned Variant with the value it had, at the cost of an element only if it was not owned before |
| ArenaOperations.MutateHolds | src/sandbox_syscalls.cpp:2596-2608 | a guest's in-place change is seen through its index and through nothing else |
| ArenaOperations.TryReuseHolds | src/sandbox.cpp:1389-1406 | the returned index resolves to the new value in a Variant of the current or permanent level and no other Variant changes; it is the same index, at no cost, where that is owned; it throws exactly when there is no room |
| ArenaOperations.TryReuseFromHolds | src/sandbox.cpp:1407-1414 | the same for the overload that may write the Variant it read from |
| ArenaOperations.AssignHolds | src/sandbox_syscalls.cpp:1415-1438 | after `Variant::assign` the returned index holds what the source index held and no other Variant changes; it throws exactly for an unresolved index, a change of type or want of room, and then changes nothing |
| ArenaOperations.CloneHolds | src/sandbox_syscalls.cpp:1267-1274 | a clone's index holds the value cloned and nothing existing changes; it throws exactly for an unresolved index or a full level |
| ArenaOperations.AssignPermanentHolds | src/sandbox.cpp:1376-1388 | succeeds exactly for an index that resolves, and the element written is the one the index resolves to |
| ArenaOperations.CreatePermanentResolves | src/sandbox.cpp:1342-1375 | the new negative index resolves to the value the scoped index had; at most the Variant moved from changes |
| ArenaOperations.CreatePermanentDeclines | src/sandbox.cpp:1342-1375 | a permanent index or a full level 0 gives the index back, one that does not resolve throws, and nothing is touched |
| ArenaOperations.ReallocationDangles | src/sandbox.h:940-943 | where a vector is too small, appending or reserving moves its elements and leaves every pointer to them dangling; otherwise the storage stays |
| ArenaOperations.SetMaxRefsIntact | src/sandbox.cpp:1806-1816 | for every limit, the invariant survives if and only if the call is inside a VM call, or makes level 0 move no elements and leaves indices in 32 bits |
| ArenaOperations.SetMaxRefsDangles | src/sandbox.cpp:1785-1788 | where permanent elements move, every permanent index dangles, whatever the limit |
| ArenaMachine.Sandbox.constructor | src/sandbox.cpp:353-360 | a new sandbox is sound if and only if its limit fits 31 bits |
| ArenaMachine.Sandbox.AppendAt | src/sandbox.h:940-943 | one element and a slot pointing at it, where the storage of the vector is by then |
| ArenaMachine.Sandbox.AddScopedVariant | src/sandbox.cpp:1272-1283 | the object stays sound; throws exactly when full, else the index resolves to the pointer and no Variant changes |
| ArenaMachine.Sandbox.CreateScopedVariant | src/sandbox.cpp:1284-1295 | the object stays sound; throws exactly when full, else the index resolves to the value and no existing Variant changes |
| ArenaMachine.Sandbox.GetMutableScopedVariant | src/sandbox.cpp:1317-1341 | throws exactly for an index that does not resolve; the pointer returned may be written, is what the index now resolves to, and holds what it held |
| ArenaMachine.Sandbox.CreatePermanentVariant | src/sandbox.cpp:1342-1375 | throws exactly for a scoped index that does not resolve; a new index resolves to the old value and at most the Variant moved from changes, and an index given back means nothing changed |
| ArenaMachine.Sandbox.AssignPermanentVariant | src/sandbox.cpp:1376-1388 | succeeds exactly for a permanent index that resolves, which then holds the value, alone among all Variants |
| ArenaMachine.Sandbox.TryReuseAssignVariant | src/sandbox.cpp:1389-1406 | the index returned holds the value and no other Variant changes; throws exactly without room, and then changes nothing |
| ArenaMachine.Sandbox.TryReuseAssignFrom | src/sandbox.cpp:1407-1414 | the same for the overload that may write the Variant it read from, with its own condition for throwing |
| ArenaMachine.Sandbox.VAssign | src/sandbox_syscalls.cpp:1415-1438 | the index returned holds what the source index held; throws exactly when refused or without room |
| ArenaMachine.Sandbox.SetMaxReferences | src/sandbox.cpp:1806-1816 | every limit is accepted, and the object is sound afterwards if and only if the limit is harmless there |
| ArenaMachine.Sandbox.VmCallInternal | src/sandbox.cpp:976-1097 | on every path, thrown, refused or not, the object is sound afterwards, at the level it was, with every level of the calls outside exactly as it was; and it is, but for the level and the exceptions, where the called function ended or a step of it threw |
| ArenaMachine.Sandbox.WriteScopedVariant | src/sandbox_syscalls.cpp:2596-2608 | throws exactly for an index that does not resolve; else the index holds the value and no other Variant changes |
| ArenaMachine.Sandbox.VClone | src/sandbox_syscalls.cpp:1267-1274 | throws exactly for an unresolved index or a full level, else the index returned holds the value cloned and no existing Variant changes |
| SignatureRoundTrip.RoundTrip | src/gdscript/compiler/function_signature.cpp:53-164 | for every table with 32-bit lengths, decoding its encoding, whatever bytes follow, gives it back with required counts cut to 32 bits and clamped, and values beside a default kind without one reset |
| SignatureRoundTrip.RoundTripExact | src/gdscript/compiler/function_signature.cpp:53-164 | a table comes back with its required counts clamped and nothing else changed if and only if all lengths fit 32 bits, cutting each required count to 32 bits does not change its clamp, and no parameter keeps a value beside a default kind without one |
| SignatureRoundTrip.FixedExactly | src/gdscript/compiler/function_signature.cpp:53-164 | a table comes back as it was if and only if it is one the decoder could have produced |
| SignatureRoundTrip.SpareDefaultIsLost | src/gdscript/compiler/function_signature.cpp:82-86 | a table with fitting lengths and nothing to clamp that comes back changed |
| SignatureRoundTrip.NoPrefixDecodes | src/gdscript/compiler/function_signature.cpp:93-164 | no strict prefix of an encoding decodes |
| SignatureRoundTrip.TrailingBytesIgnored | src/gdscript/compiler/function_signature.cpp:93-164 | bytes after any blob that decodes change nothing |
| SignatureRoundTrip.DecodedIsClean | src/gdscript/compiler/function_signature.cpp:150-156 | whatever bytes decode, each signature has required at most its parameters and defaults in step with their kinds |
| SignatureRoundTrip.DecodeEncodeDecode | src/gdscript/compiler/function_signature.cpp:53-164 | what was decoded from any bytes can be encoded, and decodes to itself |
| SignatureFormat.DecodesExactly | src/gdscript/compiler/function_signature.cpp:93-164 | arbitrary bytes decode to a table if and only if they begin with that table in the format written out byte by byte; the checks of counts against the size of the blob refuse nothing else |
| SignatureFormat.SignatureExactly | src/gdscript/compiler/function_signature.cpp:107-157 | the same for one signature: name, return type, line, description, required count, parameters, in this order |
| SignatureFormat.ParameterExactly | src/gdscript/compiler/function_signature.cpp:120-150 | a parameter is read if and only if its name, type, a kind from 0 to 7 and that kind's value are there, the numbers least significant byte first |
| SignatureMachine.EncodeSignatures | src/gdscript/compiler/function_signature.cpp:53-91 | the writing loops produce the specified bytes, and throw exactly for a default out of step with its kind |
| SignatureMachine.DecodeSignatures | src/gdscript/compiler/function_signature.cpp:93-164 | for arbitrary bytes the reading loops end, never read past the buffer, leave nothing on failure, and otherwise give the specified table |
| SignatureMachine.Reader.Scalar | src/gdscript/compiler/function_signature.cpp:27-37 | reads the number in front of the cursor if it fits in what is left, fails for good otherwise |
| SignatureMachine.Reader.Str | src/gdscript/compiler/function_signature.cpp:39-48 | reads a length and that many bytes, or fails for good |
| SignatureMachine.Reader.ReadParameter | src/gdscript/compiler/function_signature.cpp:120-150 | accepts what the specified parser accepts, with the same value and the same rest |
| SignatureMachine.Reader.ReadSignature | src/gdscript/compiler/function_signature.cpp:107-157 | accepts what the specified parser accepts, with the same value and the same rest |
| CallCompletion.DecodedCallCompletes | src/safegdscript/script_instance_safegdscript.cpp:84-117 | for every blob that decodes: a call is accepted exactly for counts from required to parameters, the guest gets one argument per parameter, the caller's first, and each missing one is the integer, float, truth value or text stored with its own parameter, an empty list or table, or nil, by the kind of its default |
| CallCompletion.EncodedCallCompletes | src/safegdscript/script_safegdscript.cpp:447-467 | the same from the table the compiler had, through encoding and decoding: each missing argument is the default in that table, and as many are required as 32 bits keep of the count, but no more than there are parameters |
| CallCompletion.CallScript | src/safegdscript/script_instance_safegdscript.cpp:52-118 | the same for table, method list and call as they run, by the last signature of that name; a name without one passes the arguments through |
| CallCompletion.UpdateMethodsInfo | src/safegdscript/script_safegdscript.cpp:468-518 | one method per exported function, from the last signature of that name: its return type, the name and type of each parameter, and the default of each that is not required, kind by kind; without one, nothing is claimed |
| CallCompletion.FindMethodInfo | src/safegdscript/script_safegdscript.cpp:190-197 | the first method of that name, or none when there is none |
| CallCompletion.Callp | src/safegdscript/script_instance_safegdscript.cpp:52-118 | the loops that complete a call pass the caller's arguments and the tail of the defaults, or refuse with the count expected |
| CallCompletion.VariantTypeOrNil | src/safegdscript/script_safegdscript.cpp:436-441 | the result is always a Variant type, the one asked for if and only if there is one, and nil otherwise |
| ClassEmission.GenerateRuntimeCppApi | src/sandbox_generated_api.cpp:448-554 | the order starts from the six classes named there, is sound, emits nothing more often than listed, and declares exactly the least fixed point |
| ClassEmission.GenerateOrder | src/sandbox_generated_api.cpp:473-554 | for any classes declared from the start: the two phases end, each class emitted is listed and not skipped and follows its parent, nothing whose parent is declared is missing, nothing is emitted more often than listed |
| ClassEmission.DeclaredExactly | src/sandbox_generated_api.cpp:473-554 | a class ends up declared if and only if its ancestors reach one declared from the start through listed classes that are not skipped |
| ClassEmission.DeclaredIsLeast | src/sandbox_generated_api.cpp:473-554 | what is declared is contained in every closed set: the least fixed point |
| ClassEmission.EmittedOnce | src/sandbox_generated_api.cpp:473-554 | no class of a list without repetitions is emitted twice |
| ClassEmission.FirstPass | src/sandbox_generated_api.cpp:473-513 | every class seen is skipped, declared or waiting for its own parent, and each place in the list is used at most once |
| ClassEmission.Defer | src/sandbox_generated_api.cpp:496-507 | the class joins the ones waiting for its parent, and nobody stops waiting |
| ClassEmission.EmitAll | src/sandbox_generated_api.cpp:519-526 | all that waits for a declared parent is emitted after it, in order |
| AutoIndent.WholeFileIdempotent | src/safegdscript/script_language_safegdscript.cpp:1306-1344 | re-indenting twice from the first line is re-indenting once, for every text |
| AutoIndent.IdempotentExactly | src/safegdscript/script_language_safegdscript.cpp:1306-1344 | for every text and every range, re-indenting twice is re-indenting once if and only if nothing is rewritten or the first line rewritten, at the depth it gets, fits under the columns in force above it |
| AutoIndent.FitsExactly | src/safegdscript/script_language_safegdscript.cpp:1322-1332 | a column leads to a stack of just that depth if and only if the stack is 1, 2, ... up to below it, or the column is 0, or it is 1 and the first column is not above it |
| AutoIndent.Idempotent | src/safegdscript/script_language_safegdscript.cpp:1306-1344 | idempotent where the columns in force at the first line rewritten are 1 to n |
| AutoIndent.SecondRunStack | src/safegdscript/script_language_safegdscript.cpp:1322-1332 | the simulation: from the first line rewritten on, if it fits, where the first run's stack has depth n the second's is [1..n] |
| AutoIndent.PartialRangeMovesAgain | src/safegdscript/script_language_safegdscript.cpp:1334-1340 | in every text that starts with two nested blocks, the outer one of more than two columns, re-indenting the third line alone gives two tabs first and none the next time |
| AutoIndent.DepthSteps | src/safegdscript/script_language_safegdscript.cpp:1322-1338 | a deeper line lands one tab deeper than the code line before it; an equal one keeps the depth if and only if that line is settled |
| AutoIndent.TextKept | src/safegdscript/script_language_safegdscript.cpp:1306-1344 | lines keep number and stripped text; blank, comment and out-of-range lines are untouched; a code line gets exactly its depth in tabs |
| AutoIndent.SplitOfIndented | src/safegdscript/script_language_safegdscript.cpp:1343-1343 | splitting the result gives back the lines that were joined |
| AutoIndent.AutoIndentCode | src/safegdscript/script_language_safegdscript.cpp:1306-1344 | split, loop and join together give the specified text |
| AutoIndent.IndentLines | src/safegdscript/script_language_safegdscript.cpp:1311-1341 | the loop with its early exit overwrites exactly the code lines in range, each with its own depth |
| AutoIndent.UpdateStack | src/safegdscript/script_language_safegdscript.cpp:1322-1332 | pushing and popping one column gives the specified stack |
| IndentedBlocks.LineRead | src/safegdscript/script_language_safegdscript.cpp:1313-1320 | a line of n spaces and tabs, then other edge characters, then text, then edge characters is read at column n with that text, and is code if and only if the text does not begin with a number sign |
| IndentedBlocks.LineKinds | src/safegdscript/script_language_safegdscript.cpp:1313-1320 | every line is of that form or has edge characters only, and those that are read as no code are the blank ones and the comments |
| IndentedBlocks.NextLineStands | src/safegdscript/script_language_safegdscript.cpp:1322-1340 | of two lines of code with blank lines and comments between them, the second comes to stand one tab deeper if it has more spaces and tabs in front, and as deep if it has as many and the first is at column 0 or behind a tab |
| IndentedBlocks.FirstLineStands | src/safegdscript/script_language_safegdscript.cpp:1322-1340 | the first line of code comes to stand at no tab if it is at column 0, and at one if not |
| IndentedBlocks.SiblingsAlign | src/safegdscript/script_language_safegdscript.cpp:1322-1340 | code at the column of an earlier line, with only deeper code between, comes to stand under it, if that one is at column 0 or behind a tab |
| IndentedBlocks.ChildStands | src/safegdscript/script_language_safegdscript.cpp:1322-1340 | code deeper than an earlier line that stands behind a tab, with no code between that is less deep, comes to stand one tab deeper than it, whatever columns were opened in between |
| IndentedBlocks.QuietLines | src/safegdscript/script_language_safegdscript.cpp:1318-1320 | a blank line or comment comes out as it is, and any other in its place leaves every other line where it was |
| AddressCache.LookupsAgree | src/sandbox.cpp:1135-1188 | after any run of lookups, misses, registrations, loads, adoptions that no quicker cache contradicts, and string reuse, all three lookups answer the address last registered, else the symbol, else zero |
| AddressCache.RunAgrees | src/sandbox.cpp:1135-1188 | every run keeps the three caches in agreement with that one map |
| AddressCache.AdoptAgrees | src/sandbox.cpp:683-688 | adopting a function keeps agreement if and only if no quicker cache holds another address for it |
| AddressCache.RightExactly | src/sandbox.cpp:1135-1188 | over all runs, every lookup is right in every state passed through if and only if no adoption finds another address for its name in a quicker cache |
| AddressCache.AdoptionIsMissed | src/sandbox.cpp:683-688 | after a load whose `main` looked a name up, adopting another address makes the lookup by hash answer it and the one by StringName the old symbol |
| AddressCache.CollisionDisagrees | src/sandbox.cpp:1135-1149 | two names with one hash make the second lookup answer for the first |
| AddressCache.SecondLookupHits | src/sandbox.cpp:1135-1188 | each lookup answers the same question from its own cache the second time, whatever has become of the program; only the one by hash remembers nothing without a program |
| AddressCache.RegisterAgrees | src/sandbox.cpp:1237-1244 | a registration after a cached miss is seen by every lookup |
| AddressCache.LookupHashAgrees | src/sandbox.cpp:1135-1149 | the answer is the wanted one and caching it keeps agreement |
| AddressCache.LookupStringNameAgrees | src/sandbox.cpp:1151-1161 | the answer is the wanted one and caching it keeps agreement |
| AddressCache.LookupStringAgrees | src/sandbox.cpp:1174-1188 | the answer is the wanted one although a hit compares buffers and not text |
| AddressCache.Lookups.CachedAddressOf | src/sandbox.cpp:1135-1149 | answers the wanted address and keeps the three caches in agreement |
| AddressCache.Lookups.CachedAddressOfStringName | src/sandbox.cpp:1151-1161 | answers the wanted address and keeps the three caches in agreement |
| AddressCache.Lookups.CachedAddressOfString | src/sandbox.cpp:1174-1188 | answers the address wanted for the text, though it compares buffers, and keeps agreement |
| AddressCache.Lookups.AddCachedAddress | src/sandbox.cpp:1237-1244 | from then on the name wants the new address and every other name the old one, and the caches agree |
| AddressCache.Lookups.AdoptAddress | src/sandbox.cpp:683-688 | the caches agree afterwards if and only if no quicker one held another address |
| AddressCache.Lookups.ClearEntries | src/sandbox.h:138-141 | no entry is left |
| AddressCache.Lookups.FullReset | src/sandbox.cpp:371-381 | nothing is registered, and the caches agree whatever strings are around |
| Permissions.GetExplicitlyAllowedObject | src/sandbox_restrictions.cpp:89-105 | whatever order the list is walked in, the answer is the live object at the address whose id is listed, and null if and only if there is none |
| Permissions.CountedEntriesLive | src/sandbox_restrictions.cpp:48-76 | after any run with address reuse, a listed ref-counted object exists, at the listed address |
| Permissions.ReachableUnique | src/sandbox_restrictions.cpp:89-105 | at most one object can be the answer for an address |
| Permissions.ListedIsReachable | src/sandbox_restrictions.cpp:48-68 | an object made and listed outside a call stays reachable at its address over any run, until it is freed, taken off or the list is cleared; a ref-counted one cannot be freed before that |
| Permissions.RunKeepsList | src/sandbox_restrictions.cpp:48-87 | every run of allocations, frees and list edits keeps entries true to the objects they were made for |
| Permissions.GetObjectFromAddress | src/sandbox_syscalls.cpp:34-59 | a handle resolves if and only if the call was given it or a listed live object is at that address, and then to the object at that very address |
| Permissions.ResolveScopedObject | src/sandbox.cpp:1430-1434 | the binding found at first use, and remembered, is that of the handle's own object |
| Permissions.AddScopedEntry | src/sandbox.cpp:1436-1450 | an object takes one place per call however often it is added, and keeps its binding; it throws exactly for a new object when full |
| Permissions.DepthCounts | src/sandbox.cpp:976-1097 | a call is running exactly while not all that were entered have been left |
| Permissions.RunTightens | src/sandbox_restrictions.cpp:5-87 | over any run inside a call restrictions stay on, the list shrinks, and every callback's answers only go from yes to no |
| Permissions.ExplicitOnlyShrinks | src/sandbox.h:952-963 | an object explicitly allowed after such a run was so before |
| Permissions.LoosensExactlyWhenLifted | src/sandbox.h:965-970 | some object is newly allowed by a run inside a call if and only if the run starts with a list that is not empty and no object callback, removes every entry, and does not enable restrictions |
| Permissions.RunLeaves | src/sandbox_restrictions.cpp:5-87 | after a run inside a call an entry is left exactly if it was there and was not removed, and the object callback is unset exactly if it was and restrictions were not enabled |
| Permissions.Sandbox.SetRestrictionsTo | src/sandbox_restrictions.cpp:5-36 | once disabled outside a call, every class, method, property and resource is allowed, and an object if and only if the list is empty or has it; once enabled, the host's callbacks answer as before, and what none of them nor the list allows is refused; inside a call disabling changes nothing |
| Permissions.ObjectCallbackDecides | src/sandbox.h:952-970 | after a callback for objects is set, an object is allowed if and only if it is listed, or the callback says so, or there is neither list nor callback |
| Permissions.Sandbox.AddAllowedObject | src/sandbox_restrictions.cpp:48-68 | exactly the object given becomes reachable, at its address, and only outside a call |
| Permissions.Sandbox.RemoveAllowedObject | src/sandbox_restrictions.cpp:70-76 | exactly the object given stops being reachable, inside a call too |
| Permissions.Sandbox.ClearAllowedObjects | src/sandbox_restrictions.cpp:78-87 | outside a call nothing stays reachable by the list; inside one nothing changes |
| Hotspots.GetHotspots | src/sandbox_profiling.cpp:211-257 | each entry shown is one key with all its samples, and has the address and names of the first entry of that key; they are in descending order and none empty; no key left out beats one shown; all samples are shown if and only if all keys with samples are |
| Hotspots.Merge | src/sandbox_profiling.cpp:211-223 | merging in place keeps the total and puts each key's sum into its first entry |
| Hotspots.PartialSort | src/sandbox_profiling.cpp:226-229 | a permutation with the top entries in front in descending order |
| Hotspots.Trim | src/sandbox_profiling.cpp:234-237 | cuts off exactly the empty results at the end |
| Hotspots.LimitCoversAll | src/sandbox_profiling.cpp:224-232 | a limit of at least the number of keys leaves no samples out |
| Hotspots.KeySumExactly | src/sandbox_profiling.cpp:214-215 | the samples under a key are those of its function in its file if and only if no entry with samples has other names that run together to the same text |
| Hotspots.OneNameApart | src/sandbox_profiling.cpp:214-215 | functions of one name in two files, and two functions of one file, never share a key |
| Hotspots.MovedNameMistaken | src/sandbox_profiling.cpp:214-215 | characters moved from the front of the file to the end of the function give such other names, for every text |
| FrameProfiler.Profiler.Collect | src/safegdscript/profiling_safegdscript.cpp:96-138 | the profile and both snapshot tables after the loops are the specified ones, never more lines than room |
| FrameProfiler.CollectScript | src/safegdscript/profiling_safegdscript.cpp:116-133 | the lines of the functions below some point, in increasing order and each with its calls and times, and that point is the end unless the room is used up |
| FrameProfiler.PiecesShow | src/safegdscript/profiling_safegdscript.cpp:96-138 | a profile visits exactly the scripts that can be read and that the ones before leave room for; it shows each as far as that room goes, against what was remembered of it, and no other script |
| FrameProfiler.ProfileLength | src/safegdscript/profiling_safegdscript.cpp:100-134 | a profile has as many lines as the scripts want between them, or as there is room for |
| FrameProfiler.CutExactly | src/safegdscript/profiling_safegdscript.cpp:101-126 | a frame loses the new call of a function if and only if the scripts before want less than all the room, and they and the script's earlier functions want all of it |
| FrameProfiler.PiecesRemembered | src/safegdscript/profiling_safegdscript.cpp:109-136 | a table's entry for a script changes exactly if the script was visited: replaced for a frame, resized otherwise |
| FrameProfiler.Profiler.StartProfiling | src/safegdscript/profiling_safegdscript.cpp:160-167 | both snapshots become what the counters of each script visited are now, and stay as they were for the others |
| ProfilerStart.StartShowsNothing | src/safegdscript/profiling_safegdscript.cpp:160-191 | for every state, reading and room, both profiles taken right after a start at the counters it read are empty |
| ProfilerStart.StoppedShowsNothing | src/safegdscript/profiling_safegdscript.cpp:169-191 | after a stop, whatever is asked before the next start, nothing is shown and nothing is remembered |
| ProfilerStart.StartedCalls | src/safegdscript/profiling_safegdscript.cpp:96-167 | from a start in any state on, the calls all frames show of a function are the counter last read less the one read at the start if and only if no frame was cut at one |
| ProfilerStart.StartedAccumulated | src/safegdscript/profiling_safegdscript.cpp:96-184 | the accumulated profile counts calls and time from the start, however many frames came in between |
| ProfilerStart.LineTells | src/safegdscript/profiling_safegdscript.cpp:117-131 | every line of every profile is of a script that was read and of a function with new calls, and has its calls, self time and total time since they were remembered, modulo 2^64 |
| FrameProfiler.Profiler.GetFrameData | src/safegdscript/profiling_safegdscript.cpp:186-191 | profile and state of the specified step, and nothing at all before a start |
| FrameProfiler.Profiler.GetAccumulatedData | src/safegdscript/profiling_safegdscript.cpp:179-184 | profile and state of the specified step, and nothing at all before a start |
| FrameProfiler.SessionHistory | src/safegdscript/profiling_safegdscript.cpp:96-138 | in every session, whatever accumulated profiles come between and whichever reads fail, each frame starts from what the one before it left, and the baseline stays |
| FrameProfiler.SessionAddsUp | src/safegdscript/profiling_safegdscript.cpp:96-191 | an accumulated profile that reaches the script at the counters of the last frame has all frames' calls of a function if and only if no frame was cut at one, which the frames' inputs decide, and all frames' time if and only if they lost less than a microsecond or there was no call |
| FrameProfiler.FramesSumToAccumulated | src/safegdscript/profiling_safegdscript.cpp:179-191 | where the script's lines fit into every frame that reaches it, the accumulated count of a session equals the sum of the frames' counts |
| FrameProfiler.FramesTelescope | src/safegdscript/profiling_safegdscript.cpp:96-138 | calls shown by frame add up to the counter's growth if and only if no frame was cut at a new call of that function, by the room it had and the lines before |
| FrameProfiler.TimesTelescope | src/safegdscript/profiling_safegdscript.cpp:96-138 | the time that passed is the time shown and the time lost, frame by frame, the loss given by the frames' inputs; the microseconds agree if and only if less than one was lost |
| FrameProfiler.RunningTimeIsLost | src/safegdscript/profiling_safegdscript.cpp:124-126 | for every time of a microsecond or more, a session whose accumulated profile shows it and whose frames do not |
| BackgroundThreads.OnePlaceEach | src/sandbox.cpp:74-99 | in every interleaving a started thread is in exactly one of starting, tracked, taken or joined, is joined at most once and only when done |
| BackgroundThreads.TrackedAtSwapIsJoined | src/sandbox.cpp:101-112 | what was tracked at the swap is joined when `Deinitialize` returns, whatever others do meanwhile |
| BackgroundThreads.NothingLeftExactly | src/sandbox.cpp:101-112 | when `Deinitialize` returns, everything ever started is joined if and only if no start was under way when it swapped and none has begun since |
| BackgroundThreads.LeftWhileJoining | src/sandbox.cpp:88-98 | while `Deinitialize` joins, whatever the reaping loops remove: something is tracked or on its way into the vector in the end if and only if something was before, or a start began |
| BackgroundThreads.FinishedAreReaped | src/sandbox.cpp:86-98 | in every interleaving, each tracked thread that is done when a starter takes the mutex is joined by the time that starter adds its own |
| BackgroundThreads.HolderAlwaysProceeds | src/sandbox.cpp:88-98 | the reaping loop can always step, and each step brings the release of the mutex nearer |
| BackgroundThreads.CanJoinAll | src/sandbox.cpp:58-112 | no deadlock: from every state any interleaving leads to there is a way on, without another start, in which every thread there ever was is joined, `Deinitialize` has returned and the mutex is free |
| BackgroundThreads.RunKeepsInv | src/sandbox.cpp:58-112 | every interleaving keeps the places disjoint and joins behind the done flag |
| Angles.AngleDifferenceCorrect | src/sandbox_syscalls.cpp:313-316 | at most half a turn, and `to - from` up to whole turns |
| Angles.AngleDifferenceSide | src/sandbox_syscalls.cpp:313-316 | half a turn is never reached in the direction of `to - from` |
| Angles.RotateTowardApproaches | src/sandbox_syscalls.cpp:419-428 | the distance left is the old one less the clamped step: down to zero, or up to half a turn for a negative step |
| Angles.RotateTowardMoves | src/sandbox_syscalls.cpp:419-428 | the angle moves by the step, toward the target, by no more than the difference and back by no more than the rest of half a turn |
| Angles.LerpAngleApproaches | src/sandbox_syscalls.cpp:417-418 | for every weight the angle left is the part `1 - weight` of the difference, up to whole turns, and the distance is that part whenever it is at most half a turn |
| Angles.LerpAngleExactly | src/sandbox_syscalls.cpp:417-418 | the result is on the way of at most half a turn from the first angle to the second, the part `weight` of it along, with no turn added |
| Angles.WrapCorrect | src/sandbox_syscalls.cpp:429-436 | the start for a range that is approximately empty; otherwise the result is in the half-open range; it is the input up to whole ranges if and only if it was not snapped or was on the start already, and within the tolerance of that where it is snapped |
| Angles.WrapIdempotent | src/sandbox_syscalls.cpp:429-436 | wrapping twice is wrapping once |

## Left out

- Variant contents: a Variant is a type and a payload, `duplicate` is a copy of both, and the calls that write into the contents of a scoped container or through a `const_cast` (method calls on a Variant) are not modelled.
- What a moved-from Variant holds is a parameter of the step (`husk`), not fixed.
- `vector::reserve` gives exactly the capacity asked for; a capacity of 2^31 or more counts as unsound, since a full level could then have two slots with one 32-bit index.
- Temporaries made for a call's arguments are kept in the list of host Variants after the call; their lifetime is not modelled.
- The layout of arguments in guest memory (`setup_arguments`), its limit on how many there may be, unboxed arguments, the guest's registers and stack, timeouts and the profiling branch of `vmcall_internal`; handling an exception is counting it.
- Scoped Ref-counted objects of a level, and `rem_scoped_object`. A handle the call was given is resolved without asking whether the object still exists, as in the source.
- Codec: lengths are added in a `size_t` wide enough not to wrap (64 bits); the host is little-endian; a double is its 64 bits.
- CallCompletion: the address of the function, `String::utf8` and whether the host itself has a function of that name are parameters; documentation entries and the counts of instances are not modelled.
- ClassEmission.EmittedOnce: needs a class list without repetitions, as the keys of the class database are; without that, nothing is emitted more often than listed. The skipped-words test and `emit_class` are opaque, and the messages about cycles are left out.
- AutoIndent: `strip_edges` takes off characters up to the space.
- AddressCache: hashes and symbols are functions of the name; the buffer multiplication is exact modulo 2^64. Names that are neither String nor StringName are converted and looked up by hash.
- Permissions: a callback is a fixed function of its question, and its validity does not change by itself.
- Hotspots: counts are unbounded where the source has 32-bit ones; resolving an address to names is the caller's. `std::partial_sort` is a selection sort with the same promise.
- FrameProfiler: reading the guest's records is an oracle, and the theorems are about scripts whose function table keeps its size during a session; rebuilding a script with profiling on or off is left out.
- BackgroundThreads: a mutex is free or held, a join returns only after the flag is set; memory ordering and thread handles are not modelled.
- Angles: exact reals; rounding, infinities and NaN, and the other functions of `utility_math_op`, are left out.
- The guest name cache, Callables made by the guest, sandboxed properties, shared-sandbox counts, the script compiler, resource loading and the editor.
