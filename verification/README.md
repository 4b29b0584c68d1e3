# A Dafny model of cppgres

cppgres lets Postgres extensions be written in C++. This project models the parts of it whose correctness does not
follow from reading one function, and proves what they are for. `dafny verify dfyconfig.toml` checks everything.

| file | models |
|---|---|
| `Bodies.dfy`, `Generators.dfy` | nested coroutine generators: frames linked through `__parentOrLeaf_`, resumed at the leaf, against the recursive flattening of the tree of generator bodies |
| `Primes.dfy`, `PrimeStream.dfy` | the demo's prime generator with its 32-bit candidates, as a coroutine resumed for one value at a time |
| `FieldsCount.dfy` | the two compile-time searches for the number of fields of an aggregate |
| `PointerIds.dfy` | pointer types as 64-bit words, three bits a qualifier |
| `BracketedIds.dfy`, `FlatTypes.dfy`, `FlatTuples.dfy` | nested structures as bracketed, zero-padded id arrays, and their decoder |
| `Reflection.dfy` | both together: from a type to ids and back to the types |
| `Worker.dfy` | the main-thread task worker: a mutex, a condition variable and any number of posting and terminating threads, as interleaved atomic steps, and as schedules on the object |
| `ContextTree.dfy`, `Memory.dfy` | the tree of memory contexts, objects constructed in them, owned contexts, hand-over |
| `TrackedMemory.dfy`, `Tracking.dfy` | contexts whose resets are observed through a shared counter, and lazily detoasted values guarded by them: what is promised of them, with no shared state in sight, and the objects that do it |
| `ErrorMeaning.dfy`, `ErrorBridge.dfy` | Postgres errors as C++ exceptions and back, through any nesting of guards, handlers, cleanups and scope guards: what programs of C and C++ functions come to, and the objects that do it |
| `Subtransactions.dfy`, `AtomicBlocks.dfy`, `SubtransactionGuard.dfy` | programs of nested subtransaction scopes and what they do to Postgres' stack; the blocks that are ended and the ones that are meant; the RAII guard as an object |
| `Aggregates.dfy` | the support functions of parallel aggregates, run over an arbitrary plan tree |

`Common.dfy` holds what they share. Code that updates objects in place is modelled by classes and methods, each tied
to a specification function or predicate; constant-expression recursion is modelled by functions.

Postgres itself appears only through what the code relies on: a reset or deletion of a context runs and discards its
callbacks, last registered first, and deletes the contexts below it; `FlushErrorState` empties the error stack and
resets `ErrorContext`; `ereport(ERROR)` and `ReThrowError` put a record on the error stack and jump to the innermost
`PG_exception_stack` entry; beginning, releasing and rolling back subtransactions act on a stack and leave any memory
context and resource owner behind. Of the C++ run-time, exceptions follow the rules of the Itanium C++ ABI for caught
exceptions: a handler's exception goes on top of a stack when the handler begins, `throw;` takes the top one, and the
end of a handler destroys the top one. A coroutine body is a finite tree of what it does between suspensions; the
user-written operations of an aggregate are function values with the algebraic laws stated in `Aggregates.Lawful`.

## What the proofs found

- Prime generator (demo/cppgres_demo.cpp:17-39): candidates wrap around at 2^32, after which 1 passes the trial
  division. The output is the first `count` primes exactly when there are that many below 2^32; beyond that it
  continues with 1. For every `count` some width is enough, by the infinitude of primes.
- Flat type arrays (src/cppgres/utils/pfr.hpp:4501-4504): when the ids of a nested structure leave exactly one slot
  free, the closing tag overwrites the last id. The result is then rejected when it is decoded, never misread:
  `FlatTuples.Reflect` returns the tree of field types if and only if every nested structure's ids fit. Three `short`s
  in a structure wrapped seven times are such a type (`SeventhWrappingOverwrites`).
- Pointer ids: the overflow assertion admits nineteen qualifiers, and twenty when the innermost one is `const` alone
  or `volatile` alone. References are encoded but rejected on the way back.
- Field counting: the fast search always stops at a count that works where one more does not. It finds the maximum if
  and only if it ever asks about it, which it does whenever all smaller counts work too; that is sufficient, not
  necessary. The greedy search needs nothing. Whether some C++ type has a predicate for which the two differ is not
  settled here.
- Subtransactions, explicit finishes (src/cppgres/xact.hpp:91-104): Postgres ends the innermost subtransaction,
  whichever guard asks. Every subtransaction still ends exactly once, but each guard ends its own if and only if every
  explicit finish names the guard of the innermost one still open. Which writes survive is given by the blocks that are
  really ended, for every program (`RunIsBlocks`); for those that meet the condition these are the blocks one means.
  `OuterCommitEndsInner` is a program that finishes each guard once and loses an explicitly committed write.
- Subtransactions, restoring: the comment at src/cppgres/xact.hpp:65-66 says the memory context and resource owner seen
  at construction are restored on every path. They are, whatever they were, if and only if the guard is left to its
  destructor or nothing sets them after its explicit finish (`ScopeRestoresExactlyWhen`).
- Errors under handlers (src/cppgres/guard.hpp:148-156, src/cppgres/exception_impl.hpp:22-34): `exception_guard` jumps
  to Postgres out of its own handler, so the exception it caught stays on the C++ run-time's stack of caught
  exceptions. When that happens while another handler runs further out, the end of that handler destroys the wrong
  exception. In `SwallowInHandler` an error context is deleted twice that way and another never. For programs whose
  C++ exceptions are all captured Postgres errors, no error context is deleted twice if and only if no exception leaves
  a C++ function for Postgres while a C++ handler is running (`RunCommand`). With other exceptions that is sufficient,
  not necessary (`NotOrderlyYetNothingTwice`), and `RunCommand` states the exact condition.
- Postgres handlers that clean up and raise again: the pending record arrives if and only if nothing in the cleanup
  captures an error or has Postgres handle one (`CleanupArrivesExactlyWhen`), since capturing flushes all of Postgres'
  error state (src/cppgres/exception_impl.hpp:17). When a record is missing for that reason and a C++ caller is handed
  the error, the constructor of `pg_exception` fails to copy it (src/cppgres/exception_impl.hpp:13-15): what is thrown
  is the exception for that failure, and the first error context is never deleted and stays current.
- `ffi_guard` restores both Postgres error stacks on every exit, but `CurrentMemoryContext` only when the callee fails
  with a record that can be copied, or changes it back (src/cppgres/guard.hpp:31-49, `GuardRestoresExactlyWhen`).
- `tracking_memory_context::resets()` is 0 or 1 however often the context is reset, because the callback is discarded
  when it runs and not registered again (src/cppgres/memory.hpp:220-224).
- Aggregates whose states are datums: `aggregate_ffunc` has no branch for them (src/cppgres/aggregate.hpp:70-79), so a
  final function gives the final value of the fold if and only if there is no state at all; any state is taken for a
  pointer. Without a final function the answer is the fold itself if and only if an initial state is declared.

## Model

| member | source | states |
|---|---|---|
| Bodies.UnwindNest | demo/__generator.hpp:435-453 | pushing a waiting parent and running its nested generator leaves the values and final exception still to come unchanged |
| Bodies.UnwindPop | demo/__generator.hpp:383-394 | when a body ends, going on in its parent (after the `co_yield`, in a handler, or with the exception) leaves what is still to come unchanged |
| Bodies.UnwindPrepend | demo/__generator.hpp:403-407 | values produced at the leaf come first whatever the depth of the stack above |
| Bodies.SpliceMeaning | demo/__generator.hpp:472-475 | a loop that re-yields a child's values, inside a `try`, produces the child's values and then, when it ends normally, those of what follows the loop, when it raises what is caught, those of the handler, else the exception |
| Bodies.InlineMeaning | demo/__generator.hpp:463-476 | `elements_of` means exactly the re-yielding loop at every level: same values, same exception, and no nesting left |
| Bodies.StackMeaning | demo/__generator.hpp:435-460 | what any stack of nested generators delivers: the outermost level's values, then what the inner stack delivers, then what that level goes on with: its rest when the inner stack ends normally, its handler when it catches the exception, else nothing but the exception |
| Bodies.EndsThrough | demo/__generator.hpp:383-394 | under any number of levels, what is delivered when a generator ends normally is what the levels yield on the way in, its own values, and what each level yields afterwards, from the innermost out |
| Bodies.NestedThenRest | demo/__generator.hpp:383-394 | when a nested generator ends normally its values are followed by those of the rest of its parent |
| Bodies.ClimbsThrough | demo/__generator.hpp:369-375 | an exception under any levels, whatever they yield, do afterwards or catch otherwise, none of which catches it, comes out unchanged after exactly the values produced before it |
| Bodies.CaughtInnermost | demo/__generator.hpp:455-460 | the innermost level that catches it, anywhere in the stack, goes on with its handler right after those values; for the levels around it nothing else has happened |
| Bodies.ReachesConsumerExactlyWhen | demo/__generator.hpp:369-460 | if the levels' own code raises nothing, the exception reaches the consumer if and only if no level catches it |
| Generators.Frame.constructor | demo/__generator.hpp:349-352 | a fresh promise is its own root and records itself as the leaf, with no exception or value constructed |
| Generators.Frame.Climb | demo/__generator.hpp:339-340 | following `__parentOrLeaf_` from the leaf the root records visits the active frames innermost first and ends at the root |
| Generators.Frame.YieldValue | demo/__generator.hpp:403-407 | the value is constructed in the root's empty slot from any depth; the chain of frames is kept |
| Generators.Frame.AwaitSuspend | demo/__generator.hpp:435-453 | the nested generator becomes the leaf of a well-formed longer chain with a live, empty exception slot |
| Generators.Frame.UnhandledException | demo/__generator.hpp:369-375 | a nested frame stores the exception, the root rethrows it; the links are kept |
| Generators.Frame.FinalSuspend | demo/__generator.hpp:383-394 | a nested frame hands control to its parent, which becomes the recorded leaf; a root stops |
| Generators.Frame.AwaitResume | demo/__generator.hpp:455-460 | the parent goes on with the child's exception or normally; the child is destroyed with its exception slot and the shorter chain is well formed |
| Generators.Frame.Destroy | demo/__generator.hpp:354-361 | destroying a frame destroys every frame nested in it once, innermost first, and each exception slot that was constructed |
| Generators.Generator.constructor | demo/__generator.hpp:779-783 | a generator that has not started is still to deliver the flattening of its body |
| Generators.Generator.OnYield | demo/__generator.hpp:403-407 | what was still to come is the yielded value followed by what is still to come |
| Generators.Generator.OnNest | demo/__generator.hpp:463-467 | a nested generator is the running leaf, nothing about the values to come has changed, and less work is left |
| Generators.Generator.OnEnd | demo/__generator.hpp:369-394 | an ending body returns control to its parent with its exception stored, or leaves the generator done and the exception thrown |
| Generators.Generator.OnReturn | demo/__generator.hpp:455-460 | the parent runs on after its child, whose frame and exception slot are gone |
| Generators.Generator.OnFinish | demo/__generator.hpp:383-394 | the end of a nested body preserves what is still to come and lowers the work left; the end of the root delivers nothing, or the exception |
| Generators.Generator.Resume | demo/__generator.hpp:478-480 | resuming the leaf directly delivers the next value of the flattening, or its end with the exception that no level caught; it terminates |
| Generators.Generator.Begin | demo/__generator.hpp:763-769 | delivers the first value of the flattening, or its end |
| Generators.Generator.Increment | demo/__generator.hpp:737-741 | drops the current value and delivers the next one, or the end |
| Generators.Generator.Current | demo/__generator.hpp:747-749 | between `begin` and the end there is exactly one live value to read |
| Generators.Generator.Next | demo/__generator.hpp:737-749 | one turn of a loop moves one value from what is to come to what has been seen |
| Generators.Generator.Drop | demo/__generator.hpp:687-694 | at any point of its life the generator destroys the live value, if there is one, and every frame exactly once, innermost first |
| Generators.Collect | demo/__generator.hpp:733-773 | a range-for loop sees exactly the remaining flattening, then the exception if no level caught it |
| Generators.TakeAndDrop | demo/__generator.hpp:687-694 | a consumer that stops early has seen a prefix of the flattening and every frame ever created has been destroyed |
| Generators.RunBody | demo/__generator.hpp:334-480 | for every body the delivered values and exception are its recursive flattening |
| Primes.PassesTrialDivision | demo/cppgres_demo.cpp:26-33 | is true exactly when no number from 2 to the square root divides the candidate |
| Primes.SmallDivisorsSuffice | demo/cppgres_demo.cpp:27-28 | looking no further than the square root decides primality |
| Primes.NextCandidate | demo/cppgres_demo.cpp:24-25 | odd candidates are enough |
| Primes.Next | demo/cppgres_demo.cpp:25 | adding 2 wraps around at the end of the unsigned range |
| Primes.CounterFits | demo/cppgres_demo.cpp:23 | the signed counter cannot overflow while the output is right, at 32 bits or fewer |
| Primes.PrimeBeyond | demo/cppgres_demo.cpp:25-38 | there is a prime beyond every number |
| Primes.WideEnough | demo/cppgres_demo.cpp:25-38 | for every `count` there is an unsigned width for which the output is the first `count` primes |
| Primes.PrimesBelowAreThePrimes | demo/cppgres_demo.cpp:17-39 | the reference sequence holds all primes below a bound and nothing else, ascending |
| PrimeStream.LoopMeans | demo/cppgres_demo.cpp:25-38 | from any candidate on, the rest of the coroutine yields what is missing of the first `count` primes, or of all primes in range and then 1; the loop always ends |
| PrimeStream.PrimeCoroutine.Resume | demo/cppgres_demo.cpp:17-39 | a resumption tests candidates until one passes and delivers that value, the rest of the coroutine then being what was left of it before; or it ends the coroutine |
| PrimeStream.Consume | demo/cppgres_demo.cpp:17-39 | a loop that resumes the coroutine for each value sees exactly the first `count` primes when there are that many in range, else all of them followed by 1 |
| PrimeStream.ConsumeGenerator | demo/cppgres_demo.cpp:17-39 | so does a range-for loop over a generator with that body, through the frames |
| FieldsCount.WindowStep | src/cppgres/utils/pfr.hpp:3457-3469 | each step keeps the answer between the beginning and twice the gap above it |
| FieldsCount.DetectFindsMaximum | src/cppgres/utils/pfr.hpp:3444-3469 | the two-sided search finds the maximum from any window that contains it |
| FieldsCount.AnswersDecide | src/cppgres/utils/pfr.hpp:3444-3469 | the counts asked about are those that decide: the result is the largest of them that works, or where the search began |
| FieldsCount.CallsAtLeast | src/cppgres/utils/pfr.hpp:3457-3469 | the search never instantiates less than the logarithm of its gap |
| FieldsCount.CallsAreLogarithmic | src/cppgres/utils/pfr.hpp:3444-3469 | the search instantiates at most a constant more than the logarithm of its gap |
| FieldsCount.GreedyFindsMaximum | src/cppgres/utils/pfr.hpp:3471-3506 | the greedy search returns the largest count in its range that works, for any predicate |
| FieldsCount.FieldCountIsMaximum | src/cppgres/utils/pfr.hpp:3516-3530 | whichever search is chosen returns the maximum, and the greedy one would return the same |
| FieldsCount.FastSearchIsFast | src/cppgres/utils/pfr.hpp:3444-3444 | the number of instantiations exceeds the rounded-up logarithm of the type's size by at most a constant, and is never less than the logarithm; stated with powers of two as well |
| FieldsCount.StopsAtEdge | src/cppgres/utils/pfr.hpp:3445-3469 | for every predicate, closed or not, the fast search returns a count that works where one more does not |
| FieldsCount.FindsMaximumExactlyWhen | src/cppgres/utils/pfr.hpp:3445-3469 | for every predicate the fast search returns the maximum if and only if it starts there or asks about it |
| FieldsCount.SearchesAgreeExactlyWhen | src/cppgres/utils/pfr.hpp:3516-3530 | for every predicate of a type that can be initialized from nothing the chosen, fast search agrees with the greedy one if and only if the maximum is zero or the fast one asks about it |
| FieldsCount.FindsNothingExactlyWhen | src/cppgres/utils/pfr.hpp:3520-3521 | for every predicate the fast search answers zero if and only if its first count and all successive halves of it fail, whatever else works |
| FieldsCount.NothingWorks | src/cppgres/utils/pfr.hpp:3524-3530 | the result is zero when no count works |
| PointerIds.RemoveUndoesApply | src/cppgres/utils/pfr.hpp:4339-4355 | `remove_1_ext` undoes a qualifier that passed the overflow assertion; the top three bits are that qualifier |
| PointerIds.PointerCodes | src/cppgres/utils/pfr.hpp:4306-4334 | the word of each kind of pointer to a native type, and of a pointer to such a pointer, in digits |
| PointerIds.NativeCodes | src/cppgres/utils/pfr.hpp:4393-4418 | of the words without qualifiers just 1 to 23 are native types |
| PointerIds.UnreadableCodes | src/cppgres/utils/pfr.hpp:4512-4544 | a word whose top qualifier is a reference, or one of the two unused patterns, is not read back |
| PointerIds.RoundTrip | src/cppgres/utils/pfr.hpp:4423-4544 | decoding an encoded chain gives the chain back, or fails exactly when it contains a reference |
| PointerIds.Injective | src/cppgres/utils/pfr.hpp:4423-4471 | different chains have different ids |
| PointerIds.EncodesExactlyWhen | src/cppgres/utils/pfr.hpp:4344-4347 | the overflow assertion passes exactly for nineteen qualifiers, or twenty with `const` or `volatile` alone innermost |
| PointerIds.FittingChainsRoundTrip | src/cppgres/utils/pfr.hpp:4514-4537 | every reference-free chain of such a length is recovered from its id |
| PointerIds.NeverATag | src/cppgres/utils/pfr.hpp:4393-4418 | the native type stays in the low bits, so no id is zero or a tuple tag |
| BracketedIds.FieldIdsAre | src/cppgres/utils/pfr.hpp:4493-4510 | a type whose nested structures fit is encoded as the bracketed ids of its tree; one that does not fit yields nothing or unclosed brackets |
| BracketedIds.FlatIdsAre | src/cppgres/utils/pfr.hpp:4597-4611 | the same for all fields of a structure: the concatenation of the field encodings |
| BracketedIds.TupleIds | src/cppgres/utils/pfr.hpp:4417-4418 | the tags 24 and 25 enclose the ids of the items, which follow one another in order |
| BracketedIds.StructureIsTuple | src/cppgres/utils/pfr.hpp:4493-4510 | a structure becomes the tuple of what its fields become, in order, unless its only field becomes a scalar |
| BracketedIds.RoomyFits | src/cppgres/utils/pfr.hpp:4496-4496 | three slots per byte suffice when every structure has two fields or is a single scalar |
| BracketedIds.WrappedFits | src/cppgres/utils/pfr.hpp:4496-4504 | three two-byte scalars in a structure that is wrapped in one-field structures fit if and only if there are at most six wrappings |
| BracketedIds.SeventhWrappingOverwrites | src/cppgres/utils/pfr.hpp:4504-4504 | at the seventh wrapping the closing tag overwrites the last id and a bracket stays open |
| BracketedIds.Balanced | src/cppgres/utils/pfr.hpp:4224-4244 | no proper prefix of a bracketed tree's ids is balanced, so matching finds its own closing bracket |
| BracketedIds.ParseIds | src/cppgres/utils/pfr.hpp:4741-4750 | reading the ids of a list of trees gives the trees |
| BracketedIds.ParseSound | src/cppgres/utils/pfr.hpp:4654-4671 | only the ids of proper trees are read |
| BracketedIds.UnbalancedIsRejected | src/cppgres/utils/pfr.hpp:4660-4671 | ids with unclosed brackets are not read at all |
| BracketedIds.DecodingUndoesEncoding | src/cppgres/utils/pfr.hpp:4493-4510 | decoding undoes encoding if and only if every nested structure fits, up to the collapse of one-scalar structures; otherwise the type is rejected |
| FlatTypes.CountNonzeros | src/cppgres/utils/pfr.hpp:4214-4222 | counts what is left when zeros are dropped |
| FlatTypes.CountTillMatchingParenthesis | src/cppgres/utils/pfr.hpp:4224-4244 | the length of the shortest balanced prefix from an opening bracket, zero elsewhere, failing when it is never closed |
| FlatTypes.GetTypeOffsets | src/cppgres/utils/pfr.hpp:4581-4594 | each offset is the total size of the fields before |
| FlatTypes.Assign | src/cppgres/utils/pfr.hpp:4552-4556 | the ids replace exactly the slots from the given one on |
| FlatTypes.PlaceField | src/cppgres/utils/pfr.hpp:4605-4606 | a field's ids stay within its own slots and are appended once zeros are dropped |
| FlatTypes.FieldsCountAndTypeIdsWithZeros | src/cppgres/utils/pfr.hpp:4613-4620 | writing every field's ids at three times its offset gives, zeros apart, the concatenation of the field encodings, with no overlap and the rest zero |
| FlatTypes.ResizeDroppingZeros | src/cppgres/utils/pfr.hpp:4626-4636 | the non-zero ids in order |
| FlatTypes.FlatArrayOfTypeIds | src/cppgres/utils/pfr.hpp:4622-4637 | the concatenated field encodings, without zeros, or failure exactly when a field has none |
| FlatTypes.TypeToId | src/cppgres/utils/pfr.hpp:4493-4510 | the id buffer of a field type holds its encoding in three slots per byte |
| FlatTypes.Tuplen | src/cppgres/utils/pfr.hpp:4495-4509 | one id is kept bare, anything else is bracketed, and the closing tag overwrites the last id exactly when one slot is left |
| FlatTypes.WriteBracketed | src/cppgres/utils/pfr.hpp:4501-4504 | fails exactly when the ids run off the buffer |
| FlatTypes.WritePlain | src/cppgres/utils/pfr.hpp:4505-4508 | the opening tag is overwritten by the only id |
| FlatTuples.ReadableIsMatched | src/cppgres/utils/pfr.hpp:4706-4709 | in a sequence that can be read every opening bracket at any depth is closed |
| FlatTuples.StartsTile | src/cppgres/utils/pfr.hpp:4711-4714 | the items of a sequence tile it |
| FlatTuples.LengthInside | src/cppgres/utils/pfr.hpp:4706-4709 | a bracket of a nested range is closed at the same place in the range as in the whole array |
| FlatTuples.SubtupleLengths | src/cppgres/utils/pfr.hpp:4706-4709 | the length of the item at every opening bracket and zero elsewhere, or failure only for a sequence that cannot be read |
| FlatTuples.RemoveSubtuples | src/cppgres/utils/pfr.hpp:4674-4686 | what is left non-zero marks exactly the starts of the items |
| FlatTuples.ResizeDroppingZerosAndDecrementing | src/cppgres/utils/pfr.hpp:4688-4700 | the marks in order, made indexes again |
| FlatTuples.CountSkips | src/cppgres/utils/pfr.hpp:4727-4739 | the range's length less the skips is the number of its items |
| FlatTuples.PrepareSubtuple | src/cppgres/utils/pfr.hpp:4654-4671 | the field type an id or a bracketed range stands for, or an assertion failure |
| FlatTuples.BuildTuple | src/cppgres/utils/pfr.hpp:4716-4722 | one tuple element per item, in order, or failure if any item fails |
| FlatTuples.AsFlatTuple | src/cppgres/utils/pfr.hpp:4741-4750 | bracket matching, subtuple removal and skip counting together read any range the way the recursive reader does |
| FlatTuples.Reflect | src/cppgres/utils/pfr.hpp:4752-4766 | a structure is reflected as its tree of field types if and only if every nested structure fits, else rejected |
| Reflection.NumberExactlyWhen | src/cppgres/utils/pfr.hpp:4423-4476 | every scalar of a type has an id that is no tag, if and only if no pointer chain has too many qualifiers |
| Reflection.DecodeUndoesNumber | src/cppgres/utils/pfr.hpp:4514-4544 | decoding the ids at the leaves gives back the native and pointer types, or fails exactly when there is a reference |
| Reflection.StructureShape | src/cppgres/utils/pfr.hpp:4505-4508 | a structure has the shape of a tuple unless its only field has the shape of a scalar |
| Reflection.FieldByField | src/cppgres/utils/pfr.hpp:4752-4766 | the shapes are those of the fields, in order, and every field counts for whether chains fit and whether there is a reference |
| Reflection.ReflectType | src/cppgres/utils/pfr.hpp:4752-4766 | a structure is reflected as the shapes of its fields with every type exactly recovered, if and only if the chains and the nested structures fit and there is no reference; else it is rejected |
| Workers.InvThread | src/cppgres/threading.hpp:46-70 | every step of a posting or terminating thread keeps mutual exclusion, the order of tasks and the pending notification |
| Workers.InvRunner | src/cppgres/threading.hpp:77-94 | so does every step of `run` |
| Workers.InvRun | src/cppgres/threading.hpp:41-102 | and so does every interleaving |
| Workers.ProgramsAreHonoured | src/cppgres/threading.hpp:46-70 | in every reachable state each thread has pushed the posts of its program, in order, but for those it still owes, and stopping has been requested if and only if some thread has got past a request in its program |
| Workers.FirstInFirstOut | src/cppgres/threading.hpp:64-91 | in every reachable state executed tasks, the one in flight and the queue together are the tasks pushed, in lock order; and what each thread has pushed, followed by the posts it still owes, are the posts of its program, in order |
| Workers.LeavesOnlyWhenDrained | src/cppgres/threading.hpp:86-93 | `run` leaves its loop only when stopping was requested and every task pushed so far has been executed |
| Workers.NoLostWakeup | src/cppgres/threading.hpp:64-85 | whenever the runner sleeps with something to do, a thread still has a notification to issue |
| Workers.LockIsReleased | src/cppgres/threading.hpp:48-84 | whoever holds the mutex can move: the runner when it is the runner, the very thread when it is a thread |
| Workers.QuiescentMeansDrained | src/cppgres/threading.hpp:81-93 | when nothing can move, `run` has returned or sleeps with all work done and no stop requested, and no thread is stuck in an operation |
| Workers.MeasureStep | src/cppgres/threading.hpp:46-94 | every step but a spurious wakeup lowers a measure |
| Workers.FewSpuriousOnceDone | src/cppgres/threading.hpp:85 | after a stop request the runner can wake up spuriously at most once more |
| Workers.RunsAreFinite | src/cppgres/threading.hpp:46-94 | every run is bounded by the measure and its spurious wakeups |
| Workers.TerminationIsHonoured | src/cppgres/threading.hpp:46-94 | after a stop request every run is bounded and can end only once `run` has returned |
| Workers.NothingForgotten | src/cppgres/threading.hpp:56-91 | at rest every post of every program has been pushed, once; `run` has returned if and only if some program asks the worker to stop, and otherwise sleeps with exactly the posts of all programs executed |
| Workers.Worker.TakeNext | src/cppgres/threading.hpp:85-89 | takes the oldest task pushed that has not been taken; gives the order to leave exactly when stopping was requested and all pushed tasks have been taken |
| Workers.System.StepThread | src/cppgres/threading.hpp:46-70 | the steps of `post` and `terminate` on the object are those of the state machine, which queues a thread's posts as its program says (`ProgramsAreHonoured`); what was taken out of the queue stays what was executed or is in flight |
| Workers.System.StepRunner | src/cppgres/threading.hpp:77-94 | so are the steps of `run` |
| Workers.RunSchedule | src/cppgres/threading.hpp:41-102 | any schedule run on a worker object ends in the state the machine says, with its invariant; the tasks executed or in flight are the oldest ones pushed, in order, and those pushed are the posts of the programs but for what is still owed |
| ContextTree.ConstructSound | src/cppgres/memory.hpp:60-76 | constructing registers the object once, last on its context |
| ContextTree.CreatePlaces | src/cppgres/memory.hpp:174-183 | a new context is below exactly itself, the context it was created under, and what that is below; the places of others do not change |
| ContextTree.YoungerGone | src/cppgres/memory.hpp:69-71 | when a context's last registered callback is about to run, everything constructed after that object while it was there is gone |
| ContextTree.RunLastSound | src/cppgres/memory.hpp:69-71 | running it keeps every object registered or destroyed once, and last constructed first destroyed |
| ContextTree.RunAllDestroys | src/cppgres/memory.hpp:69-71 | a context's objects are destroyed in the reverse order of construction |
| ContextTree.DeleteSound | src/cppgres/memory.hpp:78 | deleting a context deletes exactly it and what is below it, each once, and destroys their objects once each, last constructed first |
| ContextTree.ResetSound | src/cppgres/memory.hpp:33 | resetting does the same but keeps the context, empty |
| ContextTree.GoesWithParent | src/cppgres/memory.hpp:174-183 | deleting or resetting the context that a new one was created under, or any above that, takes the new one and what is constructed in it |
| Memory.Server.Construct | src/cppgres/memory.hpp:60-76 | the destructor is registered after construction, and not at all when the constructor throws |
| Memory.Server.Reset | src/cppgres/memory.hpp:33 | the loops over children and callbacks leave exactly what is not below the context, and the context empty |
| Memory.Server.Delete | src/cppgres/memory.hpp:78 | the loops leave exactly what is neither the context nor below it |
| Memory.Program.Create | src/cppgres/memory.hpp:174-176 | a new context, empty, has one owner, and is below the current context and whatever that is below, so that it goes when any of these does |
| Memory.Program.MoveConstruct | src/cppgres/memory.hpp:111-114 | ownership passes on, if there was any; there is still one owner per context |
| Memory.Program.MoveAssign | src/cppgres/memory.hpp:115-125 | exactly what the target owned, and what is below it, is deleted, with their objects last constructed first; ownership passes on; self-assignment changes nothing |
| Memory.Program.HandOver | src/cppgres/memory.hpp:147 | the context lives on without an owner |
| Memory.Program.Destroy | src/cppgres/memory.hpp:127-131 | deletes the context and what is below it, with their objects last constructed first, exactly when it was not moved from |
| Memory.Program.DeleteHandedOver | src/cppgres/memory.hpp:78 | deleting a handed-over context through a plain handle takes nothing from any owner |
| Memory.Program.Reset | src/cppgres/memory.hpp:33 | destroys the objects of the context and of what is below it, and leaves every owner and every other context alone |
| Memory.OwnersAfter | src/cppgres/memory.hpp:111-147 | in a run, ownership is made by creating, passed on by moving, and given up by handing over and destroying; every other owner keeps what it has |
| Memory.CreatedBelow | src/cppgres/memory.hpp:174-183 | in a run, a new context is below where it was created and whatever that is below |
| Memory.ContextsAfter | src/cppgres/memory.hpp:115-131 | in a run, destroying, assigning over and deleting remove just the context that was owned and what is below it |
| Memory.ObjectsAfter | src/cppgres/memory.hpp:60-76 | in a run, a reset leaves the context without objects and just those contexts that are not below it; an object is registered last, and not at all when its constructor throws |
| Memory.RunOps | src/cppgres/memory.hpp:60-147 | over every run the contexts, their objects and the owners are what `ApplyAll` says of the operations; each context has one unmoved owner or was handed over or has been deleted once; each constructed object is registered or has been destroyed once, after everything constructed in its context while it was there; once nothing is owned, every context not handed over is gone |
| Tracking.World.Track | src/cppgres/memory.hpp:230-232 | a new shared state with its callback registered |
| Tracking.World.Copy | src/cppgres/memory.hpp:227-228 | a copy shares the state and the use count stays right |
| Tracking.World.Move | src/cppgres/memory.hpp:234-235 | the state changes hands |
| Tracking.World.Destroy | src/cppgres/memory.hpp:253-259 | no callback still registered is left with a freed state, and other copies keep theirs |
| Tracking.World.Resets | src/cppgres/memory.hpp:261 | 1 exactly when the context was reset since tracking began, else 0 |
| Tracking.World.Reset | src/cppgres/memory.hpp:220-224 | every live state of the context learns of the reset, exactly its callbacks are discarded, each with a live state or none |
| Tracking.RunOps | src/cppgres/memory.hpp:215-261 | over every run of construct, copy, move, destroy, count and reset of tracking contexts and construct, copy, move, access and destroy of values, what is left and what every count and access has shown is what `TrackedMemory` says; counters are positive iff reset since tracking began, no pending callback has a freed state, and every value not moved from still tracks its memory |
| TrackedMemory.AccessesAreSafe | src/cppgres/type.hpp:118-133 | an access yields memory that is there, and throws exactly when the memory it goes by is gone |
| TrackedMemory.FirstAccess | src/cppgres/type.hpp:75-133 | whatever has gone on before a value was made and after: if nothing touched it, its first access throws if and only if its context has been reset since, else yields the copy if the datum is toasted and the datum if not |
| TrackedMemory.LaterAccess | src/cppgres/type.hpp:103-133 | later accesses yield what the first did, and throw if and only if the context of that has been reset in between |
| TrackedMemory.Counts | src/cppgres/memory.hpp:220-261 | a tracking context counts 1 if and only if its context has been reset since tracking began |
| TrackedMemory.CountsPassOn | src/cppgres/memory.hpp:227-235 | so do its copies and what it is moved to; what was moved from counts 0 |
| TrackedMemory.CopiesGoBySame | src/cppgres/type.hpp:79-82 | a copy of a value, and what it is moved to, yields what the value itself would, or throws when it would |
| TrackedMemory.ResetsCounted | src/cppgres/memory.hpp:33 | contexts have been reset as often as the operations say |
| Tracking.Varlena.constructor | src/cppgres/type.hpp:75-77 | a value tracks the context its datum lives in from then on |
| Tracking.Varlena.Copy | src/cppgres/type.hpp:79-80 | a copy goes by the same memory and has been tracking it as long |
| Tracking.Varlena.Move | src/cppgres/type.hpp:81-82 | so does the target of a move; the source keeps no tracking state |
| Tracking.Varlena.Ptr | src/cppgres/type.hpp:96-101 | yields the datum while it is there and throws exactly when it is gone |
| Tracking.Varlena.DetoastedPtr | src/cppgres/type.hpp:118-133 | an access yields the detoasted form, once there is one: the copy that was made if the datum was toasted, else the datum itself; it throws exactly when the memory it goes by is gone, and remembers what it yields |
| Tracking.Session.MoveValue | src/cppgres/type.hpp:81-82 | the new value goes by the same memory and has the same detoasted form, the old one can only be destroyed, and everything else held stays as it is |
| Tracking.Session.AccessValue | src/cppgres/type.hpp:118-133 | an access yields what it should for the value's memory, makes that its detoasted form, and leaves every other value and tracking context as it was |
| ErrorMeaning.PgShape | src/cppgres/guard.hpp:142-160 | whether an error is raised, how many exceptions stay caught, whether the error state is flushed and whether some handler ends another exception than its own follow from the syntax, the last exactly when an exception leaves a C++ function while a handler runs |
| ErrorMeaning.PgMissing | src/cppgres/exception_impl.hpp:12-18 | so does whether an error is raised whose record has been flushed, and whether any error context is made in vain: exactly when a C++ caller is handed such an error |
| ErrorMeaning.PgOrderlyMeans | src/cppgres/guard.hpp:142-160 | in programs where no exception leaves a C++ function while a handler runs, nothing is deleted twice, no exception stays caught whose error context is still to be deleted, and what is raised is what one expects |
| ErrorMeaning.TwiceExactlyWhenNotOrderly | src/cppgres/exception_impl.hpp:20-34 | when all C++ exceptions are captured errors, some error context is deleted twice if and only if an exception leaves a C++ function while a handler runs |
| ErrorMeaning.NotOrderlyYetNothingTwice | src/cppgres/guard.hpp:153-156 | with other exceptions that need not be so |
| ErrorMeaning.SwallowingProgramMeans | src/cppgres/guard.hpp:148-152 | the program that catches everything and fails: nothing is raised, something is deleted twice, and the outer handler's own exception stays with its error context |
| ErrorMeaning.CleanupArrivesExactlyWhen | src/cppgres/exception_impl.hpp:12-18 | an error raised again after a cleanup arrives if and only if the cleanup raises nothing, captures no error and has Postgres handle none; else the cleanup's own arrives, or one without a record, which a C++ caller gets as a failure to copy it, with an error context made in vain and left current |
| ErrorMeaning.GuardRestoresExactlyWhen | src/cppgres/guard.hpp:31-49 | a guarded call leaves every starting memory context as it was if and only if the callee fails with a record that is not missing, or returns and makes no other one current for good |
| ErrorMeaning.LayersAreTransparent | src/cppgres/guard.hpp:129-160 | an uncaught Postgres error passes any number of C++ layers with the same record, with no second deletion added and nothing left undeleted |
| ErrorMeaning.ThrownArrives | src/cppgres/guard.hpp:142-160 | through any number of layers an error arrives with its record, a standard exception with its text, and any other as one |
| ErrorMeaning.PgSequences | src/cppgres/guard.hpp:33-46 | what comes after an error is not run; what comes after no error is, and last |
| ErrorMeaning.PgHandles | src/cppgres/guard.hpp:33-46 | a Postgres handler runs exactly after an error, from the memory context there was before |
| ErrorMeaning.CppSequences | src/cppgres/guard.hpp:142-160 | what comes after an exception is not run; what comes after none is, and last |
| ErrorMeaning.CppHandles | src/cppgres/guard.hpp:148-156 | a C++ handler runs exactly after an exception; when it ends normally that is swallowed or thrown again |
| ErrorMeaning.ScopesCleanUp | src/cppgres/guard.hpp:82-125 | `scope_exit` runs its cleanup however the scope is left and `scope_fail` exactly when an exception leaves it, after the body; a failing cleanup changes nothing about what is thrown |
| ErrorBridge.KeptNext | src/cppgres/exception_impl.hpp:12-34 | the accounts of two runs, one after the other, add up: each error context belongs to one exception at most or was made in vain, and is untouched just when it was or that exception is not spent |
| ErrorBridge.KeptEnd | src/cppgres/exception_impl.hpp:20 | destroying the latest caught exception deletes its error context for the second time if and only if it is spent |
| ErrorBridge.KeptHandOver | src/cppgres/exception_impl.hpp:22-34 | so does handing over the context of an exception that is raised again in Postgres |
| ErrorBridge.Backend.FlushErrorState | src/cppgres/exception_impl.hpp:23-31 | the registered error contexts are deleted, last registered first, and nothing else |
| ErrorBridge.PgException.constructor | src/cppgres/exception_impl.hpp:12-18 | captures the pending record in a context of its own, flushes the error and restores the memory context |
| ErrorBridge.PgException.Rethrow | src/cppgres/exception_impl.hpp:22-34 | raises the same record and leaves the context to `ErrorContext`'s reset |
| ErrorBridge.FfiGuard | src/cppgres/guard.hpp:20-52 | turns an error of the callee into an exception with its record; both Postgres stacks are restored on every exit, the memory context when the callee fails with a record |
| ErrorBridge.Throw | src/cppgres/exception_impl.hpp:12-18 | captures the pending record; when it is missing, the exception is that of the failed copy, and one error context is left behind, empty and current |
| ErrorBridge.CallDisturbing | src/cppgres/guard.hpp:31-49 | a callee that succeeds with another memory context current leaves that one current after the guarded call |
| ErrorBridge.FfiGuardNoexcept | src/cppgres/guard.hpp:65-71 | swallows any failure, whose error context is deleted, and restores what `ffi_guard` does |
| ErrorBridge.ExceptionGuard | src/cppgres/guard.hpp:142-160 | turns whatever leaves the C++ function into the corresponding Postgres error (`ErrorMeaning.ThrownArrives` says which in terms of records and texts); the exception stays on the run-time's stack of caught ones, its error context handed over |
| ErrorBridge.RunCpp | src/cppgres/guard.hpp:82-125 | every C++ program ends as it is said to, restores both stacks, runs its scope guards, leaves caught just the exceptions it is said to, and its error contexts are deleted or not as those exceptions say |
| ErrorBridge.RunHandler | src/cppgres/guard.hpp:148-152 | whatever was left on top of a handler's exception, its end destroys or throws the latest caught one, which is its own if and only if none was left |
| ErrorBridge.RunPg | src/cppgres/guard.hpp:33-46 | every C program, calling into C++ and back, returns or errs as it is said to, with the exception stack restored and the error contexts accounted for |
| ErrorBridge.RunPgCleanup | src/cppgres/exception_impl.hpp:17 | a handler that raises again after its cleanup raises the pending record, or the cleanup's own error, or an error whose record is missing because it has been flushed |
| ErrorBridge.RunCommand | src/cppgres/exception_impl.hpp:12-34 | for every command: what arrives is what it comes to; an error context is deleted twice iff a spent exception is destroyed or handed over, and the ones never deleted are those of exceptions still caught and those made in vain; when all C++ exceptions are captured errors, each is deleted exactly once iff no exception leaves a C++ function while a handler runs and no C++ caller is handed an error without its record |
| ErrorBridge.RunFunction | src/cppgres/guard.hpp:142-160 | a C++ function as a command, if no exception leaves a C++ function while a handler runs: nothing is reported if it throws nothing, the record of a captured error, the text of a standard exception, or that there was another |
| ErrorBridge.RunLayers | src/cppgres/guard.hpp:129-160 | the same is reported through any number of further layers |
| ErrorBridge.SwallowInHandler | src/cppgres/exception_impl.hpp:20-34 | running the swallowing program as a command: some error context is deleted twice, and the one of the handler's own exception, which stays caught, never |
| Subtransactions.RunKeeps | src/cppgres/xact.hpp:68-134 | any program that finishes each guard at most once keeps one open subtransaction per unfinished guard |
| Subtransactions.ControlFlow | src/cppgres/xact.hpp:68-134 | programs run as C++ does: nothing after a throw but what catches it and destructors, which let it go on; the writes are those executed, in order |
| Subtransactions.ScopesKeep | src/cppgres/xact.hpp:106-126 | a scope left to its destructor keeps a write if and only if its flag is set and nothing is thrown, and restores the memory context and resource owner |
| Subtransactions.FinishesKeep | src/cppgres/xact.hpp:91-104 | an explicit commit keeps it whatever the flag, a rollback takes it back, and either restores too |
| Subtransactions.EachEndsOnce | src/cppgres/xact.hpp:56-58 | in every such program, whichever guards it finishes from wherever, every subtransaction ends exactly once and the decisions are, in order, the explicit ones and those of the scopes' exits |
| Subtransactions.EndIsOwn | src/cppgres/xact.hpp:91-104 | an explicit finish ends the guard's own subtransaction if and only if no inner one is open |
| Subtransactions.OwnEndsExactlyWhen | src/cppgres/xact.hpp:91-120 | every guard ends its own subtransaction if and only if each explicit finish names the guard of the innermost one still open |
| Subtransactions.OuterCommitEndsInner | src/cppgres/xact.hpp:91-95 | committing an outer guard inside an inner scope ends the inner subtransaction, and the committed write is lost |
| Subtransactions.LastSetterDecides | src/cppgres/xact.hpp:122-126 | the memory context and resource owner after any program are those of its last setter: a change, a guard's finish, or Postgres' own for a subtransaction |
| Subtransactions.RestoresExactlyWhen | src/cppgres/xact.hpp:65-66 | a program leaves both as it found them, for every state it may start in, if and only if nothing in it has the last word |
| Subtransactions.ScopeRestoresExactlyWhen | src/cppgres/xact.hpp:65-66 | for a scope: if and only if its guard is left to its destructor, or nothing is set after its explicit finish |
| Subtransactions.PlaceOutlivesExplicitFinish | src/cppgres/xact.hpp:65-66 | a change made after an explicit finish is not undone, contrary to the comment |
| AtomicBlocks.ScopeIsAtomic | src/cppgres/xact.hpp:60-62 | a scope keeps all its writes when left normally with the commit flag set and none otherwise |
| AtomicBlocks.EndsInnermost | src/cppgres/xact.hpp:91-104 | a disciplined program ends the blocks around it from the innermost out |
| AtomicBlocks.FollowsSequence | src/cppgres/xact.hpp:91-104 | effects on the stack of subtransactions compose, across explicit finishes of any number of enclosing guards |
| AtomicBlocks.RunIsBlocks | src/cppgres/xact.hpp:68-134 | for every program that finishes each guard at most once the stack and the surviving writes are those of its blocks, where each end of a scope or explicit finish ends the innermost block |
| AtomicBlocks.BlocksAreMeaning | src/cppgres/xact.hpp:91-120 | in a disciplined program the blocks that are ended are the ones it means: each scope one atomic block |
| AtomicBlocks.OuterCommitLosesWrite | src/cppgres/xact.hpp:91-95 | in an undisciplined one they differ: a write that is meant to be kept is lost |
| SubtransactionGuard.InternalSubtransaction.constructor | src/cppgres/xact.hpp:69-74 | begins one subtransaction for this guard and keeps the memory context current |
| SubtransactionGuard.InternalSubtransaction.Commit | src/cppgres/xact.hpp:91-95 | ends the innermost subtransaction, whosever it is, keeping its writes, and restores this guard's memory context and resource owner |
| SubtransactionGuard.InternalSubtransaction.Rollback | src/cppgres/xact.hpp:100-104 | the same, going back to the writes of that subtransaction's beginning |
| SubtransactionGuard.InternalSubtransaction.Destroy | src/cppgres/xact.hpp:106-120 | does nothing after an explicit finish; else commits iff no further exception is in flight and the flag is set |
| SubtransactionGuard.Exec | src/cppgres/xact.hpp:68-134 | running any program on the objects, with destructors and exception counts, is what the stack machine says |
| SubtransactionGuard.ExecScope | src/cppgres/xact.hpp:106-126 | so is a whole scope, during unwinding too; it restores the memory context and resource owner unless they are set after the guard's explicit finish |
| SubtransactionGuard.RunSession | src/cppgres/xact.hpp:68-134 | every subtransaction has ended exactly once and the surviving writes are those of the blocks, for every program; each guard has ended its own iff the program is disciplined, and then the blocks are the ones it means |
| Aggregates.CombineIsFold | src/cppgres/aggregate.hpp:36-39 | combining the states of two row sequences gives the state of both |
| Aggregates.FoldIgnoresOrder | src/cppgres/aggregate.hpp:41-68 | the state depends only on which rows were seen, and how often |
| Aggregates.RowsOfPlans | src/cppgres/aggregate.hpp:41-154 | every scanned row counts once, wherever it is in the plan |
| Aggregates.Context.Reset | src/cppgres/memory.hpp:69-71 | every object of the aggregate context is destroyed while it is alive |
| Aggregates.Sfunc | src/cppgres/aggregate.hpp:49-60 | constructs a missing state and updates the state object in place |
| Aggregates.ScanRows | src/cppgres/aggregate.hpp:49-60 | a process that scans rows has a state if and only if there are any: one new object that stands for just these rows |
| Aggregates.CrossOver | src/cppgres/aggregate.hpp:86-112 | a partial state that is serialised and deserialised stands for the same rows, in a new object of the aggregate context |
| Aggregates.CombineStates | src/cppgres/aggregate.hpp:125-145 | constructs missing states and a third one from two operands it leaves unchanged and owned by the context |
| Aggregates.Ffunc | src/cppgres/aggregate.hpp:70-79 | finalizes the state, or a new one when there is none |
| Aggregates.RunPlan | src/cppgres/aggregate.hpp:41-154 | for every plan the partial state stands for the rows below it; a state is there if and only if the plan does anything to one, and as many objects are constructed as that takes |
| Aggregates.Execute | src/cppgres/aggregate.hpp:41-154 | for every plan the final value is that of one sequential fold over the rows in any order; the objects built are as many as the plan takes, all different, and every one is destroyed |
| Aggregates.ScanDatumsIsFold | src/cppgres/aggregate.hpp:61-65 | states that are datums fold the same way from a declared initial state, and fail without one |
| Aggregates.DatumsComputeFold | src/cppgres/aggregate.hpp:146-150 | for every plan, states that are datums compute the same fold when the initial state is declared, and fail exactly when some state is touched when it is not |
| Aggregates.MissingStatesFail | src/cppgres/aggregate.hpp:61-65 | a missing datum state fails as soon as a row is to be added to it or it is to be combined |
| Aggregates.DatumsAnswerFoldExactlyWhen | src/cppgres/aggregate.hpp:70-79 | datum states, with and without a final function, with and without `finalize`: the final value of the fold is computed if and only if there are a final function and `finalize`, no initial state and no state touched; the state is misread if and only if there are a final function, `finalize` and an initial state; the answer is the fold itself if and only if there is no final function and an initial state is declared |

## Left out

- PrimeStream.PrimeCoroutine.Resume: does not model overflow of the signed counter, which only a `count` past 2^31 reaches; the square root is the exact truncated one.
- SubtransactionGuard.Exec: covers programs that finish each guard explicitly at most once and whose Postgres calls succeed; failing commits, failing rollbacks and double finishes carry no exactly-once guarantee in the code.
- SubtransactionGuard.RunSession: the outer `transaction` struct is not part of this model.
- ErrorBridge.RunCpp: foreign exceptions and `std::exception_ptr` copies of a `pg_exception` are left out; a second deletion of an error context is recorded and the run goes on, where the process may as well end.
- ErrorBridge.PgException.Rethrow: allocation failure while the callback is registered is not modelled, nor are copies of a `pg_exception` by user code.
- Tracking.World.Reset: the callbacks of one context run in an arbitrary order, which is more general than last registered first; deleting a context counts as a reset of it.
- Tracking.RunOps: a value that has been moved from is only destroyed; the copy and move assignment operators of `tracking_memory_context`, which drop the old state without the destructor's neutralising step, are left out.
- Memory.Server.Construct: trivially destructible types, which register nothing, and failing allocations are left out.
- Memory.RunOps: parents outlive children, as the code demands of its callers.
- Generators.Generator.Resume: bodies are finite, and a nested generator raises at most one exception, so a handler is a map from exceptions to continuations; allocators, moved-from generator objects and the `ranges` wrapper are left out.
- Workers.RunSchedule: tasks do not themselves post and do not throw; futures and `packaged_task` are left out.
- FlatTuples.PrepareSubtuple: leaves an id as it is; `Reflection.ReflectType` decodes the ids of the whole tree afterwards, which fails for the same types.
- Reflection.ReflectType: enumerations stand for their underlying types, and empty classes, unions, bit fields and non-POD types are rejected before the encoding starts.
- FieldsCount.FieldCountIsMaximum: arrays, which take neither search, are left out.
- Aggregates.Sfunc: the `not aggregate context` and `not supported` reports are left out.
- `memory_context_scope`, `memory_context_execution` and `always_current_memory_context` only save and restore one global.
- `memory_context_allocator`, the executor, record and datum conversions, type traits, syscache, background workers and node walkers are thin wrappers or conversions.
- Errors that jump over C++ frames from Postgres calls outside `ffi_guard` are left out.
