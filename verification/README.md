# SmallStorage and Function, modelled in Dafny

This project models two C++ utility components and proves properties of the model.

`utils::SmallStorage<Type, Size>` is a small-buffer holder. It keeps one object of `Type`, or of a type derived from it. The object lives in an inline byte buffer of `max(8, Size - 8)` bytes when it fits there, and behind a `std::unique_ptr<Type>` when it does not.

`utils::Function<Return(Args...)>` is a type-erased callable. It emplaces a `CallableDerived<Func>` into a `SmallStorage<CallableBase, 64>` and calls it through `CallableBase`'s virtual `invoke`. There are two variants:

- include/Function.hpp raises `std::bad_function_call` when an empty wrapper is called. It accepts any invocable, and it has a separate function-pointer constructor.
- src/Function.hpp accepts only rvalue invocables. It does no emptiness check of its own, and it traces lifetimes through a `Lifetime` base.

The modules follow that structure:

| file | module | models |
|---|---|---|
| wrappers.dfy | `Wrappers` | `Option` and `Result` |
| small_storage.dfy | `SmallStorage` | src/SmallStorage.hpp, with the nested `StackStorage` as the `Cell*` functions |
| callables.dfy | `Callables` | the invocable, the erasure object and the dispatch that both `Function` variants share |
| checked_function.dfy | `CheckedFunction` | include/Function.hpp |
| unchecked_function.dfy | `UncheckedFunction` | src/Function.hpp |

The model has no real memory.

- The variant is `Storage = Mono | Inline(cell) | Heap(ptr)`.
- A payload is an `Obj`. It records:
  - its dynamic type (`tag`);
  - its `sizeof`;
  - an abstract value;
  - whether its bytes are all zero (`zeroRepr`).
- Every mutating operation also returns the constructions and destructions it performs, as a sequence of `Event`s. This lets "each object is destroyed exactly once" be stated as multiset accounting:
  - `NoDoubleDestroy`: destroyed plus still owned is at most owned before plus constructed;
  - `Conserves`: the two are equal.

Behaviours of the code that are easy to miss, and that the model follows:

- Liveness of the inline buffer is "some byte is non-zero". So an inline object whose representation is all zero bytes reports `empty()`, cannot be dereferenced, and `reset()` never runs its destructor. The object still lives at `get()`, and a write of non-zero bytes through that pointer makes the storage read as live again. See `ZeroBytesLookEmpty`, `ZeroInlineRevivedByWrite` and `Run`.
- `reset()` keeps the variant's alternative. Afterwards `get()` is still the buffer's address for inline storage, although dereferencing raises. See `GetAfterReset`.
- `Size - sizeof(std::size_t)` is computed in `std::size_t`. For `Size < 8` it wraps to a huge capacity, and for `8 <= Size < 16` the capacity is the pointer size, 8.
- `emplace` orders its events differently on the two paths:
  - on the heap path the new object is built before the old one is destroyed;
  - on the inline path the old object is destroyed first.
- In src/Function.hpp the call does not check for emptiness. An empty wrapper therefore raises the storage's `std::runtime_error`, not `std::bad_function_call`.
- In src/Function.hpp, `CallableDerived<Func>` has two polymorphic bases, so the inline buffer holds `Func` behind 16 bytes of vtable pointers instead of 8.
- The wrapper in src/Function.hpp has its own `Lifetime` vtable pointer, so its `sizeof` is 72, not the 64 that test_Function.cpp:22 expects. That same test (line 21) also expects `std::bad_function_call`, which this variant does not raise.
- Move-assigning an empty inline storage onto a live inline storage does nothing, so the destination stays live. The comment at src/SmallStorage.hpp:99 says this no-op is deliberate. Yet tests/test_SmallStorage.cpp:67-69 expects a move from an empty storage to empty the destination, and that is what happens when the source is monostate. The model keeps the code's behaviour in `MoveAssign` and logs the inconsistency under Findings.
- The move operations of `SmallStorage<CallableBase, 64>` do not compile. `std::variant`'s move instantiates `StackStorage`'s move, which constructs the abstract `CallableBase` (src/SmallStorage.hpp:93 and 102), whichever alternative is active. `CheckedFunction.Move` and `CheckedFunction.MoveAssign` are therefore the corrected moves of Findings row 1, not the moves the wrapper gets. `CheckedFunction.MoveAsWritten` models the move as the text reads.

## Model

| member | source | states |
|---|---|---|
| SmallStorage.StackStorageSize | src/SmallStorage.hpp:76-79 | the inline capacity is at least the pointer size; it is `Size - 8` for `Size >= 16`, exactly 8 for `8 <= Size < 16`, and wraps modulo 2^64 for `Size < 8` |
| SmallStorage.CapacityExamples | src/SmallStorage.hpp:78-79 | `Size` 64 gives a 56-byte buffer, 8 gives 8, and 4 wraps to 2^64 - 4 |
| SmallStorage.LiveExactlyWhenResetDestroys | src/SmallStorage.hpp:107-117 | `operator bool` decides destruction: the buffer reads as live exactly when `reset()` destroys something, and exactly when the storage counts its object as owned |
| SmallStorage.Empty | src/SmallStorage.hpp:52-59 | `empty()` holds exactly when the storage owns no object whose destructor it would run |
| SmallStorage.IsStackAllocated | src/SmallStorage.hpp:67-69 | true exactly for the inline alternative while it owns an object |
| SmallStorage.IsHeapAllocated | src/SmallStorage.hpp:70-72 | true exactly for the heap alternative while it owns an object |
| SmallStorage.Get | src/SmallStorage.hpp:34-41 | `get()` is null exactly for monostate and a null pointer, and a null `get()` implies empty |
| SmallStorage.Slice | src/SmallStorage.hpp:93 | the rebuilt object is a `Type` (base tag and size) with the source's value, and it equals the source when the source already was a `Type` |
| SmallStorage.Arrow | src/SmallStorage.hpp:43-48 | dereferencing raises exactly when the storage is empty, and otherwise yields `get()`, which is then non-null |
| SmallStorage.Star | src/SmallStorage.hpp:50 | `*s` fails exactly when `operator->` does; on success it is the one object the storage owns, found in the buffer or the heap block that `get()` names |
| SmallStorage.EmptinessShapes | src/SmallStorage.hpp:52-72 | `empty()` holds in exactly three shapes (monostate, null pointer, all-zero buffer); the two allocation flags exclude each other and are both false exactly when empty; a null `get()` implies empty |
| SmallStorage.CellReset | src/SmallStorage.hpp:112-117 | after `StackStorage::reset` the buffer is not live; it destroyed exactly the object it owned, and constructed nothing |
| SmallStorage.Teardown | src/SmallStorage.hpp:87 | destroying the active alternative destroys exactly what the storage owns, once each, and constructs nothing |
| SmallStorage.Emplace | src/SmallStorage.hpp:22-32 | heap placement exactly when the object exceeds the capacity; the new object is then what `*s` yields (unless inline with all-zero bytes); the old object is destroyed once; the construction comes first on the heap path and last on the inline path |
| SmallStorage.EmplaceAccounts | src/SmallStorage.hpp:22-32 | `emplace` destroys no object twice, and it loses nothing exactly when it does not put an all-zero-byte object in the inline buffer |
| SmallStorage.Reset | src/SmallStorage.hpp:61-65 | afterwards the storage is empty and owns nothing, but keeps its alternative and (inline) its non-null `get()`; the destructions are exactly what it owned before |
| SmallStorage.WriteThrough | src/SmallStorage.hpp:106-111 | any object living where `get()` points may be written through it, an all-zero inline object included: the value is replaced in place and the address kept; an inline storage then reads as live exactly when the new bytes are not all zero, so a write can revive an object that read as empty; a heap storage keeps its flags |
| SmallStorage.ZeroInlineRevivedByWrite | src/SmallStorage.hpp:106-111 | `s.emplace(0); *s.get() = 5;` on `SmallStorage<int, 64>`: the zero `int` reads as empty but lives at `get()`, and after the write the storage reads as live and dereferences to 5 |
| SmallStorage.CellMoveConstruct | src/SmallStorage.hpp:89-95 | the source buffer ends not live; nothing happens when it was not live; otherwise the destination holds the source's object rebuilt as `Type`, with exact accounting |
| SmallStorage.CellMoveAssign | src/SmallStorage.hpp:97-105 | nothing at all when the source buffer is not live; otherwise the destination's old object is destroyed and it holds the source's object rebuilt as `Type`; exact accounting |
| SmallStorage.MoveConstruct | src/SmallStorage.hpp:89-95 | the source ends empty and both keep the source's alternative; a heap object moves unchanged, an inline one arrives sliced to `Type` (unchanged only if it is a `Type`); nothing leaks or is destroyed twice |
| SmallStorage.MoveAssign | src/SmallStorage.hpp:97-105 | the source ends empty; the destination takes the source's object (sliced when inline); an empty source empties the destination except inline onto inline, where nothing changes; exact accounting |
| SmallStorage.MoveConstructIntended | src/SmallStorage.hpp:89-95 | corrected move: the destination dereferences to exactly the source's object, dynamic type included, the source ends empty, with exact accounting |
| SmallStorage.MoveAssignIntended | src/SmallStorage.hpp:97-105 | corrected move assignment: the destination dereferences to exactly what the source did (empty when the source was empty), the source ends empty, with exact accounting |
| SmallStorage.ResetIdempotent | src/SmallStorage.hpp:61-65 | a second `reset()` changes nothing and destroys nothing |
| SmallStorage.GetAfterReset | src/SmallStorage.hpp:34-41 | after `reset()`, `get()` is non-null exactly for inline storage, while dereferencing raises |
| SmallStorage.ZeroBytesLookEmpty | src/SmallStorage.hpp:107-117 | an emplaced inline object with all-zero bytes reports empty, and `reset()` leaves it without running its destructor |
| SmallStorage.ReemplaceDestroysOnce | src/SmallStorage.hpp:22-32 | a second `emplace` destroys the first object exactly once and leaves the second one in place |
| SmallStorage.PlacementExamples | tests/test_SmallStorage.cpp:10-29 | an `int` in `SmallStorage<int, 64>` is inline; eight `int`s in `SmallStorage<std::array<int, 8>, 8>` go to the heap; both dereference to the value |
| SmallStorage.MoveExamples | tests/test_SmallStorage.cpp:52-69 | move-constructing and then move-assigning a live `int` storage carries 42 and then 100 inline, empties each source, and assigning a fresh storage empties the destination |
| SmallStorage.InlineMoveLosesDynamicType | src/SmallStorage.hpp:93 | for a derived object held inline, moving or move-assigning yields a different object (the base slice), while the corrected move keeps it |
| SmallStorage.EmptyInlineAssignKeepsDestination | src/SmallStorage.hpp:97-100 | assigning an empty inline storage onto a live inline one leaves it live, whereas assigning a monostate or using the corrected assignment empties it |
| SmallStorage.Apply | src/SmallStorage.hpp:22-65 | one `emplace` or `reset` destroys no object twice, and loses nothing unless it emplaces an all-zero inline object |
| SmallStorage.Compose | src/SmallStorage.hpp:22-65 | two consecutive steps that each destroy nothing twice (each conserving) combine into one that destroys nothing twice (conserves) |
| SmallStorage.Run | src/SmallStorage.hpp:22-65 | any sequence of `emplace` and `reset` destroys no object twice; one with no all-zero inline `emplace` destroys or still owns every object it constructed or started with, once each |
| Callables.InvokeRules | include/Function.hpp:58 | `std::invoke` calls a function pointer with the arguments and a member function pointer with the receiver first, and neither has state to advance |
| Callables.InvokeEachAppend | include/Function.hpp:57-62 | calls compose: running `xs + ys` gives the results of `xs` followed by those of `ys` run from the state `xs` left, and ends in that run's state |
| Callables.Erasure | include/Function.hpp:50-63 | for a `Func` aligned to at most 8 bytes, the erasure object's `sizeof` is the overhead plus `sizeof(Func)` rounded up by tail padding to a multiple of 8; a storage holding it, inline or on the heap, holds exactly the invocable |
| Callables.PaddingKeepsPlacement | include/Function.hpp:50-63 | tail padding never changes whether the object fits a buffer whose size is a multiple of 8, such as the 56-byte one |
| Callables.Dispatch | include/Function.hpp:36 | a call through the storage raises the container's error exactly when the storage is empty (leaving it unchanged), never raises `bad_function_call`, and keeps the allocation flags |
| Callables.DispatchRunsInvocable | include/Function.hpp:57-59 | dispatching to a storage that holds `f` returns `f`'s result and leaves `f`, with its state advanced, in place |
| Callables.DispatchEachRunsInvocable | include/Function.hpp:57-62 | a run of calls through the storage returns exactly the results of the same run on the invocable, and the state carries over between calls |
| CheckedFunction.WrapperSizeIsFixed | include/Function.hpp:65-66 | the inline buffer is `smallStorageSize` minus the 8 bytes the storage reserves for the variant's index (a one-byte index padded to the pointer's alignment): 56 bytes; `sizeof(Function) == 64` is modelled only as the sum of those two parts |
| CheckedFunction.StoredInline | include/Function.hpp:24-25 | a `CallableDerived<Func>` (one vtable pointer plus `Func`) fits the 56-byte buffer exactly when `Func` has at most 48 bytes, for a `Func` aligned to at most 8 bytes |
| CheckedFunction.Default | include/Function.hpp:19 | a default wrapper is empty and its `get()` is null |
| CheckedFunction.FromInvocable | include/Function.hpp:21-26 | the wrapper holds the invocable, inline exactly when it fits and otherwise on the heap, and the payload is moved in from a temporary or copied from a named object |
| CheckedFunction.FromPointer | include/Function.hpp:28-30 | a function-pointer wrapper holds the pointer's invocable, always inline |
| CheckedFunction.Call | include/Function.hpp:32-37 | a call raises `bad_function_call` exactly when the wrapper is empty (leaving it unchanged), never the storage's own error, and keeps the allocation flags |
| CheckedFunction.CallRunsInvocable | include/Function.hpp:36 | a bound wrapper returns its invocable's result and keeps the invocable's new state |
| CheckedFunction.CallEachRunsInvocable | include/Function.hpp:57-62 | a run of calls on the wrapper returns exactly what the same run on the invocable returns |
| CheckedFunction.EmptyWrapperAlwaysThrows | include/Function.hpp:32-35 | every call of an empty wrapper raises `bad_function_call` and leaves it unchanged |
| CheckedFunction.Move | include/Function.hpp:66 | the corrected move of Findings row 1 (the wrapper's own move does not compile): the moved-to wrapper dereferences to what the source did, and the source ends empty |
| CheckedFunction.MoveAssign | include/Function.hpp:66 | the corrected move assignment of Findings row 1 (the wrapper's own does not compile): the assigned wrapper dereferences to what the source did, and the source ends empty |
| CheckedFunction.CallSeesOnlyTheObject | include/Function.hpp:32-37 | two wrappers that dereference to the same object give the same call result |
| CheckedFunction.MovedWrapperCalls | tests/test_Function.cpp:63-71 | with the corrected moves only: after a move or move assignment the source raises `bad_function_call` and the destination answers as the source did |
| CheckedFunction.MoveAsWritten | src/SmallStorage.hpp:89-95 | the storage's own move leaves the moved-from wrapper empty |
| CheckedFunction.MoveAsWrittenBreaksInlineWrappers | src/SmallStorage.hpp:93 | reading the storage's own move as if it compiled: a wrapper moved with its erasure object inline reaches the pure virtual `invoke`, exactly when inline; a heap-held one still calls the invocable (in C++ neither move compiles) |
| CheckedFunction.Destroy | include/Function.hpp:47 | destroying a wrapper reports one payload destruction when it holds a `CallableDerived`, and none when empty |
| CheckedFunction.PayloadLifetime | tests/test_Function.cpp:73-98 | a traced payload prints constructed, then move-constructed (temporary) or copy-constructed (named), then destroyed twice |
| CheckedFunction.DefaultThrows | tests/test_Function.cpp:18-21 | calling a default wrapper raises `bad_function_call` |
| CheckedFunction.AddOneAnswers | tests/test_Function.cpp:25-29 | `x + 1` answers 3 for 2 and then 11 for 10 |
| CheckedFunction.FunctionPointerAnswers | tests/test_Function.cpp:31-34 | the pointer `add2` answers 7 for 5 |
| CheckedFunction.AccumulatorAnswers | tests/test_Function.cpp:36-43 | a stateful closure answers 1 and then 3 for 1 and then 2; its erasure object, a vtable pointer and a 4-byte `int`, is padded to 16 bytes and stored inline |
| CheckedFunction.MemberFunctionAnswers | tests/test_Function.cpp:51-55 | a member function pointer that adds 3, called with a receiver and 4, answers 7 |
| CheckedFunction.MoveChainAnswers | tests/test_Function.cpp:63-71 | with the corrected moves only: after `g = move(f)` and `h = move(g)`, `f` and `g` raise `bad_function_call` and `h(3) == 4` |
| UncheckedFunction.Default | src/Function.hpp:23 | a default wrapper is empty and its `get()` is null |
| UncheckedFunction.FromInvocable | src/Function.hpp:25-30 | only a temporary is accepted; the wrapper holds it, inline exactly when it fits behind two vtable pointers, and the payload reports one move construction |
| UncheckedFunction.StoredInline | src/Function.hpp:29 | a `CallableDerived<Func>` (two vtable pointers plus `Func`) fits the 56-byte buffer exactly when `Func` has at most 40 bytes, for a `Func` aligned to at most 8 bytes |
| UncheckedFunction.LargeCaptureOnHeap | src/main.cpp:24-30 | a closure capturing `std::array<int, 128>` (512 bytes) is held on the heap |
| UncheckedFunction.Call | src/Function.hpp:32-34 | a call raises the storage's error exactly when the wrapper is empty, leaving it unchanged, and never `bad_function_call` |
| UncheckedFunction.CallRunsInvocable | src/Function.hpp:48-50 | a bound wrapper returns its invocable's result and keeps its new state |
| UncheckedFunction.DefaultCallFailsInStorage | src/Function.hpp:32-34 | calling a default wrapper raises the storage's error, not `bad_function_call` |
| UncheckedFunction.AccumulatorAnswers | test_Function.cpp:36-43 | a stateful closure answers 1 and then 3 for 1 and then 2 |

## Left out

- Memory is abstract: alignment, placement `new` and the object representation are not modelled. An object's `sizeof` is a parameter, and so is whether its bytes are all zero. The `CallableDerived` sizes, tail padding included, assume a `Func` aligned to at most 8 bytes. An over-aligned `func_` (three `long double`s, say) gets padding before it and may go to the heap where the model keeps it inline.
- The `Lifetime` tracing mix-in (src/Lifetime.hpp) and `RedirectCout` are modelled only as the reports of the wrapped payload. The output stream, and the reports of `Function`, `CallableBase` and `CallableDerived` themselves, are left out.
- `Overloaded` and the `std::visit` dispatch are replaced by pattern matching.
- The `main` program's printing is left out. Only its large-capture placement is stated, on the unchecked variant, which is the `Function.hpp` that src/main.cpp includes.
- Template constraints (`EmplacableType`, `InvocableWith`, the rvalue requirement) are compile-time checks. They appear only as the requirement `passing.Temporary?` of `UncheckedFunction.FromInvocable`.
- Overload resolution between the function-pointer constructor and the template constructor is left out.
- Self-move-assignment (`this == &other`) cannot be expressed between two values.
- Exceptions thrown by payload constructors, allocation failure and `valueless_by_exception` are left out. Every constructor here succeeds.
- Null function pointers are left out: every wrapped pointer is a total function.
- The member-data accessor (`&MyStruct::data`) is left out, because it needs pointer-to-member semantics on a `double` field.
- The multi-argument string wrapper test is covered by the generic argument type, not instantiated with strings.
- SmallStorage.Slice: an inline move rebuilds the object as `Type`, and the rebuilt object is taken to be live exactly when its source was. For an abstract `Type` the C++ expression is ill-formed. The model gives it the base's tag, which the call then treats as a pure virtual call.
- SmallStorage.CellMoveConstruct: the moved-from object is taken to keep its representation across the move, so it is always logged as destroyed. In C++, `other.reset()` (src/SmallStorage.hpp:94) re-reads the bytes, and a moved-from object whose bytes become all zero, such as a null `std::unique_ptr`, is never destroyed. The model's exact accounting does not cover that case.
- SmallStorage.CellMoveAssign: the same holds for `other.reset()` at src/SmallStorage.hpp:103.
- SmallStorage.MoveConstruct: for inline storage it inherits the moved-from representation of `SmallStorage.CellMoveConstruct`. The moved-from object is always logged as destroyed, even when its bytes become all zero and `other.reset()` skips it.
- SmallStorage.MoveAssign: for inline storage it inherits the moved-from representation of `SmallStorage.CellMoveConstruct` and `SmallStorage.CellMoveAssign`, with the same consequence for an object whose bytes become all zero.
- SmallStorage.Teardown and SmallStorage.CellReset log the whole emplaced object as destroyed. That matches C++ only when `Type` has a virtual destructor, as `CallableBase` does. Otherwise `get()->~Type()` (src/SmallStorage.hpp:114) and `std::unique_ptr<Type>` run only `~Type` on a derived object.
- `UncheckedFunction` move operations use the same storage move and are not restated.
- The `sizeof` of the unchecked wrapper (72) is stated only in prose.
- CheckedFunction.Destroy: for a payload that is a bare `CallableBase` it states nothing. Such a payload arises only from the as-written inline move.

## Findings

| source | as written | input that shows it | evidently intended | confidence | as-written member | corrected member |
|---|---|---|---|---|---|---|
| src/SmallStorage.hpp:93 | an inline move constructs `Type(std::move(*other.get()))`, which builds the base `Type` in the new buffer | a `SmallStorage<Base, 64>` holding a `Derived` inline and then moved; or a `Function<int(int)>` holding `[](int x) { return x + 1; }` and moved, whose `Type` is the abstract `CallableBase` | the moved-to storage holds the object with its dynamic type, so the moved `Function` still answers `h(3) == 4` | not executed; high (for an abstract `Type` the expression does not even compile once instantiated) | SmallStorage.InlineMoveLosesDynamicType | SmallStorage.MoveConstructIntended, CheckedFunction.Move, CheckedFunction.MoveAssign |
| src/SmallStorage.hpp:97-100 | move assignment returns early when the source buffer looks empty, even though the destination holds an object | `a.emplace(1); b.emplace(2); b.reset(); a = std::move(b);` leaves `a` holding 1, while `a = SmallStorage<int, 64>{}` empties it | the destination ends empty whenever the source was empty, as tests/test_SmallStorage.cpp:67-69 expects and as a monostate source already does; the comment at line 99 calls the no-op deliberate | not executed; medium | SmallStorage.EmptyInlineAssignKeepsDestination | SmallStorage.MoveAssignIntended |
