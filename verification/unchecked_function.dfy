/** `utils::Function<Return(Args...)>` as declared in src/Function.hpp: the
    earlier variant. It accepts only rvalue invocables, which it moves into
    `CallableDerived<Func>`, and its call does not check for emptiness, so an
    empty wrapper fails with the storage's own error. */
module UncheckedFunction {
  import opened Wrappers
  import SS = SmallStorage
  import opened Callables

  /** `smallStorageSize`, the `Size` argument of the storage. */
  const SmallStorageSize: int := 64

  /** `SmallStorage<CallableBase, smallStorageSize>`. */
  const Cfg: SS.Config := SS.Config(SmallStorageSize, CallableBaseTag, VtablePointerSize)

  /** Here `CallableDerived<Func>` has two polymorphic bases, `CallableBase`
      and the tracing base for itself, so `Func` sits behind two vtable pointers. */
  const ErasureOverhead: nat := 2 * VtablePointerSize

  datatype Function<!S, !A, R> = Function(callable: SS.Storage<Invocable<S, A, R>>)

  /** A constructed wrapper and the lines its payload printed meanwhile. */
  datatype Built<!S, !A, R> = Built(wrapper: Function<S, A, R>, reports: seq<Report>)

  /** The erasure object for a `Func` of `funcSize` bytes, tail padding
      included, fits the inline buffer. */
  predicate StoredInline(funcSize: nat)
    ensures StoredInline(funcSize) <==> funcSize <= 40
  {
    PaddingKeepsPlacement(ErasureOverhead + funcSize, Cfg.Capacity());
    PaddedSize(ErasureOverhead + funcSize) <= Cfg.Capacity()
  }

  /** `Function() = default`: an empty storage. */
  function Default<S, A, R>(): (w: Function<S, A, R>)
    ensures SS.Empty(w.callable)
    ensures SS.Get(w.callable) == SS.Null
  {
    Function(SS.Mono)
  }

  /** `explicit Function(Func&& func) requires std::is_rvalue_reference_v<Func&&>`:
      only a temporary is accepted, and it is moved into `func_`. */
  function FromInvocable<S, A, R>(f: Invocable<S, A, R>, funcSize: nat, passing: Passing): (r: Built<S, A, R>)
    requires passing.Temporary?
    ensures Holds(r.wrapper.callable, f)
    ensures SS.IsStackAllocated(r.wrapper.callable) <==> StoredInline(funcSize)
    ensures SS.IsHeapAllocated(r.wrapper.callable) <==> !StoredInline(funcSize)
    ensures r.reports == [MoveConstructed]
  {
    var o := Erasure(f, ErasureOverhead, funcSize);
    var step := SS.Emplace(Cfg, SS.Mono, o);
    assert step.log == [SS.Constructed(o, SS.FromArgs)];
    ReportsOfOne(SS.Constructed(o, SS.FromArgs), passing);
    Built(Function(step.next), Reports(step.log, passing))
  }

  /** `operator()`: `callable_->invoke(args...)` with no check of its own, so
      an empty wrapper raises the storage's "Dereferencing empty SmallStorage"
      rather than `std::bad_function_call`. */
  function Call<S, A, R>(w: Function<S, A, R>, a: A): (r: (Function<S, A, R>, Result<R, CallError>))
    ensures r.1 == Failure(Container(SS.EmptyDereference)) <==> SS.Empty(w.callable)
    ensures r.1 != Failure(BadFunctionCall)
    ensures SS.Empty(w.callable) ==> r.0 == w
  {
    var (s, res) := Dispatch(w.callable, a);
    (Function(s), res)
  }

  /** A bound wrapper calls its invocable and keeps the invocable's new state. */
  lemma CallRunsInvocable<S, A, R>(w: Function<S, A, R>, f: Invocable<S, A, R>, a: A)
    requires Holds(w.callable, f)
    ensures Call(w, a).1 == Success(Invoke(f, a).1)
    ensures Holds(Call(w, a).0.callable, Invoke(f, a).0)
  {
    DispatchRunsInvocable(w.callable, f, a);
  }

  /** A default-constructed wrapper fails on call, but not with
      `std::bad_function_call`. */
  lemma DefaultCallFailsInStorage()
    ensures Call(Default<(), int, int>(), 1).1 == Failure(Container(SS.EmptyDereference))
    ensures Call(Default<(), int, int>(), 1).1 != Failure(BadFunctionCall)
  {
  }

  /** A closure capturing `std::array<int, 128>` cannot fit the 56-byte buffer. */
  lemma LargeCaptureOnHeap<S, A, R>(f: Invocable<S, A, R>)
    ensures SS.IsHeapAllocated(FromInvocable(f, 512, Temporary).wrapper.callable)
  {
  }

  /** `[state = 0](int x) mutable { state += x; return state; }` called with 1
      and then 2 answers 1 and then 3. */
  lemma AccumulatorAnswers()
    ensures var f := Invocable(0, (state: int, x: int) => (state + x, state + x));
            var w := FromInvocable(f, 4, Temporary).wrapper;
            && Call(w, 1).1 == Success(1)
            && Call(Call(w, 1).0, 2).1 == Success(3)
  {
    var f := Invocable(0, (state: int, x: int) => (state + x, state + x));
    var w := FromInvocable(f, 4, Temporary).wrapper;
    CallRunsInvocable(w, f, 1);
    CallRunsInvocable(Call(w, 1).0, Invoke(f, 1).0, 2);
  }
}
