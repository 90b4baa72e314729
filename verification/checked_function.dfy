/** `utils::Function<Return(Args...)>` as declared in include/Function.hpp: a
    type-erased callable that emplaces a `CallableDerived<Func>` into a
    `SmallStorage<CallableBase, 64>` and checks for emptiness before calling. */
module CheckedFunction {
  import opened Wrappers
  import SS = SmallStorage
  import opened Callables

  /** `smallStorageSize`, the `Size` argument of the storage. */
  const SmallStorageSize: int := 64

  /** `SmallStorage<CallableBase, smallStorageSize>`; `CallableBase` is one
      vtable pointer. */
  const Cfg: SS.Config := SS.Config(SmallStorageSize, CallableBaseTag, VtablePointerSize)

  /** `CallableDerived<Func>` is `Func` behind `CallableBase`'s vtable pointer. */
  const ErasureOverhead: nat := VtablePointerSize

  datatype Function<!S, !A, R> = Function(callable: SS.Storage<Invocable<S, A, R>>)

  /** A constructed wrapper and the lines its payload printed meanwhile. */
  datatype Built<!S, !A, R> = Built(wrapper: Function<S, A, R>, reports: seq<Report>)

  /** A pair of wrappers after a move: the destination and the moved-from source. */
  datatype Pair<!S, !A, R> = Pair(dst: Function<S, A, R>, src: Function<S, A, R>)

  /** The erasure object for a `Func` of `funcSize` bytes, tail padding
      included, fits the inline buffer. */
  predicate StoredInline(funcSize: nat)
    ensures StoredInline(funcSize) <==> funcSize <= 48
  {
    PaddingKeepsPlacement(ErasureOverhead + funcSize, Cfg.Capacity());
    PaddedSize(ErasureOverhead + funcSize) <= Cfg.Capacity()
  }

  /** The storage layout is 64 bytes whatever is bound: a 56-byte inline
      buffer and the variant's index slot. */
  lemma WrapperSizeIsFixed()
    ensures Cfg.Capacity() == 56
    ensures Cfg.Capacity() + SS.SizeTSize == 64
  {
  }

  /** `Function() = default`: an empty storage. */
  function Default<S, A, R>(): (w: Function<S, A, R>)
    ensures SS.Empty(w.callable)
    ensures SS.Get(w.callable) == SS.Null
  {
    Function(SS.Mono)
  }

  /** `explicit Function(Func&& func)`: emplace `CallableDerived<Func>`, whose
      `func_` is moved from a temporary and copied from a named invocable. */
  function FromInvocable<S, A, R>(f: Invocable<S, A, R>, funcSize: nat, passing: Passing): (r: Built<S, A, R>)
    ensures Holds(r.wrapper.callable, f)
    ensures SS.IsStackAllocated(r.wrapper.callable) <==> StoredInline(funcSize)
    ensures SS.IsHeapAllocated(r.wrapper.callable) <==> !StoredInline(funcSize)
    ensures r.reports == [if passing.Temporary? then MoveConstructed else CopyConstructed]
  {
    var o := Erasure(f, ErasureOverhead, funcSize);
    var step := SS.Emplace(Cfg, SS.Mono, o);
    assert step.log == [SS.Constructed(o, SS.FromArgs)];
    ReportsOfOne(SS.Constructed(o, SS.FromArgs), passing);
    Built(Function(step.next), Reports(step.log, passing))
  }

  /** `Function(Return (*func)(Args...))`: the pointer is copied into a
      `CallableDerived<Return (*)(Args...)>`, which always fits inline. */
  function FromPointer<A, R>(fp: A -> R): (w: Function<(), A, R>)
    ensures Holds(w.callable, FromFunctionPointer(fp))
    ensures SS.IsStackAllocated(w.callable)
  {
    FromInvocable(FromFunctionPointer(fp), SS.PointerSize, Named).wrapper
  }

  /** `operator()`: raise `std::bad_function_call` when empty, otherwise
      `callable_->invoke(args...)`. */
  function Call<S, A, R>(w: Function<S, A, R>, a: A): (r: (Function<S, A, R>, Result<R, CallError>))
    ensures r.1 == Failure(BadFunctionCall) <==> SS.Empty(w.callable)
    ensures SS.Empty(w.callable) ==> r.0 == w
    ensures r.1 != Failure(Container(SS.EmptyDereference))
    ensures SS.IsStackAllocated(r.0.callable) == SS.IsStackAllocated(w.callable)
    ensures SS.IsHeapAllocated(r.0.callable) == SS.IsHeapAllocated(w.callable)
  {
    if SS.Empty(w.callable) then (w, Failure(BadFunctionCall))
    else
      var (s, res) := Dispatch(w.callable, a);
      (Function(s), res)
  }

  /** A bound wrapper calls its invocable and keeps the invocable's new state. */
  lemma CallRunsInvocable<S, A, R>(w: Function<S, A, R>, f: Invocable<S, A, R>, a: A)
    requires Holds(w.callable, f)
    ensures Call(w, a).1 == Success(Invoke(f, a).1)
    ensures Holds(Call(w, a).0.callable, Invoke(f, a).0)
  {
    DispatchRunsInvocable(w.callable, f, a);
  }

  /** Calls with `args` in order on the same wrapper. */
  function CallEach<S, A, R>(w: Function<S, A, R>, args: seq<A>): (Function<S, A, R>, seq<Result<R, CallError>>)
    decreases |args|
  {
    if |args| == 0 then (w, [])
    else
      var (w1, r1) := Call(w, args[0]);
      var (wn, rs) := CallEach(w1, args[1..]);
      (wn, [r1] + rs)
  }

  /** Successive calls mutate the one stored erasure object: a run of calls on
      the wrapper returns what the same run on the invocable returns. */
  lemma {:induction false} CallEachRunsInvocable<S, A, R>(w: Function<S, A, R>, f: Invocable<S, A, R>, args: seq<A>)
    requires Holds(w.callable, f)
    decreases |args|
    ensures CallEach(w, args).1 == Successes(InvokeEach(f, args).1)
    ensures Holds(CallEach(w, args).0.callable, InvokeEach(f, args).0)
  {
    if |args| > 0 {
      CallRunsInvocable(w, f, args[0]);
      var (w1, _) := Call(w, args[0]);
      var (f1, _) := Invoke(f, args[0]);
      CallEachRunsInvocable(w1, f1, args[1..]);
    }
  }

  /** An empty wrapper raises `std::bad_function_call` on every call. */
  lemma {:induction false} EmptyWrapperAlwaysThrows<S, A, R>(w: Function<S, A, R>, args: seq<A>)
    requires SS.Empty(w.callable)
    decreases |args|
    ensures CallEach(w, args).0 == w
    ensures |CallEach(w, args).1| == |args|
    ensures forall i :: 0 <= i < |args| ==> CallEach(w, args).1[i] == Failure(BadFunctionCall)
  {
    if |args| > 0 {
      EmptyWrapperAlwaysThrows(w, args[1..]);
    }
  }

  /** The wrapper's move constructor, with the storage moving its erasure
      object as the `CallableDerived` it is. */
  function Move<S, A, R>(w: Function<S, A, R>): (r: Pair<S, A, R>)
    ensures SS.Empty(r.src.callable)
    ensures SS.Star(r.dst.callable) == SS.Star(w.callable)
  {
    var m := SS.MoveConstructIntended(w.callable);
    Pair(Function(m.dst), Function(m.src))
  }

  /** The wrapper's move assignment, on the same corrected storage move. */
  function MoveAssign<S, A, R>(dst: Function<S, A, R>, src: Function<S, A, R>): (r: Pair<S, A, R>)
    ensures SS.Empty(r.src.callable)
    ensures SS.Star(r.dst.callable) == SS.Star(src.callable)
  {
    var m := SS.MoveAssignIntended(dst.callable, src.callable);
    Pair(Function(m.dst), Function(m.src))
  }

  /** Calling depends only on the object the storage dereferences to. */
  lemma CallSeesOnlyTheObject<S, A, R>(w1: Function<S, A, R>, w2: Function<S, A, R>, a: A)
    requires SS.Star(w1.callable) == SS.Star(w2.callable)
    ensures Call(w1, a).1 == Call(w2, a).1
  {
  }

  /** After a move the source throws `std::bad_function_call` and the
      destination answers every call as the source did before. */
  lemma MovedWrapperCalls<S, A, R>(w: Function<S, A, R>, dst: Function<S, A, R>, a: A)
    ensures Call(Move(w).src, a).1 == Failure(BadFunctionCall)
    ensures Call(Move(w).dst, a).1 == Call(w, a).1
    ensures Call(MoveAssign(dst, w).src, a).1 == Failure(BadFunctionCall)
    ensures Call(MoveAssign(dst, w).dst, a).1 == Call(w, a).1
  {
    CallSeesOnlyTheObject(Move(w).dst, w, a);
    CallSeesOnlyTheObject(MoveAssign(dst, w).dst, w, a);
  }

  /** The move the storage actually performs, which rebuilds an inline
      erasure object as the abstract `CallableBase`. */
  function MoveAsWritten<S, A, R>(w: Function<S, A, R>): (r: Pair<S, A, R>)
    ensures SS.Empty(r.src.callable)
  {
    var m := SS.MoveConstruct(Cfg, w.callable);
    Pair(Function(m.dst), Function(m.src))
  }

  /** With the storage's own move, a wrapper moved while its erasure object is
      inline no longer reaches the invocable: the call lands on
      `CallableBase`'s pure virtual `invoke`. Only heap-held objects survive. */
  lemma MoveAsWrittenBreaksInlineWrappers<S, A, R>(f: Invocable<S, A, R>, funcSize: nat, passing: Passing, a: A)
    ensures var w := FromInvocable(f, funcSize, passing).wrapper;
            StoredInline(funcSize) <==> Call(MoveAsWritten(w).dst, a).1 == Failure(PureVirtualCall)
    ensures var w := FromInvocable(f, funcSize, passing).wrapper;
            !StoredInline(funcSize) ==> Call(MoveAsWritten(w).dst, a).1 == Success(Invoke(f, a).1)
  {
    var w := FromInvocable(f, funcSize, passing).wrapper;
    CallRunsInvocable(w, f, a);
    if !StoredInline(funcSize) {
      CallSeesOnlyTheObject(MoveAsWritten(w).dst, w, a);
    }
  }

  /** `~Function`: the storage destroys the erasure object, and with it the payload. */
  function Destroy<S, A, R>(w: Function<S, A, R>): (r: seq<Report>)
    ensures SS.Empty(w.callable) ==> r == []
    ensures !SS.Empty(w.callable) && SS.Star(w.callable).value.tag == CallableDerivedTag ==> r == [Destroyed]
  {
    var log := SS.Teardown(w.callable);
    if SS.Empty(w.callable) then Reports(log, Named)
    else
      assert log == [SS.Destroyed(SS.Star(w.callable).value)];
      ReportsOfOne(log[0], Named);
      Reports(log, Named)
  }

  /** A traced payload bound and then dropped with its wrapper prints exactly:
      constructed, moved-in (temporary) or copied-in (named), destroyed twice. */
  lemma PayloadLifetime<S, A, R>(f: Invocable<S, A, R>, funcSize: nat, passing: Passing)
    ensures var b := FromInvocable(f, funcSize, passing);
            var printed :=
              if passing.Temporary? then [Constructed] + b.reports + [Destroyed] + Destroy(b.wrapper)
              else [Constructed] + b.reports + Destroy(b.wrapper) + [Destroyed];
            printed == [Constructed, if passing.Temporary? then MoveConstructed else CopyConstructed, Destroyed, Destroyed]
  {
  }

  // ---------------------------------------------------------------------
  // The wrapper's documented uses
  // ---------------------------------------------------------------------

  /** `[](int x) { return x + 1; }` */
  function AddOne(): Invocable<(), int, int> {
    Invocable((), (u: (), x: int) => (u, x + 1))
  }

  /** `[state = 0](int x) mutable { state += x; return state; }` */
  function Accumulator(): Invocable<int, int, int> {
    Invocable(0, (state: int, x: int) => (state + x, state + x))
  }

  /** A default-constructed wrapper throws `std::bad_function_call`. */
  lemma DefaultThrows()
    ensures Call(Default<(), int, int>(), 1).1 == Failure(BadFunctionCall)
  {
  }

  /** Wrapping `x + 1` and calling with 2 and then 10 answers 3 and then 11. */
  lemma AddOneAnswers()
    ensures CallEach(FromInvocable(AddOne(), 1, Temporary).wrapper, [2, 10]).1 == [Success(3), Success(11)]
  {
    var w := FromInvocable(AddOne(), 1, Temporary).wrapper;
    CallEachRunsInvocable(w, AddOne(), [2, 10]);
    assert [2, 10][1..] == [10] && [10][1..] == [];
  }

  /** The stateful closure accumulates across calls: 1, then 3. Its erasure
      object, a vtable pointer and a 4-byte `int`, is padded to 16 bytes and
      stored inline. */
  lemma AccumulatorAnswers()
    ensures CallEach(FromInvocable(Accumulator(), 4, Temporary).wrapper, [1, 2]).1 == [Success(1), Success(3)]
    ensures Erasure(Accumulator(), ErasureOverhead, 4).size == 16
    ensures SS.IsStackAllocated(FromInvocable(Accumulator(), 4, Temporary).wrapper.callable)
  {
    var w := FromInvocable(Accumulator(), 4, Temporary).wrapper;
    CallEachRunsInvocable(w, Accumulator(), [1, 2]);
    assert [1, 2][1..] == [2] && [2][1..] == [];
  }

  /** The function pointer `add2` called with 5 answers 7. */
  lemma FunctionPointerAnswers()
    ensures Call(FromPointer((x: int) => x + 2), 5).1 == Success(7)
  {
    CallRunsInvocable(FromPointer((x: int) => x + 2), FromFunctionPointer((x: int) => x + 2), 5);
  }

  datatype MyStruct = MyStruct

  /** `&MyStruct::operator()` (which adds 3) takes the receiver first: `f(myStruct, 4) == 7`. */
  lemma MemberFunctionAnswers()
    ensures var f := FromMemberFunction((c: MyStruct, x: int) => x + 3);
            Call(FromInvocable(f, 16, Temporary).wrapper, (MyStruct, 4)).1 == Success(7)
  {
    var f := FromMemberFunction((c: MyStruct, x: int) => x + 3);
    CallRunsInvocable(FromInvocable(f, 16, Temporary).wrapper, f, (MyStruct, 4));
  }

  /** `g = std::move(f)` then `h = std::move(g)`: `f` and `g` throw, `h(3) == 4`. */
  lemma MoveChainAnswers()
    ensures var f := FromInvocable(AddOne(), 1, Temporary).wrapper;
            var g := Move(f);
            var h := MoveAssign(Default(), g.dst);
            && Call(g.src, 1).1 == Failure(BadFunctionCall)
            && Call(h.src, 1).1 == Failure(BadFunctionCall)
            && Call(h.dst, 3).1 == Success(4)
  {
    var f := FromInvocable(AddOne(), 1, Temporary).wrapper;
    var g := Move(f);
    MovedWrapperCalls(f, Default(), 3);
    MovedWrapperCalls(g.dst, Default(), 3);
    CallRunsInvocable(f, AddOne(), 3);
  }
}
