/** What both `utils::Function` variants share: the invocable they wrap, the
    erasure object (`CallableDerived<Func>`, seen through `CallableBase`) that
    the wrapper emplaces into its `SmallStorage`, and the dispatch of a call
    through that storage. */
module Callables {
  import opened Wrappers
  import SS = SmallStorage

  /** An invocable with its own mutable state: `body` maps the state and the
      call's arguments to the new state and the result, as
      `std::invoke(func_, args...)` does on a (possibly `mutable`) closure. */
  datatype Invocable<!S, !A, R> = Invocable(state: S, body: (S, A) -> (S, R))

  /** One call: the invocable with its state advanced, and the result. */
  function Invoke<S, A, R>(f: Invocable<S, A, R>, a: A): (Invocable<S, A, R>, R) {
    var (next, res) := f.body(f.state, a);
    (Invocable(next, f.body), res)
  }

  /** Calls with `args` in order, threading the state through. */
  function InvokeEach<S, A, R>(f: Invocable<S, A, R>, args: seq<A>): (Invocable<S, A, R>, seq<R>)
    decreases |args|
  {
    if |args| == 0 then (f, [])
    else
      var (f1, r1) := Invoke(f, args[0]);
      var (fn, rs) := InvokeEach(f1, args[1..]);
      (fn, [r1] + rs)
  }

  /** A plain function pointer `Return (*)(Args...)`: it has no state. */
  function FromFunctionPointer<A, R>(fp: A -> R): Invocable<(), A, R> {
    Invocable((), (u: (), a: A) => (u, fp(a)))
  }

  /** A pointer to a member function: `std::invoke` passes the receiver as the
      first argument. */
  function FromMemberFunction<C, X, R>(m: (C, X) -> R): Invocable<(), (C, X), R> {
    Invocable((), (u: (), a: (C, X)) => (u, m(a.0, a.1)))
  }

  /** `std::invoke` on the two pointer kinds: a function pointer is called
      with the arguments, a member function pointer with the receiver first.
      Neither has state to advance. */
  lemma InvokeRules<A, R, C, X, T>(fp: A -> R, a: A, m: (C, X) -> T, c: C, x: X)
    ensures Invoke(FromFunctionPointer(fp), a) == (FromFunctionPointer(fp), fp(a))
    ensures Invoke(FromMemberFunction(m), (c, x)) == (FromMemberFunction(m), m(c, x))
  {
  }

  /** Calls compose: running `xs + ys` is running `xs` and then running `ys`
      from the state `xs` left behind. */
  lemma {:induction false} InvokeEachAppend<S, A, R>(f: Invocable<S, A, R>, xs: seq<A>, ys: seq<A>)
    decreases |xs|
    ensures InvokeEach(f, xs + ys).0 == InvokeEach(InvokeEach(f, xs).0, ys).0
    ensures InvokeEach(f, xs + ys).1 == InvokeEach(f, xs).1 + InvokeEach(InvokeEach(f, xs).0, ys).1
  {
    if |xs| == 0 {
      assert xs + ys == ys;
    } else {
      assert (xs + ys)[0] == xs[0];
      assert (xs + ys)[1..] == xs[1..] + ys;
      var (f1, _) := Invoke(f, xs[0]);
      InvokeEachAppend(f1, xs[1..], ys);
    }
  }

  // ---------------------------------------------------------------------
  // The erasure object
  // ---------------------------------------------------------------------

  /** Dynamic types an erasure slot can hold: the abstract `CallableBase`, or a
      `CallableDerived<Func>`. */
  const CallableBaseTag: nat := 0
  const CallableDerivedTag: nat := 1

  /** One vtable pointer: `sizeof(CallableBase)`. */
  const VtablePointerSize: nat := 8

  /** `sizeof` of a class holding a vtable pointer and members aligned to at
      most 8 bytes: its members' `bytes`, rounded up with tail padding to a
      multiple of the pointer's alignment. */
  function PaddedSize(bytes: nat): (n: nat)
    ensures n % VtablePointerSize == 0
    ensures bytes <= n < bytes + VtablePointerSize
  {
    (bytes + VtablePointerSize - 1) / VtablePointerSize * VtablePointerSize
  }

  /** Tail padding never changes placement against a buffer whose size is a
      multiple of the alignment, such as the 56-byte inline buffer. */
  lemma PaddingKeepsPlacement(bytes: nat, capacity: nat)
    requires capacity % VtablePointerSize == 0
    ensures PaddedSize(bytes) <= capacity <==> bytes <= capacity
  {
  }

  /** `CallableDerived<Func>` holding `f` (whose own `sizeof` is `funcSize`,
      with an alignment of at most 8) behind `overhead` bytes of vtable
      pointers; its own `sizeof` includes the tail padding. The vtable
      pointer is never zero, so the object's bytes are never all zero. */
  function Erasure<S, A, R>(f: Invocable<S, A, R>, overhead: nat, funcSize: nat): (o: SS.Obj<Invocable<S, A, R>>)
    ensures Holds(SS.Inline(Some(o)), f) && Holds(SS.Heap(Some(o)), f)
    ensures o.size % VtablePointerSize == 0
    ensures overhead + funcSize <= o.size < overhead + funcSize + VtablePointerSize
  {
    SS.Obj(CallableDerivedTag, PaddedSize(overhead + funcSize), f, false)
  }

  /** The storage holds a `CallableDerived` wrapping exactly `f`. */
  ghost predicate Holds<S, A, R>(s: SS.Storage<Invocable<S, A, R>>, f: Invocable<S, A, R>) {
    && SS.Star(s).Success?
    && SS.Star(s).value.tag == CallableDerivedTag
    && SS.Star(s).value.value == f
  }

  /** Failures a call can end in: `std::bad_function_call`, the container's
      `std::runtime_error`, or reaching the pure virtual `invoke` of a bare
      `CallableBase`. */
  datatype CallError = BadFunctionCall | Container(err: SS.Error) | PureVirtualCall

  /** `callable_->invoke(args...)`: dereference the storage (raising when it
      is empty), run the erasure object's `invoke`, and keep its new state in
      place. */
  function Dispatch<S, A, R>(s: SS.Storage<Invocable<S, A, R>>, a: A): (r: (SS.Storage<Invocable<S, A, R>>, Result<R, CallError>))
    ensures SS.Empty(s) <==> r.1 == Failure(Container(SS.EmptyDereference))
    ensures SS.Empty(s) ==> r.0 == s
    ensures r.1 != Failure(BadFunctionCall)
    ensures SS.IsStackAllocated(r.0) == SS.IsStackAllocated(s) && SS.IsHeapAllocated(r.0) == SS.IsHeapAllocated(s)
  {
    match SS.Star(s)
    case Failure(e) => (s, Failure(Container(e)))
    case Success(o) =>
      if o.tag != CallableDerivedTag then (s, Failure(PureVirtualCall))
      else
        // A `CallableDerived` starts with its vtable pointer, which is never
        // zero, so the object never reads as all zero bytes.
        var (f, res) := Invoke(o.value, a);
        (SS.WriteThrough(s, f, false), Success(res))
  }

  /** Dispatching to a storage that holds `f` is a call of `f`: the result is
      `f`'s, and the storage then holds `f` with its state advanced. */
  lemma DispatchRunsInvocable<S, A, R>(s: SS.Storage<Invocable<S, A, R>>, f: Invocable<S, A, R>, a: A)
    requires Holds(s, f)
    ensures Dispatch(s, a).1 == Success(Invoke(f, a).1)
    ensures Holds(Dispatch(s, a).0, Invoke(f, a).0)
  {
  }

  /** Calls with `args` in order through the storage. */
  function DispatchEach<S, A, R>(s: SS.Storage<Invocable<S, A, R>>, args: seq<A>): (SS.Storage<Invocable<S, A, R>>, seq<Result<R, CallError>>)
    decreases |args|
  {
    if |args| == 0 then (s, [])
    else
      var (s1, r1) := Dispatch(s, args[0]);
      var (sn, rs) := DispatchEach(s1, args[1..]);
      (sn, [r1] + rs)
  }

  function Successes<R, E>(rs: seq<R>): (out: seq<Result<R, E>>)
    ensures |out| == |rs|
    ensures forall i :: 0 <= i < |rs| ==> out[i] == Success(rs[i])
  {
    seq(|rs|, i requires 0 <= i < |rs| => Success(rs[i]))
  }

  /** A stored invocable keeps its state between calls: a run of calls through
      the storage returns exactly what the same run of calls on `f` returns. */
  lemma {:induction false} DispatchEachRunsInvocable<S, A, R>(s: SS.Storage<Invocable<S, A, R>>, f: Invocable<S, A, R>, args: seq<A>)
    requires Holds(s, f)
    decreases |args|
    ensures DispatchEach(s, args).1 == Successes(InvokeEach(f, args).1)
    ensures Holds(DispatchEach(s, args).0, InvokeEach(f, args).0)
  {
    if |args| > 0 {
      DispatchRunsInvocable(s, f, args[0]);
      var (s1, _) := Dispatch(s, args[0]);
      var (f1, _) := Invoke(f, args[0]);
      DispatchEachRunsInvocable(s1, f1, args[1..]);
    }
  }

  // ---------------------------------------------------------------------
  // Lifetime reports of the wrapped payload
  // ---------------------------------------------------------------------

  /** How the invocable reached the constructor: as a temporary (moved into
      `func_`) or as a named object (copied into `func_`). */
  datatype Passing = Temporary | Named

  /** The lines a traced payload type prints. */
  datatype Report = Constructed | CopyConstructed | MoveConstructed | Destroyed

  /** What the payload inside an erasure object reports for one storage event.
      A bare `CallableBase` holds no payload and reports nothing. */
  function ReportOf<V>(e: SS.Event<V>, passing: Passing): seq<Report> {
    if e.obj.tag != CallableDerivedTag then []
    else
      match e
      case Constructed(_, origin) =>
        if origin.ByMove? || passing.Temporary? then [MoveConstructed] else [CopyConstructed]
      case Destroyed(_) => [Destroyed]
  }

  function Reports<V>(log: seq<SS.Event<V>>, passing: Passing): seq<Report>
    decreases |log|
  {
    if |log| == 0 then [] else ReportOf(log[0], passing) + Reports(log[1..], passing)
  }

  lemma ReportsOfOne<V>(e: SS.Event<V>, passing: Passing)
    ensures Reports([e], passing) == ReportOf(e, passing)
  {
    assert [e][1..] == [];
  }
}
