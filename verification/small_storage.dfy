/** `utils::SmallStorage<Type, Size>`: a polymorphic holder that keeps a value
    of `Type` (or of a type derived from it) either in an inline byte buffer or
    behind a `std::unique_ptr<Type>`, chosen by the value's size.

    The C++ state is `std::variant<std::monostate, StackStorage, HeapStorage>`.
    Here it is `Storage`, with no real memory: a payload is an `Obj` that records
    its dynamic type, its `sizeof`, an abstract value, and whether its object
    representation happens to be all zero bytes (which the inline buffer cannot
    tell apart from "no object"). Every operation returns the lifetime events it
    performs on payloads, so that "destroyed exactly once" can be stated. */
module SmallStorage {
  import opened Wrappers

  // ---------------------------------------------------------------------
  // Sizes and the inline capacity
  // ---------------------------------------------------------------------

  /** `sizeof(std::unique_ptr<Type>)` and `sizeof(std::size_t)` on an LP64 target. */
  const PointerSize: nat := 8
  const SizeTSize: nat := 8
  /** `std::size_t` arithmetic wraps modulo 2^64. */
  const SizeTModulus: nat := 0x1_0000_0000_0000_0000

  /** The template parameter `Size` is a C++ `int`. */
  predicate IsInt(n: int) {
    -0x8000_0000 <= n < 0x8000_0000
  }

  /** `StackStorageSize`: the larger of the heap pointer's size and
      `Size - sizeof(std::size_t)`, where the subtraction converts `Size` to
      `std::size_t` and therefore wraps for `Size < 8`. */
  function StackStorageSize(size: int): (cap: nat)
    requires IsInt(size)
    ensures PointerSize <= cap < SizeTModulus
    ensures 16 <= size ==> cap == size - SizeTSize
    ensures 8 <= size < 16 ==> cap == PointerSize
    ensures size < 8 ==> cap == size - SizeTSize + SizeTModulus
  {
    var diff := (size - SizeTSize) % SizeTModulus;
    if diff < PointerSize then PointerSize else diff
  }

  // ---------------------------------------------------------------------
  // State
  // ---------------------------------------------------------------------

  /** A payload object: `tag` is its dynamic type, `size` its `sizeof`,
      `value` whatever it holds as seen through `Type`, and `zeroRepr` whether
      every byte of its representation is zero (an `int` holding 0, say). */
  datatype Obj<V> = Obj(tag: nat, size: nat, value: V, zeroRepr: bool)

  /** One instantiation `SmallStorage<Type, Size>`: the `Size` argument and the
      dynamic type and size of `Type` itself. */
  datatype Config = Config(size: int, baseTag: nat, baseSize: nat) {
    predicate Valid() {
      IsInt(size)
    }

    function Capacity(): nat
      requires Valid()
    {
      StackStorageSize(size)
    }

    /** The placement test of `emplace`: `sizeof(EmplacedType) > StackStorageSize`
        takes the heap path. */
    predicate Fits<V>(o: Obj<V>)
      requires Valid()
    {
      o.size <= Capacity()
    }
  }

  /** The variant. `Inline(Some(o))` is a buffer in which `o` was constructed;
      when `o.zeroRepr` its bytes are all zero. `Inline(None)` is a zeroed
      buffer with no object. `Heap(None)` is a null `unique_ptr`. */
  datatype Storage<V> = Mono | Inline(cell: Option<Obj<V>>) | Heap(ptr: Option<Obj<V>>)

  /** What `get()` returns: null, the inline buffer's address, or the heap block. */
  datatype Address = Null | InlineBuffer | HeapBlock

  /** `std::runtime_error("Dereferencing empty SmallStorage")`. */
  datatype Error = EmptyDereference

  /** How a payload came to be: built from `emplace`'s arguments, or
      move-constructed from another payload. */
  datatype Origin = FromArgs | ByMove

  datatype Event<V> = Constructed(obj: Obj<V>, origin: Origin) | Destroyed(obj: Obj<V>)

  /** Result of an operation on one storage, and of one on a moved pair. */
  datatype Step<V> = Step(next: Storage<V>, log: seq<Event<V>>)
  datatype Moved<V> = Moved(dst: Storage<V>, src: Storage<V>, log: seq<Event<V>>)

  /** Results of the nested `StackStorage` operations on the buffer alone. */
  datatype CellStep<V> = CellStep(cell: Option<Obj<V>>, log: seq<Event<V>>)
  datatype CellMoved<V> = CellMoved(dst: Option<Obj<V>>, src: Option<Obj<V>>, log: seq<Event<V>>)

  // ---------------------------------------------------------------------
  // Lifetime accounting
  // ---------------------------------------------------------------------

  function Constructions<V>(log: seq<Event<V>>): seq<Obj<V>>
    decreases |log|
  {
    if |log| == 0 then []
    else (if log[0].Constructed? then [log[0].obj] else []) + Constructions(log[1..])
  }

  function Destructions<V>(log: seq<Event<V>>): seq<Obj<V>>
    decreases |log|
  {
    if |log| == 0 then []
    else (if log[0].Destroyed? then [log[0].obj] else []) + Destructions(log[1..])
  }

  lemma {:induction false} LogSplit<V>(a: seq<Event<V>>, b: seq<Event<V>>)
    ensures Constructions(a + b) == Constructions(a) + Constructions(b)
    ensures Destructions(a + b) == Destructions(a) + Destructions(b)
  {
    if |a| > 0 {
      assert (a + b)[0] == a[0];
      assert (a + b)[1..] == a[1..] + b;
      LogSplit(a[1..], b);
    } else {
      assert a + b == b;
    }
  }

  /** The events of moving `gone` into a new object `built`. */
  lemma MoveLog<V>(built: Obj<V>, gone: Obj<V>)
    ensures Constructions([Constructed(built, ByMove), Destroyed(gone)]) == [built]
    ensures Destructions([Constructed(built, ByMove), Destroyed(gone)]) == [gone]
  {
    var a, b := [Constructed(built, ByMove)], [Destroyed(gone)];
    assert a[1..] == [] && b[1..] == [];
    LogSplit(a, b);
    assert a + b == [Constructed(built, ByMove), Destroyed(gone)];
  }

  /** The object whose destructor the storage will run: the heap pointee, or
      the inline object when some byte of the buffer is non-zero. An inline
      object with an all-zero representation is never destroyed. */
  function Owned<V>(s: Storage<V>): seq<Obj<V>> {
    match s
    case Mono => []
    case Inline(cell) => if CellLive(cell) then [cell.value] else []
    case Heap(ptr) => if ptr.Some? then [ptr.value] else []
  }

  /** Every object destroyed during a step, or owned after it, was owned before
      it or constructed during it, and no more often: nothing is destroyed twice. */
  ghost predicate NoDoubleDestroy<V>(before: seq<Obj<V>>, log: seq<Event<V>>, after: seq<Obj<V>>) {
    multiset(Destructions(log)) + multiset(after) <= multiset(before) + multiset(Constructions(log))
  }

  /** Nothing destroyed twice and nothing leaked: each object owned before or
      constructed during the step is destroyed during it or owned after it. */
  ghost predicate Conserves<V>(before: seq<Obj<V>>, log: seq<Event<V>>, after: seq<Obj<V>>) {
    multiset(Destructions(log)) + multiset(after) == multiset(before) + multiset(Constructions(log))
  }

  // ---------------------------------------------------------------------
  // StackStorage: the inline byte buffer
  // ---------------------------------------------------------------------

  /** `StackStorage::operator bool`: some byte of the buffer is non-zero. */
  predicate CellLive<V>(cell: Option<Obj<V>>) {
    cell.Some? && !cell.value.zeroRepr
  }

  /** `StackStorage::reset`: destroy and zero the buffer only when it looks
      live, so an all-zero object is left in place and never destroyed. */
  function CellReset<V>(cell: Option<Obj<V>>): (r: CellStep<V>)
    ensures !CellLive(r.cell)
    ensures Destructions(r.log) == Owned(Inline(cell))
    ensures Constructions(r.log) == []
  {
    if CellLive(cell) then
      assert [Destroyed(cell.value)][1..] == [];
      CellStep(None, [Destroyed(cell.value)])
    else CellStep(cell, [])
  }

  /** `new (storage_.data()) Type(std::move(*other.get()))`: the copy is built
      as `Type`, so it has the base's dynamic type and size. The copy is taken
      to be live exactly when its source was. */
  function Slice<V>(cfg: Config, o: Obj<V>): (r: Obj<V>)
    ensures IsBaseObj(cfg, r) && r.value == o.value
    ensures IsBaseObj(cfg, o) ==> r == o
  {
    Obj(cfg.baseTag, cfg.baseSize, o.value, o.zeroRepr)
  }

  /** `operator bool` is what decides whether `reset()` runs a destructor:
      the buffer reads as live exactly when resetting it destroys something,
      and exactly when the storage counts its object as owned. */
  lemma LiveExactlyWhenResetDestroys<V>(cell: Option<Obj<V>>)
    ensures CellLive(cell) <==> CellReset(cell).log != []
    ensures CellLive(cell) <==> Owned(Inline(cell)) != []
  {
  }

  /** `StackStorage(StackStorage&&)`: a fresh zeroed buffer; if the source
      looks live, move its object in as `Type` and reset the source. */
  function CellMoveConstruct<V>(cfg: Config, other: Option<Obj<V>>): (r: CellMoved<V>)
    ensures !CellLive(r.src)
    ensures !CellLive(other) ==> r == CellMoved(None, other, [])
    ensures CellLive(other) ==> r.dst == Some(Slice(cfg, other.value))
    ensures Conserves(Owned(Inline(other)), r.log, Owned(Inline(r.dst)) + Owned(Inline(r.src)))
  {
    if !CellLive(other) then CellMoved(None, other, [])
    else
      var built := Slice(cfg, other.value);
      MoveLog(built, other.value);
      CellMoved(Some(built), None, [Constructed(built, ByMove), Destroyed(other.value)])
  }

  /** `StackStorage::operator=(StackStorage&&)`: nothing at all when the source
      looks empty; otherwise reset this buffer, move the source's object in as
      `Type`, and reset the source. (Self-assignment, the other early return,
      cannot be expressed between two values.) */
  function CellMoveAssign<V>(cfg: Config, self: Option<Obj<V>>, other: Option<Obj<V>>): (r: CellMoved<V>)
    ensures !CellLive(r.src)
    ensures !CellLive(other) ==> r == CellMoved(self, other, [])
    ensures CellLive(other) ==> r.dst == Some(Slice(cfg, other.value))
    ensures Conserves(Owned(Inline(self)) + Owned(Inline(other)), r.log, Owned(Inline(r.dst)) + Owned(Inline(r.src)))
  {
    if !CellLive(other) then CellMoved(self, other, [])
    else
      var cleared := CellReset(self);
      var built := Slice(cfg, other.value);
      MoveLog(built, other.value);
      LogSplit(cleared.log, [Constructed(built, ByMove), Destroyed(other.value)]);
      assert Destructions(cleared.log + [Constructed(built, ByMove), Destroyed(other.value)]) == Owned(Inline(self)) + Owned(Inline(other));
      assert Constructions(cleared.log + [Constructed(built, ByMove), Destroyed(other.value)]) == Owned(Inline(Some(built))) + Owned(Inline(None));
      CellMoved(Some(built), None, cleared.log + [Constructed(built, ByMove), Destroyed(other.value)])
  }

  // ---------------------------------------------------------------------
  // Observers
  // ---------------------------------------------------------------------

  /** `empty()`: monostate, a null heap pointer, or an inline buffer whose
      bytes are all zero. */
  predicate Empty<V>(s: Storage<V>)
    ensures Empty(s) <==> Owned(s) == []
  {
    match s
    case Mono => true
    case Inline(cell) => !CellLive(cell)
    case Heap(ptr) => ptr.None?
  }

  /** `isStackAllocated()`: the inline alternative, owning its object. */
  predicate IsStackAllocated<V>(s: Storage<V>)
    ensures IsStackAllocated(s) <==> s.Inline? && Owned(s) != []
  {
    s.Inline? && !Empty(s)
  }

  /** `isHeapAllocated()`: the heap alternative, owning its object. */
  predicate IsHeapAllocated<V>(s: Storage<V>)
    ensures IsHeapAllocated(s) <==> s.Heap? && Owned(s) != []
  {
    s.Heap? && !Empty(s)
  }

  /** `get()`: null for monostate, the pointer for the heap cell, and the
      buffer's address for the inline cell, whether or not it holds anything. */
  function Get<V>(s: Storage<V>): (r: Address)
    ensures r == Null ==> Empty(s)
    ensures r == Null <==> s.Mono? || s == Heap(None)
  {
    match s
    case Mono => Null
    case Inline(_) => InlineBuffer
    case Heap(ptr) => if ptr.Some? then HeapBlock else Null
  }

  /** `operator->`: raise when empty, otherwise `get()`. */
  function Arrow<V>(s: Storage<V>): (r: Result<Address, Error>)
    ensures r.Failure? <==> Empty(s)
    ensures r.Success? ==> r.value == Get(s) && r.value != Null
  {
    if Empty(s) then Failure(EmptyDereference) else Success(Get(s))
  }

  /** `operator*`: the object `operator->` points to. */
  function Star<V>(s: Storage<V>): (r: Result<Obj<V>, Error>)
    ensures r.Failure? <==> Arrow(s).Failure?
    ensures r.Success? ==> Owned(s) == [r.value]
    ensures r.Success? && Get(s) == InlineBuffer ==> s.cell == Some(r.value)
    ensures r.Success? && Get(s) == HeapBlock ==> s.ptr == Some(r.value)
  {
    match s
    case Mono => Failure(EmptyDereference)
    case Inline(cell) => if CellLive(cell) then Success(cell.value) else Failure(EmptyDereference)
    case Heap(ptr) => if ptr.Some? then Success(ptr.value) else Failure(EmptyDereference)
  }

  /** `empty()` holds in exactly three shapes, the two allocation flags
      exclude each other, and both are false exactly when the storage is empty.
      A null `get()` implies empty, but not conversely. */
  lemma EmptinessShapes<V>(s: Storage<V>)
    ensures Empty(s) <==> s.Mono? || s == Heap(None) || (s.Inline? && (s.cell.None? || s.cell.value.zeroRepr))
    ensures !(IsStackAllocated(s) && IsHeapAllocated(s))
    ensures !IsStackAllocated(s) && !IsHeapAllocated(s) <==> Empty(s)
    ensures Get(s) == Null ==> Empty(s)
    ensures Empty(s) <==> Owned(s) == []
  {
  }

  // ---------------------------------------------------------------------
  // Mutators
  // ---------------------------------------------------------------------

  /** Destroying the active alternative (as the variant does before switching,
      and as the storage's destructor does): `~StackStorage` runs `reset()`,
      `~unique_ptr` deletes a non-null pointee. */
  function Teardown<V>(s: Storage<V>): (log: seq<Event<V>>)
    ensures Destructions(log) == Owned(s)
    ensures |log| == |Owned(s)|
    ensures Constructions(log) == []
  {
    match s
    case Mono => []
    case Inline(cell) => CellReset(cell).log
    case Heap(ptr) =>
      if ptr.Some? then
        assert [Destroyed(ptr.value)][1..] == [];
        [Destroyed(ptr.value)]
      else []
  }

  /** `emplace<EmplacedType>(args...)` with `o` the object the arguments build.
      The heap path evaluates `new EmplacedType(...)` before the variant
      destroys its old alternative; the inline path destroys first and then
      constructs in the fresh buffer. */
  function Emplace<V>(cfg: Config, s: Storage<V>, o: Obj<V>): (r: Step<V>)
    requires cfg.Valid()
    ensures IsHeapAllocated(r.next) <==> !cfg.Fits(o)
    ensures IsStackAllocated(r.next) <==> cfg.Fits(o) && !o.zeroRepr
    ensures Star(r.next) == if cfg.Fits(o) && o.zeroRepr then Failure(EmptyDereference) else Success(o)
    ensures Constructions(r.log) == [o]
    ensures Destructions(r.log) == Owned(s)
    ensures |r.log| == |Owned(s)| + 1
    ensures cfg.Fits(o) ==> r.log[|r.log| - 1] == Constructed(o, FromArgs)
    ensures !cfg.Fits(o) ==> r.log[0] == Constructed(o, FromArgs)
  {
    var made := [Constructed(o, FromArgs)];
    assert made[1..] == [];
    var released := Teardown(s);
    if o.size > cfg.Capacity() then
      LogSplit(made, released);
      Step(Heap(Some(o)), made + released)
    else
      LogSplit(released, made);
      Step(Inline(Some(o)), released + made)
  }

  /** `emplace` destroys nothing twice, and it loses nothing unless it puts
      an all-zero-byte object in the inline buffer, whose destructor will
      never run. */
  lemma EmplaceAccounts<V>(cfg: Config, s: Storage<V>, o: Obj<V>)
    requires cfg.Valid()
    ensures var r := Emplace(cfg, s, o); NoDoubleDestroy(Owned(s), r.log, Owned(r.next))
    ensures var r := Emplace(cfg, s, o); Conserves(Owned(s), r.log, Owned(r.next)) <==> !(cfg.Fits(o) && o.zeroRepr)
  {
    var r := Emplace(cfg, s, o);
    if cfg.Fits(o) && o.zeroRepr {
      assert Owned(r.next) == [];
      assert multiset(Constructions(r.log)) == multiset{o};
      assert (multiset(Destructions(r.log)) + multiset(Owned(r.next)))[o] < (multiset(Owned(s)) + multiset(Constructions(r.log)))[o];
    } else {
      assert Owned(r.next) == [o];
    }
  }

  /** `reset()`: destroy the live object but keep the variant's alternative. */
  function Reset<V>(s: Storage<V>): (r: Step<V>)
    ensures Empty(r.next)
    ensures Owned(r.next) == []
    ensures r.next.Mono? == s.Mono? && r.next.Inline? == s.Inline? && r.next.Heap? == s.Heap?
    ensures Get(r.next) == if s.Inline? then InlineBuffer else Null
    ensures Destructions(r.log) == Owned(s)
    ensures Constructions(r.log) == []
    ensures Conserves(Owned(s), r.log, Owned(r.next))
  {
    match s
    case Mono => Step(Mono, [])
    case Inline(cell) => Step(Inline(CellReset(cell).cell), CellReset(cell).log)
    case Heap(_) => Step(Heap(None), Teardown(s))
  }

  /** An object lives where `get()` points: an emplaced inline object,
      whatever its bytes, or a non-null pointee. The language decides this,
      not `operator bool`, so an all-zero inline object is here too. */
  predicate HasObject<V>(s: Storage<V>) {
    (s.Inline? && s.cell.Some?) || (s.Heap? && s.ptr.Some?)
  }

  /** The object living where `get()` points. */
  function Held<V>(s: Storage<V>): (o: Obj<V>)
    requires HasObject(s)
    ensures !Empty(s) ==> Star(s) == Success(o)
  {
    if s.Inline? then s.cell.value else s.ptr.value
  }

  /** Writing through the pointer `get()` returns (`callable_->invoke(...)`
      mutates the stored object in place): the value changes to `v`, whose
      bytes are all zero when `zero` holds, and nothing moves. Any living
      object may be written, an inline one whose bytes are all zero included.
      Because the inline buffer's liveness is re-read from its bytes, the
      write decides whether the storage reads as empty afterwards. */
  function WriteThrough<V>(s: Storage<V>, v: V, zero: bool): (r: Storage<V>)
    requires HasObject(s)
    ensures Get(r) == Get(s)
    ensures HasObject(r) && Held(r) == Held(s).(value := v, zeroRepr := zero)
    ensures s.Heap? || !zero ==> Star(r) == Success(Held(s).(value := v, zeroRepr := zero))
    ensures !Empty(s) && (s.Heap? || !zero) ==> IsStackAllocated(r) == IsStackAllocated(s) && IsHeapAllocated(r) == IsHeapAllocated(s)
    ensures s.Inline? ==> (IsStackAllocated(r) <==> !zero) && !IsHeapAllocated(r)
    ensures s.Inline? && zero ==> Empty(r) && Arrow(r) == Failure(EmptyDereference)
  {
    match s
    case Inline(cell) => Inline(Some(cell.value.(value := v, zeroRepr := zero)))
    case Heap(ptr) => Heap(Some(ptr.value.(value := v, zeroRepr := zero)))
  }

  /** An object of `Type` itself, not of a derived type. */
  predicate IsBaseObj<V>(cfg: Config, o: Obj<V>) {
    o.tag == cfg.baseTag && o.size == cfg.baseSize
  }

  /** The defaulted move constructor, i.e. `std::variant`'s: the destination
      takes the source's alternative, built by that alternative's move
      constructor. The unique_ptr hands its pointer over; the inline buffer
      rebuilds the object as `Type`. */
  function MoveConstruct<V>(cfg: Config, src: Storage<V>): (r: Moved<V>)
    ensures Empty(r.src)
    ensures r.dst.Mono? == src.Mono? && r.dst.Inline? == src.Inline? && r.dst.Heap? == src.Heap?
    ensures r.src.Mono? == src.Mono? && r.src.Inline? == src.Inline? && r.src.Heap? == src.Heap?
    ensures Empty(src) ==> Empty(r.dst) && r.log == []
    ensures !Empty(src) && src.Heap? ==> Star(r.dst) == Star(src)
    ensures !Empty(src) && src.Inline? ==> Star(r.dst) == Success(Slice(cfg, Star(src).value))
    ensures !Empty(src) && IsBaseObj(cfg, Star(src).value) ==> Star(r.dst) == Star(src)
    ensures Conserves(Owned(src), r.log, Owned(r.dst) + Owned(r.src))
  {
    match src
    case Mono => Moved(Mono, Mono, [])
    case Inline(cell) =>
      var m := CellMoveConstruct(cfg, cell);
      Moved(Inline(m.dst), Inline(m.src), m.log)
    case Heap(ptr) => Moved(Heap(ptr), Heap(None), [])
  }

  /** The defaulted move assignment, i.e. `std::variant`'s: when both hold the
      inline alternative, `StackStorage::operator=` runs; otherwise the
      destination's alternative is destroyed and the source's is
      move-constructed in its place. (Two heap cells go through
      `unique_ptr::operator=`, which deletes the old pointee and takes the new
      pointer: the same outcome.) */
  function MoveAssign<V>(cfg: Config, dst: Storage<V>, src: Storage<V>): (r: Moved<V>)
    ensures Empty(r.src)
    ensures r.dst.Mono? == src.Mono? && r.dst.Inline? == src.Inline? && r.dst.Heap? == src.Heap?
    ensures !Empty(src) && src.Heap? ==> Star(r.dst) == Star(src)
    ensures !Empty(src) && src.Inline? ==> Star(r.dst) == Success(Slice(cfg, Star(src).value))
    ensures Empty(src) && !(dst.Inline? && src.Inline?) ==> Empty(r.dst)
    ensures Empty(src) && dst.Inline? && src.Inline? ==> r == Moved(dst, src, [])
    ensures Conserves(Owned(dst) + Owned(src), r.log, Owned(r.dst) + Owned(r.src))
  {
    if dst.Inline? && src.Inline? then
      var m := CellMoveAssign(cfg, dst.cell, src.cell);
      Moved(Inline(m.dst), Inline(m.src), m.log)
    else
      var m := MoveConstruct(cfg, src);
      ReleaseThen(dst, Owned(src), m.log, Owned(m.dst) + Owned(m.src));
      Moved(m.dst, m.src, Teardown(dst) + m.log)
  }

  /** Destroying the destination's alternative before a conserving step
      keeps the accounting exact. */
  lemma ReleaseThen<V>(dst: Storage<V>, before: seq<Obj<V>>, log: seq<Event<V>>, after: seq<Obj<V>>)
    requires Conserves(before, log, after)
    ensures Conserves(Owned(dst) + before, Teardown(dst) + log, after)
  {
    var released := Teardown(dst);
    LogSplit(released, log);
    assert Destructions(released + log) == Owned(dst) + Destructions(log);
    assert Constructions(released + log) == Constructions(log);
    Prefix(multiset(Owned(dst)), multiset(Destructions(log)), multiset(Constructions(log)),
           multiset(after), multiset(before));
  }

  lemma Prefix<T>(k: multiset<T>, dl: multiset<T>, cl: multiset<T>, a: multiset<T>, b: multiset<T>)
    requires dl + a == b + cl
    ensures k + dl + a == k + b + cl
  {
    forall x
      ensures (k + dl + a)[x] == (k + b + cl)[x]
    {
      assert (dl + a)[x] == (b + cl)[x];
    }
  }

  // ---------------------------------------------------------------------
  // Move as evidently intended
  // ---------------------------------------------------------------------

  /** Move construction that keeps the payload's dynamic type: the object is
      move-constructed as what was emplaced, not as `Type`. */
  function MoveConstructIntended<V>(src: Storage<V>): (r: Moved<V>)
    ensures Empty(r.src)
    ensures Star(r.dst) == Star(src)
    ensures r.dst.Mono? == src.Mono? && r.dst.Inline? == src.Inline? && r.dst.Heap? == src.Heap?
    ensures Conserves(Owned(src), r.log, Owned(r.dst) + Owned(r.src))
  {
    match src
    case Mono => Moved(Mono, Mono, [])
    case Inline(cell) =>
      if CellLive(cell) then
        (MoveLog(cell.value, cell.value);
         Moved(Inline(cell), Inline(None), [Constructed(cell.value, ByMove), Destroyed(cell.value)]))
      else Moved(Inline(None), src, [])
    case Heap(ptr) => Moved(Heap(ptr), Heap(None), [])
  }

  /** Move assignment that always releases the destination and leaves it
      holding exactly what the source held, dynamic type included. */
  function MoveAssignIntended<V>(dst: Storage<V>, src: Storage<V>): (r: Moved<V>)
    ensures Empty(r.src)
    ensures Star(r.dst) == Star(src)
    ensures Empty(src) ==> Empty(r.dst)
    ensures Conserves(Owned(dst) + Owned(src), r.log, Owned(r.dst) + Owned(r.src))
  {
    var m := MoveConstructIntended(src);
    ReleaseThen(dst, Owned(src), m.log, Owned(m.dst) + Owned(m.src));
    Moved(m.dst, m.src, Teardown(dst) + m.log)
  }

  // ---------------------------------------------------------------------
  // Properties relating several operations
  // ---------------------------------------------------------------------

  /** `reset()` is idempotent: the second call changes nothing and destroys nothing. */
  lemma ResetIdempotent<V>(s: Storage<V>)
    ensures Reset(Reset(s).next) == Step(Reset(s).next, [])
  {
  }

  /** After `reset()`, `get()` is null for the heap and monostate cases but
      still the buffer's address for the inline cell, while dereferencing raises. */
  lemma GetAfterReset<V>(s: Storage<V>)
    ensures (Get(Reset(s).next) != Null) <==> s.Inline?
    ensures Arrow(Reset(s).next) == Failure(EmptyDereference)
  {
  }

  /** The zero-byte sentinel: an inline object whose bytes are all zero is
      reported empty, cannot be dereferenced, and `reset()` skips its destructor. */
  lemma ZeroBytesLookEmpty<V>(cfg: Config, s: Storage<V>, o: Obj<V>)
    requires cfg.Valid() && cfg.Fits(o) && o.zeroRepr
    ensures Empty(Emplace(cfg, s, o).next)
    ensures Get(Emplace(cfg, s, o).next) == InlineBuffer
    ensures Reset(Emplace(cfg, s, o).next) == Step(Emplace(cfg, s, o).next, [])
  {
  }

  /** `s.emplace(0); *s.get() = 5;` on `SmallStorage<int, 64>`: the zero
      `int` reads as empty, yet it lives at `get()` and may be written, after
      which the storage reads as live and dereferences to 5. */
  lemma ZeroInlineRevivedByWrite()
    ensures var s := Emplace(Config(64, 1, 4), Mono, Obj(1, 4, 0, true)).next;
      Empty(s) && HasObject(s) && Get(s) == InlineBuffer
      && !Empty(WriteThrough(s, 5, false)) && Star(WriteThrough(s, 5, false)) == Success(Obj(1, 4, 5, false))
  {
  }

  /** Emplacing twice: the second value replaces the first, and the first is
      destroyed exactly once, within the second `emplace`. */
  lemma ReemplaceDestroysOnce<V>(cfg: Config, s: Storage<V>, o1: Obj<V>, o2: Obj<V>)
    requires cfg.Valid() && !(cfg.Fits(o1) && o1.zeroRepr)
    ensures var first := Emplace(cfg, s, o1);
            var second := Emplace(cfg, first.next, o2);
            && Destructions(second.log) == [o1]
            && (Star(second.next).Success? ==> Star(second.next).value == o2)
  {
  }

  /** The inline move rebuilds a derived object as the base: whenever the
      emplaced type differs from `Type`, the moved-to storage no longer holds
      the object the source held. */
  lemma InlineMoveLosesDynamicType<V>(cfg: Config, o: Obj<V>)
    requires cfg.Valid() && cfg.Fits(o) && !o.zeroRepr && o.tag != cfg.baseTag
    ensures Star(MoveConstruct(cfg, Inline(Some(o))).dst) != Star(Inline(Some(o)))
    ensures Star(MoveAssign(cfg, Mono, Inline(Some(o))).dst) != Star(Inline(Some(o)))
    ensures Star(MoveConstructIntended(Inline(Some(o))).dst) == Success(o)
  {
  }

  /** Move-assigning an empty inline storage onto a live inline storage leaves
      the destination holding its old object, unlike assigning from monostate. */
  lemma EmptyInlineAssignKeepsDestination<V>(cfg: Config, d: Obj<V>, src: Option<Obj<V>>)
    requires !d.zeroRepr && !CellLive(src)
    ensures !Empty(MoveAssign(cfg, Inline(Some(d)), Inline(src)).dst)
    ensures Empty(MoveAssign(cfg, Inline(Some(d)), Mono).dst)
    ensures Empty(MoveAssignIntended(Inline(Some(d)), Inline(src)).dst)
  {
  }

  /** The capacities of the instantiations the container is used with, and
      the wrap-around below `Size == 8`. */
  lemma CapacityExamples()
    ensures StackStorageSize(64) == 56
    ensures StackStorageSize(8) == PointerSize
    ensures StackStorageSize(4) == SizeTModulus - 4
  {
  }

  /** `SmallStorage<int, 64>` holding 42 is inline; `SmallStorage<std::array<int, 8>, 8>`
      holding eight ints is on the heap. */
  lemma PlacementExamples()
    ensures var int42 := Obj(1, 4, 42, false);
            var inlined := Emplace(Config(64, 1, 4), Mono, int42).next;
            IsStackAllocated(inlined) && !IsHeapAllocated(inlined) && Star(inlined) == Success(int42)
    ensures var eightInts := Obj(2, 32, [0, 1, 2, 3, 4, 5, 6, 7], false);
            var onHeap := Emplace(Config(8, 2, 32), Mono, eightInts).next;
            !IsStackAllocated(onHeap) && IsHeapAllocated(onHeap) && Star(onHeap) == Success(eightInts)
  {
  }

  /** Moving an `int` storage around: construct from a live storage, assign a
      live storage back, then assign a fresh (monostate) one. */
  lemma MoveExamples()
    ensures var cfg := Config(64, 1, 4);
            var int42 := Obj(1, 4, 42, false);
            var int100 := Obj(1, 4, 100, false);
            var first := MoveConstruct(cfg, Emplace(cfg, Mono, int42).next);
            var second := MoveAssign(cfg, first.src, Emplace(cfg, first.dst, int100).next);
            var third := MoveAssign(cfg, second.dst, Mono);
            && Star(first.dst) == Success(int42) && IsStackAllocated(first.dst) && Empty(first.src)
            && Star(second.dst) == Success(int100) && IsStackAllocated(second.dst) && Empty(second.src)
            && Empty(third.dst)
  {
  }

  // ---------------------------------------------------------------------
  // Runs of operations on one storage
  // ---------------------------------------------------------------------

  datatype Op<V> = EmplaceOp(obj: Obj<V>) | ResetOp

  /** An `emplace` that puts an all-zero-byte object in the inline buffer. */
  predicate LeaksOnEmplace<V>(cfg: Config, op: Op<V>)
    requires cfg.Valid()
  {
    op.EmplaceOp? && cfg.Fits(op.obj) && op.obj.zeroRepr
  }

  predicate NeverLeaks<V>(cfg: Config, ops: seq<Op<V>>)
    requires cfg.Valid()
    decreases |ops|
  {
    |ops| == 0 || (!LeaksOnEmplace(cfg, ops[0]) && NeverLeaks(cfg, ops[1..]))
  }

  /** One `emplace` or `reset`: it destroys nothing twice, and leaks only an
      all-zero-byte inline object. */
  function Apply<V>(cfg: Config, s: Storage<V>, op: Op<V>): (r: Step<V>)
    requires cfg.Valid()
    ensures NoDoubleDestroy(Owned(s), r.log, Owned(r.next))
    ensures !LeaksOnEmplace(cfg, op) ==> Conserves(Owned(s), r.log, Owned(r.next))
  {
    match op
    case EmplaceOp(o) => EmplaceAccounts(cfg, s, o); Emplace(cfg, s, o)
    case ResetOp => Reset(s)
  }

  /** The accounting of two consecutive steps composes into that of the
      combined step. */
  lemma Compose<V>(before: seq<Obj<V>>, middle: seq<Obj<V>>, after: seq<Obj<V>>,
                   first: seq<Event<V>>, second: seq<Event<V>>)
    requires NoDoubleDestroy(before, first, middle)
    requires NoDoubleDestroy(middle, second, after)
    ensures NoDoubleDestroy(before, first + second, after)
    ensures Conserves(before, first, middle) && Conserves(middle, second, after) ==> Conserves(before, first + second, after)
  {
    LogSplit(first, second);
    Chain(multiset(before), multiset(middle), multiset(after),
          multiset(Destructions(first)), multiset(Constructions(first)),
          multiset(Destructions(second)), multiset(Constructions(second)));
    if Conserves(before, first, middle) && Conserves(middle, second, after) {
      ChainExact(multiset(before), multiset(middle), multiset(after),
                 multiset(Destructions(first)), multiset(Constructions(first)),
                 multiset(Destructions(second)), multiset(Constructions(second)));
    }
  }

  lemma Chain<T>(before: multiset<T>, middle: multiset<T>, after: multiset<T>,
                 d1: multiset<T>, c1: multiset<T>, d2: multiset<T>, c2: multiset<T>)
    requires d1 + middle <= before + c1
    requires d2 + after <= middle + c2
    ensures d1 + d2 + after <= before + c1 + c2
  {
    forall x
      ensures (d1 + d2 + after)[x] <= (before + c1 + c2)[x]
    {
      assert (d1 + middle)[x] <= (before + c1)[x];
      assert (d2 + after)[x] <= (middle + c2)[x];
    }
  }

  lemma ChainExact<T>(before: multiset<T>, middle: multiset<T>, after: multiset<T>,
                      d1: multiset<T>, c1: multiset<T>, d2: multiset<T>, c2: multiset<T>)
    requires d1 + middle == before + c1
    requires d2 + after == middle + c2
    ensures d1 + d2 + after == before + c1 + c2
  {
    forall x
      ensures (d1 + d2 + after)[x] == (before + c1 + c2)[x]
    {
      assert (d1 + middle)[x] == (before + c1)[x];
      assert (d2 + after)[x] == (middle + c2)[x];
    }
  }

  /** Apply `ops` in order, concatenating their lifetime events. No sequence
      of `emplace` and `reset` calls destroys any object twice; without an
      all-zero-byte inline `emplace`, every object constructed in the run is
      destroyed in it or still owned at its end, and nothing owned at its
      start is lost. */
  function Run<V>(cfg: Config, s: Storage<V>, ops: seq<Op<V>>): (r: Step<V>)
    requires cfg.Valid()
    decreases |ops|
    ensures NoDoubleDestroy(Owned(s), r.log, Owned(r.next))
    ensures NeverLeaks(cfg, ops) ==> Conserves(Owned(s), r.log, Owned(r.next))
  {
    if |ops| == 0 then
      assert Destructions<V>([]) == [] && Constructions<V>([]) == [];
      Step(s, [])
    else
      var first := Apply(cfg, s, ops[0]);
      var rest := Run(cfg, first.next, ops[1..]);
      Compose(Owned(s), Owned(first.next), Owned(rest.next), first.log, rest.log);
      Step(rest.next, first.log + rest.log)
  }
}
