/** The cross-domain reference `RRef<T>` over the shared heap, modelled as an
    arena of slots addressed by handles. A slot holds the owner cell, the
    borrow-count cell, the value and the type tag and layout it was allocated
    with. The shared heap's own allocator is not part of this model: its
    answer to one `alloc` request is a parameter. */
module SharedRef {
  import opened Kernel

  datatype Layout = Layout(size: nat, align: nat)

  /** What the program knows of `T`: `T::type_id()`, `size_of::<T>()`, `align_of::<T>()`. */
  datatype TypeInfo = TypeInfo(typeId: nat, size: nat, align: nat)

  datatype Slot<V> = Slot(owner: DomainId, borrowCount: nat, value: V, typeId: nat, layout: Layout)

  /** The shared heap: whether `HEAP` has been set, and its live slots by address. */
  datatype Heap<V> = Heap(initialized: bool, slots: map<nat, Slot<V>>)

  /** An `RRef<T>`: the address of its slot. */
  datatype RRef = RRef(addr: nat)

  datatype Allocated<V> = Allocated(heap: Heap<V>, handle: RRef)

  /** `new_with_layout`: `grant` is the address the heap's `alloc` hands out,
      or `None` when it fails. */
  function NewWithLayout<V>(heap: Heap<V>, value: V, ty: TypeInfo, layout: Layout,
                            current: DomainId, grant: Option<nat>): (r: Result<Allocated<V>>)
    requires grant.Some? ==> grant.value !in heap.slots
    ensures r.Ok? <==> heap.initialized && grant.Some?
    ensures !r.Err?
    ensures r.Ok? ==> && r.value.handle.addr !in heap.slots
                      && r.value.heap.initialized
                      && r.value.heap.slots.Keys == heap.slots.Keys + {r.value.handle.addr}
                      && r.value.heap.slots - {r.value.handle.addr} == heap.slots
    ensures r.Ok? ==> var s := r.value.heap.slots[r.value.handle.addr];
                      && s.owner == current && s.borrowCount == 0 && s.value == value
                      && s.typeId == ty.typeId && s.layout == layout
  {
    if !heap.initialized then Abort(UnwrapNone("Shared heap not initialized"))
    else if grant.None? then Abort(Explicit("Shared heap allocation failed"))
    else
      var a := grant.value;
      Ok(Allocated(heap.(slots := heap.slots[a := Slot(current, 0, value, ty.typeId, layout)]), RRef(a)))
  }

  /** `RRef::new`: the layout of `T` itself. */
  function New<V>(heap: Heap<V>, value: V, ty: TypeInfo, current: DomainId, grant: Option<nat>): (r: Result<Allocated<V>>)
    requires grant.Some? ==> grant.value !in heap.slots
    ensures r.Ok? <==> heap.initialized && grant.Some?
    ensures r.Ok? ==> && r.value.handle.addr in r.value.heap.slots
                      && r.value.heap.slots[r.value.handle.addr].layout == Layout(ty.size, ty.align)
  {
    NewWithLayout(heap, value, ty, Layout(ty.size, ty.align), current, grant)
  }

  /** `RRef::new_aligned`: the size of `T` with the caller's alignment, unchecked. */
  function NewAligned<V>(heap: Heap<V>, value: V, ty: TypeInfo, align: nat, current: DomainId,
                         grant: Option<nat>): (r: Result<Allocated<V>>)
    requires grant.Some? ==> grant.value !in heap.slots
    ensures r.Ok? <==> heap.initialized && grant.Some?
    ensures r.Ok? ==> && r.value.handle.addr in r.value.heap.slots
                      && r.value.heap.slots[r.value.handle.addr].layout == Layout(ty.size, align)
  {
    NewWithLayout(heap, value, ty, Layout(ty.size, align), current, grant)
  }

  /** `move_to`: rewrite the owner cell in place. */
  function MoveTo<V>(heap: Heap<V>, h: RRef, newOwner: DomainId): (r: Heap<V>)
    requires h.addr in heap.slots
    ensures r.slots.Keys == heap.slots.Keys
    ensures r.slots[h.addr] == heap.slots[h.addr].(owner := newOwner)
    ensures r.slots - {h.addr} == heap.slots - {h.addr}
    ensures r.initialized == heap.initialized
  {
    heap.(slots := heap.slots[h.addr := heap.slots[h.addr].(owner := newOwner)])
  }

  /** `deref`: the stored value. Writing back what was read changes nothing. */
  function Deref<V>(heap: Heap<V>, h: RRef): (r: V)
    requires h.addr in heap.slots
    ensures DerefMut(heap, h, r) == heap
  {
    heap.slots[h.addr].value
  }

  /** A write through `deref_mut`: the same slot, new value, other cells kept. */
  function DerefMut<V>(heap: Heap<V>, h: RRef, v: V): (r: Heap<V>)
    requires h.addr in heap.slots
    ensures r.slots.Keys == heap.slots.Keys
    ensures r.slots[h.addr] == heap.slots[h.addr].(value := v)
    ensures r.slots - {h.addr} == heap.slots - {h.addr}
  {
    heap.(slots := heap.slots[h.addr := heap.slots[h.addr].(value := v)])
  }

  /** `drop`: the slot goes back to the heap. */
  function Drop<V>(heap: Heap<V>, h: RRef): (r: Heap<V>)
    requires h.addr in heap.slots
    ensures r.slots.Keys == heap.slots.Keys - {h.addr}
    ensures forall a :: a in r.slots ==> r.slots[a] == heap.slots[a]
  {
    heap.(slots := heap.slots - {h.addr})
  }

  /** Allocating and then dropping leaves the heap's live slots as they were. */
  lemma NewThenDrop<V>(heap: Heap<V>, value: V, ty: TypeInfo, current: DomainId, grant: Option<nat>)
    requires grant.Some? ==> grant.value !in heap.slots
    requires New(heap, value, ty, current, grant).Ok?
    ensures var a := New(heap, value, ty, current, grant).value;
            Drop(a.heap, a.handle).slots == heap.slots
  {
    var a := New(heap, value, ty, current, grant).value;
    assert Drop(a.heap, a.handle).slots == a.heap.slots - {a.handle.addr};
  }

  /** Transferring ownership keeps the payload readable and unchanged. */
  lemma MoveKeepsPayload<V>(heap: Heap<V>, h: RRef, d: DomainId)
    requires h.addr in heap.slots
    ensures Deref(MoveTo(heap, h, d), h) == Deref(heap, h)
    ensures MoveTo(heap, h, d).slots[h.addr].owner == d
  {
  }

  /** A value written through `deref_mut` is what `deref` reads back. */
  lemma WriteThenRead<V>(heap: Heap<V>, h: RRef, v: V)
    requires h.addr in heap.slots
    ensures Deref(DerefMut(heap, h, v), h) == v
  {
  }

  /** A fresh reference belongs to the allocating domain until it is moved. */
  lemma NewThenMove<V>(heap: Heap<V>, value: V, ty: TypeInfo, current: DomainId, d: DomainId, grant: Option<nat>)
    requires grant.Some? ==> grant.value !in heap.slots
    requires New(heap, value, ty, current, grant).Ok?
    ensures var a := New(heap, value, ty, current, grant).value;
            && a.heap.slots[a.handle.addr].owner == current
            && MoveTo(a.heap, a.handle, d).slots[a.handle.addr]
               == Slot(d, 0, value, ty.typeId, Layout(ty.size, ty.align))
  {
  }
}
