/** CallableMarshaller: converts a Callable between its managed form and a
    native callable buffer or a native variant buffer.  The heap is threaded
    through each operation as a value: operations that allocate or free return
    the heap after the call, read operations take the heap and return only the
    Callable they build, so they cannot change it. */
module CallableMarshaller {
  import opened Callables
  import opened NativeMemory

  /** Writes `value`'s native form into the caller's buffer `destination`,
      which need not come from `AllocHGlobal`; no block is allocated or
      released and no other block changes. */
  function WriteUnmanaged(iface: Interface, m: Memory, destination: Address, value: Callable): (r: Memory)
    requires destination != Null && destination in m.cells
    ensures Valid(m) ==> Valid(r)
    ensures r.cells.Keys == m.cells.Keys
    ensures r.cells[destination] == CallableCell(NativeValue(iface, value))
    ensures forall q :: q in m.cells && q != destination ==> r.cells[q] == m.cells[q]
    ensures r.log == m.log && r.next == m.next
  {
    m.(cells := m.cells[destination := CallableCell(NativeValue(iface, value))])
  }

  /** Allocates a fresh block and writes `value`'s native form into it; the
      caller owns the block. */
  function ConvertToUnmanaged(iface: Interface, m: Memory, value: Callable): (a: Allocation)
    requires Valid(m)
    ensures Valid(a.memory)
    ensures a.ptr != Null && a.ptr !in m.cells
    ensures Allocated(a.ptr) !in m.log
    ensures a.ptr in Live(a.memory.log)
    ensures a.memory.cells.Keys == m.cells.Keys + {a.ptr}
    ensures a.memory.cells[a.ptr] == CallableCell(NativeValue(iface, value))
    ensures forall q :: q in m.cells ==> a.memory.cells[q] == m.cells[q]
    ensures a.memory.log == m.log + [Allocated(a.ptr)]
  {
    var block := AllocHGlobal(m);
    Allocation(WriteUnmanaged(iface, block.memory, block.ptr, value), block.ptr)
  }

  /** The managed Callable for a native callable: when the engine reports user
      data for it under this library's identity, that user data is a handle
      token and the result wraps the closure the handle pins; otherwise the
      native callable is copied by value and the handle table is not used. */
  function FromNative(iface: Interface, handles: HandleTable, c: NativeCallable): (r: Callable)
    requires Resolvable(iface, handles, c)
    ensures r.Managed? <==> IsOwnCustom(iface, c)
    ensures r.Managed? ==> r.target == handles[OwnUserData(iface, c)]
    ensures r.Native? ==> r.value == c
  {
    var userData := OwnUserData(iface, c);
    if userData != Null then Managed(handles[userData]) else Native(c)
  }

  /** The callable buffer at `value` must hold a callable, and the pointer
      must not be null. */
  predicate HoldsCallable(m: Memory, value: Address) {
    value != Null && value in m.cells && m.cells[value].CallableCell?
  }

  /** Reads the native callable at `value` back into a managed Callable. */
  function ConvertFromUnmanaged(iface: Interface, handles: HandleTable, m: Memory, value: Address): (r: Callable)
    requires HoldsCallable(m, value)
    requires Resolvable(iface, handles, m.cells[value].callable)
    ensures var c := m.cells[value].callable;
            && (r.Managed? <==> IsOwnCustom(iface, c))
            && (r.Managed? ==> r.target == handles[OwnUserData(iface, c)])
            && (r.Native? ==> r.value == c)
  {
    FromNative(iface, handles, m.cells[value].callable)
  }

  /** Frees a block handed out by `ConvertToUnmanaged`; a null pointer is
      ignored. */
  function Free(m: Memory, value: Address): (r: Memory)
    requires Valid(m)
    requires value == Null || value in Live(m.log)
    ensures Valid(r)
    ensures value == Null ==> r == m
    ensures value != Null ==> r.cells.Keys == m.cells.Keys - {value}
    ensures forall q :: q in m.cells && q != value ==> r.cells[q] == m.cells[q]
    ensures value != Null ==> r.log == m.log + [Released(value)]
    ensures value !in Live(r.log)
    ensures r.next == m.next
  {
    FreeHGlobal(m, value)
  }

  /** Allocates a fresh block holding a variant that takes ownership of
      `value`'s native form. */
  function ConvertToVariant(iface: Interface, m: Memory, value: Callable): (a: Allocation)
    requires Valid(m)
    ensures Valid(a.memory)
    ensures a.ptr != Null && a.ptr !in m.cells
    ensures Allocated(a.ptr) !in m.log
    ensures a.ptr in Live(a.memory.log)
    ensures a.memory.cells.Keys == m.cells.Keys + {a.ptr}
    ensures a.memory.cells[a.ptr] == VariantCell(CallableVariant(NativeValue(iface, value)))
    ensures forall q :: q in m.cells ==> a.memory.cells[q] == m.cells[q]
    ensures a.memory.log == m.log + [Allocated(a.ptr)]
  {
    var block := AllocHGlobal(m);
    var variant := CreateFromCallableTakingOwnership(NativeValue(iface, value));
    Allocation(block.memory.(cells := block.memory.cells[block.ptr := VariantCell(variant)]), block.ptr)
  }

  /** The variant buffer at `value` must hold a variant, and the pointer must
      not be null. */
  predicate HoldsVariant(m: Memory, value: Address) {
    value != Null && value in m.cells && m.cells[value].VariantCell?
  }

  /** Reads a managed Callable out of the variant at `value`, through the
      callable the variant holds or converts to. */
  function ConvertFromVariant(iface: Interface, handles: HandleTable, m: Memory, value: Address): (r: Callable)
    requires HoldsVariant(m, value)
    requires Resolvable(iface, handles, GetOrConvertToCallable(iface, m.cells[value].variant))
    ensures var c := GetOrConvertToCallable(iface, m.cells[value].variant);
            && (r.Managed? <==> IsOwnCustom(iface, c))
            && (r.Managed? ==> r.target == handles[OwnUserData(iface, c)])
            && (r.Native? ==> r.value == c)
  {
    FromNative(iface, handles, GetOrConvertToCallable(iface, m.cells[value].variant))
  }

  /** Destroys the variant at `value`, then frees its block, which must have
      come from `ConvertToVariant`. */
  function FreeVariant(m: Memory, value: Address): (r: Memory)
    requires Valid(m)
    requires HoldsVariant(m, value) && value in Live(m.log)
    ensures Valid(r)
    ensures r.cells.Keys == m.cells.Keys - {value}
    ensures forall q :: q in m.cells && q != value ==> r.cells[q] == m.cells[q]
    ensures r.log == m.log + [Destroyed(m.cells[value].variant), Released(value)]
    ensures value !in Live(r.log)
    ensures r.next == m.next
  {
    FreeHGlobal(DestroyVariant(m, value), value)
  }

  // ----- Properties relating the operations -----

  /** Reading a callable back depends only on the block it is read from. */
  lemma FromUnmanagedReadsOnlyItsBlock(iface: Interface, handles: HandleTable, m1: Memory, m2: Memory, value: Address)
    requires HoldsCallable(m1, value) && HoldsCallable(m2, value)
    requires m1.cells[value] == m2.cells[value]
    requires Resolvable(iface, handles, m1.cells[value].callable)
    ensures ConvertFromUnmanaged(iface, handles, m1, value) == ConvertFromUnmanaged(iface, handles, m2, value)
  {
  }

  /** A callable with no user data under this library's identity reads back
      as a copy of itself, whatever the handle table holds.  Nothing is
      assumed about the user data other library identities see, so a foreign
      tag is never resolved through this library's handles. */
  lemma UntaggedIgnoresHandles(iface: Interface, handles1: HandleTable, handles2: HandleTable, m: Memory, value: Address)
    requires HoldsCallable(m, value)
    requires !IsOwnCustom(iface, m.cells[value].callable)
    ensures ConvertFromUnmanaged(iface, handles1, m, value) == Native(m.cells[value].callable)
    ensures ConvertFromUnmanaged(iface, handles2, m, value) == ConvertFromUnmanaged(iface, handles1, m, value)
  {
  }

  /** Reading from a variant is reading from a callable buffer holding what
      the variant holds or converts to. */
  lemma FromVariantIsFromUnmanaged(iface: Interface, handles: HandleTable, m: Memory, value: Address,
                                   scratch: Memory, buffer: Address)
    requires HoldsVariant(m, value)
    requires Resolvable(iface, handles, GetOrConvertToCallable(iface, m.cells[value].variant))
    requires HoldsCallable(scratch, buffer)
    requires scratch.cells[buffer].callable == GetOrConvertToCallable(iface, m.cells[value].variant)
    ensures ConvertFromVariant(iface, handles, m, value) == ConvertFromUnmanaged(iface, handles, scratch, buffer)
  {
  }

  /** Round trip through a callable buffer: a Callable whose native form reads
      back to itself comes back unchanged, and freeing the buffer afterwards
      restores every other block. */
  lemma UnmanagedRoundTrip(iface: Interface, handles: HandleTable, m: Memory, value: Callable)
    requires Valid(m)
    requires RoundTrips(iface, handles, value)
    ensures var a := ConvertToUnmanaged(iface, m, value);
            && ConvertFromUnmanaged(iface, handles, a.memory, a.ptr) == value
            && Free(a.memory, a.ptr).cells == m.cells
  {
  }

  /** Round trip through a variant buffer, then destruction of the variant:
      the Callable comes back unchanged and every other block is as before. */
  lemma VariantRoundTrip(iface: Interface, handles: HandleTable, m: Memory, value: Callable)
    requires Valid(m)
    requires RoundTrips(iface, handles, value)
    ensures var a := ConvertToVariant(iface, m, value);
            && ConvertFromVariant(iface, handles, a.memory, a.ptr) == value
            && FreeVariant(a.memory, a.ptr).cells == m.cells
  {
  }

  /** A native callable carrying this library's tag does not read back as
      itself: it reads back as the closure its handle pins.  The round trips
      above therefore need their `RoundTrips` condition. */
  lemma TaggedNativeReadsBackManaged(iface: Interface, handles: HandleTable, m: Memory, c: NativeCallable)
    requires Valid(m)
    requires IsOwnCustom(iface, c) && OwnUserData(iface, c) in handles
    ensures var a := ConvertToUnmanaged(iface, m, Native(c));
            ConvertFromUnmanaged(iface, handles, a.memory, a.ptr) == Managed(handles[OwnUserData(iface, c)])
  {
  }

  /** The native form of a Callable reads back as that Callable, whenever it
      round-trips: the value side of every conversion above. */
  lemma NativeValueReadsBack(iface: Interface, handles: HandleTable, value: Callable)
    requires RoundTrips(iface, handles, value)
    ensures FromNative(iface, handles, NativeValue(iface, value)) == value
  {
  }

  /** Writing into a buffer the caller owns, outside the allocator, keeps the
      heap well-formed; reading it back gives the value, and the buffer is
      untouched by a later `ConvertToUnmanaged` and `Free` on the same heap. */
  lemma CallerBufferRoundTrip(iface: Interface, handles: HandleTable, m: Memory, buffer: Address,
                              value: Callable, other: Callable)
    requires Valid(m)
    requires buffer != Null && buffer in m.cells && buffer !in Live(m.log)
    requires RoundTrips(iface, handles, value)
    ensures var w := WriteUnmanaged(iface, m, buffer, value);
            && Valid(w)
            && ConvertFromUnmanaged(iface, handles, w, buffer) == value
            && var a := ConvertToUnmanaged(iface, w, other);
               && a.ptr != buffer
               && Free(a.memory, a.ptr).cells[buffer] == CallableCell(NativeValue(iface, value))
  {
  }
}
