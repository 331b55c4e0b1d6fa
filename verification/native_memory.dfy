/** The unmanaged heap as the marshaller uses it: `Marshal.AllocHGlobal`,
    `Marshal.FreeHGlobal` and the variant destructor, over an abstract map
    from address to cell.  A log records every allocation, destruction and
    release in order, so that the order of effects inside one call is
    observable. */
module NativeMemory {
  import opened Callables

  /** The contents of one allocated block. */
  datatype Cell =
    | Uninitialized
    | CallableCell(callable: NativeCallable)
    | VariantCell(variant: NativeVariant)

  /** One effect on the heap. */
  datatype Effect =
    | Allocated(block: Address)
    | Destroyed(variant: NativeVariant)
    | Released(block: Address)

  /** The heap: the live blocks, the next address the allocator hands out, and
      the history of effects. */
  datatype Memory = Memory(cells: map<Address, Cell>, next: Address, log: seq<Effect>)

  /** The result of an allocating call: the heap after it, and the new block. */
  datatype Allocation = Allocation(memory: Memory, ptr: Address)

  /** The blocks live after the effects of `log`, applied in order. */
  function Live(log: seq<Effect>): set<Address>
    decreases |log|
  {
    if |log| == 0 then {}
    else
      Apply(Live(log[..|log| - 1]), log[|log| - 1])
  }

  /** The live blocks after one effect. */
  function Apply(live: set<Address>, e: Effect): set<Address> {
    match e
    case Allocated(p) => live + {p}
    case Destroyed(_) => live
    case Released(p) => live - {p}
  }

  /** The heap's invariant: null is never a block, every address in use or
      ever handed out lies below `next`, and every block the log allocated and
      has not released is present.  Other present blocks are buffers the
      caller owns (on its stack, say), which the allocator never hands out
      and which must not be freed. */
  ghost predicate Valid(m: Memory) {
    && m.next != Null
    && Null !in m.cells
    && (forall p :: p in m.cells ==> p < m.next)
    && (forall i :: 0 <= i < |m.log| && m.log[i].Allocated? ==> m.log[i].block < m.next)
    && Live(m.log) <= m.cells.Keys
  }

  /** The heap before anything is allocated. */
  function Empty(): (m: Memory)
    ensures Valid(m)
    ensures m.cells == map[]
  {
    Memory(map[], 1, [])
  }

  /** Appending an effect to the log applies it to the live blocks. */
  lemma LiveAppend(log: seq<Effect>, e: Effect)
    ensures Live(log + [e]) == Apply(Live(log), e)
  {
  }

  /** `Marshal.AllocHGlobal`: a block never handed out before, whose contents
      are unspecified; no other block changes. */
  function AllocHGlobal(m: Memory): (a: Allocation)
    requires Valid(m)
    ensures Valid(a.memory)
    ensures a.ptr != Null && a.ptr !in m.cells
    ensures Allocated(a.ptr) !in m.log
    ensures a.ptr in Live(a.memory.log)
    ensures Live(a.memory.log) == Live(m.log) + {a.ptr}
    ensures a.memory.cells.Keys == m.cells.Keys + {a.ptr}
    ensures a.memory.cells[a.ptr] == Uninitialized
    ensures forall p :: p in m.cells ==> a.memory.cells[p] == m.cells[p]
    ensures a.memory.log == m.log + [Allocated(a.ptr)]
  {
    var p := m.next;
    var m' := Memory(m.cells[p := Uninitialized], p + 1, m.log + [Allocated(p)]);
    LiveAppend(m.log, Allocated(p));
    assert forall i :: 0 <= i < |m.log| ==> m'.log[i] == m.log[i];
    Allocation(m', p)
  }

  /** `Marshal.FreeHGlobal`: releasing null does nothing; releasing a block
      removes exactly that block.  Releasing a block that is not live (already
      released, or never handed out by `AllocHGlobal`) is undefined, which
      callers must not do. */
  function FreeHGlobal(m: Memory, p: Address): (r: Memory)
    requires Valid(m)
    requires p == Null || p in Live(m.log)
    ensures Valid(r)
    ensures p == Null ==> r == m
    ensures p != Null ==> r.cells.Keys == m.cells.Keys - {p}
    ensures forall q :: q in m.cells && q != p ==> r.cells[q] == m.cells[q]
    ensures p != Null ==> r.log == m.log + [Released(p)]
    ensures p !in Live(r.log)
    ensures r.next == m.next
  {
    if p == Null then m
    else
      LiveAppend(m.log, Released(p));
      var r := Memory(m.cells - {p}, m.next, m.log + [Released(p)]);
      assert forall i :: 0 <= i < |m.log| ==> r.log[i] == m.log[i];
      r
  }

  /** `NativeGodotVariant.Dispose` on the variant stored at `p`: the variant's
      destructor runs and the block, still allocated, no longer holds it. */
  function DestroyVariant(m: Memory, p: Address): (r: Memory)
    requires Valid(m)
    requires p in m.cells && m.cells[p].VariantCell?
    ensures Valid(r)
    ensures r.cells.Keys == m.cells.Keys
    ensures r.cells[p] == Uninitialized
    ensures forall q :: q in m.cells && q != p ==> r.cells[q] == m.cells[q]
    ensures r.log == m.log + [Destroyed(m.cells[p].variant)]
    ensures Live(r.log) == Live(m.log)
    ensures r.next == m.next
  {
    var e := Destroyed(m.cells[p].variant);
    LiveAppend(m.log, e);
    var r := Memory(m.cells[p := Uninitialized], m.next, m.log + [e]);
    assert forall i :: 0 <= i < |m.log| ==> r.log[i] == m.log[i];
    r
  }
}
