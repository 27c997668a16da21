/** page_alloc_kmap_linear of memory.c: a block for the kernel itself, mapped at its linear
    address and cleared. */
module LinearPages {
  import opened Dyadic
  import opened Partition
  import opened BuddyMem
  import opened BuddyTheorems
  import opened PageAllocator
  import opened PageTables
  import opened PageByPage
  import opened KernelMap
  import opened UserPages

  /** Frames laid out; the master directory in order. */
  ghost predicate LinearOk(part: Part, top: nat, m: Words, master: nat) {
    FramesLaid(part, top, m, master) && NamesTables(m, master, master)
  }

  /** How a call ends: no block, the address of its block, or, in the model, before it would clear a
      block that reaches a frame without a linear address; the code has no such test. */
  datatype Linear = NoBlock | LinearAt(addr: nat) | NoLinear(pfn: nat)

  /** Memory m with the words of n frames from p on cleared. */
  ghost predicate Cleared(m: Words, m': Words, p: nat, n: nat) {
    |m'| == |m| && forall w: nat {:trigger m'[w]} :: w < |m| ==> m'[w] == if p <= w / SLOTS < p + n then ZERO else m[w]
  }

  /** The block (p, k) is mapped at its linear address in the master directory, and clear. */
  ghost predicate MappedClear(m: Words, built: Words, m': Words, master: nat, p: nat, k: nat) {
    && KernelMapped(m, built, KernelRange(master, master, KVA + p, Pow2(k)), p, PRESENT + WRITE, Pow2(k))
    && Cleared(built, m', p, Pow2(k))
  }

  /** The frames of a block are managed frames. */
  lemma BlockManaged(w: World, p: nat, k: nat, f: nat)
    requires Good(w) && Has(w.part, p, k, Allocated) && p <= f < p + Pow2(k)
    ensures f in w.part
  {
    assert FitsAt(w.part, p);
    BlockIsInterval(f, p, k);
  }

  lemma LinearBlock(w: World, w': World, p: nat, k: nat)
    requires Good(w) && Alloc(w, k) == (Some(p), w')
    ensures Good(w') && w'.part.Keys == w.part.Keys && w'.last == w.last && p in w.part && Has(w'.part, p, k, Allocated)
    ensures forall f: nat :: p <= f < p + Pow2(k) ==> f in w.part
  {
    hide Good, Alloc, SomeFreeRun, Pow2, Aligned;
    AllocExact(w, k);
    SelfInBlock(w.part, p, k);
    forall f: nat | p <= f < p + Pow2(k) ensures f in w.part { BlockManaged(w', p, k, f); }
  }

  lemma SelfInBlock(part: Part, p: nat, k: nat)
    requires FreeRun(part, p, k)
    ensures InBlock(p, p, k) && p in part
  {
  }

  lemma BlockMappable(part: Part, top: nat, m: Words, master: nat, p: nat, n: nat)
    requires LinearOk(part, top, m, master) && n > 0 && forall f: nat :: p <= f < p + n ==> f in part
    requires HasLinear(p + n - 1)
    ensures p + n <= top + 1 < KVA && KernelReady(m, master, master, KVA + p, n) && Word(p + n, 0) <= |m|
  {
    assert p + n - 1 in part;
  }

  /** The mapping reaches every page of the block at its linear address. */
  lemma LinearBuilt(m: Words, built: Words, master: nat, p: nat, n: nat, i: nat)
    requires KernelReady(m, master, master, KVA + p, n) && p + n < KVA && i < n
    requires KernelMapped(m, built, KernelRange(master, master, KVA + p, n), p, PRESENT + WRITE, n)
    ensures Translate(built, master, KVA + p + i) == Some(Entry(p + i, PRESENT + WRITE))
    ensures Pde(built, master, KVA + p + i).frame == KernelTable(master, Slot(KVA + p + i))
  {
    hide KernelReady, KernelMapped, KernelRange;
    var v, r := KVA + p + i, KernelRange(master, master, KVA + p, n);
    KernelMapTranslates(m, built, master, master, r, p, PRESENT + WRITE, v);
    MapKeepsReady(m, built, master, master, r, p, PRESENT + WRITE);
    var pde := PdeAfter(Pde(m, master, v), KernelTable(master, Slot(v)), KERNEL_PDE);
    assert 0 in pde.flags && 1 in pde.flags && 0 !in ZERO.flags;
    assert (PRESENT + WRITE) - (RIGHTS - pde.flags) == PRESENT + WRITE;
    NamedTable(built, master, KVA + p, n, v);
  }

  lemma NamedTable(m: Words, master: nat, first: nat, n: nat, v: nat)
    requires KernelReady(m, master, master, first, n) && KVA <= v < FRAMES && Pde(m, master, v) != ZERO
    ensures Pde(m, master, v).frame == KernelTable(master, Slot(v))
  {
    assert Word(master, Slot(v)) < |m|;
  }

  /** Clearing frames that are neither the directory nor the table moves no translation. */
  lemma ClearedTranslates(m: Words, m': Words, master: nat, p: nat, n: nat, v: nat)
    requires Cleared(m, m', p, n) && v < FRAMES && !(p <= master < p + n) && !(p <= Pde(m, master, v).frame < p + n)
    ensures Translate(m', master, v) == Translate(m, master, v)
  {
    assert Word(master, Slot(v)) / SLOTS == master;
    assert Word(Pde(m, master, v).frame, v % SLOTS) / SLOTS == Pde(m, master, v).frame;
  }

  /** Every page of the block is then reached through the master directory at its linear address,
      present and writable, and every word of it is clear. */
  lemma LinearTranslates(part: Part, top: nat, m: Words, built: Words, m': Words, master: nat, p: nat, k: nat, i: nat,
                         x: nat)
    requires LinearOk(part, top, m, master) && forall f: nat :: p <= f < p + Pow2(k) ==> f in part
    requires MappedClear(m, built, m', master, p, k) && i < Pow2(k) && x < SLOTS && HasLinear(p + Pow2(k) - 1)
    ensures Translate(m', master, 0x8_0000 + p + i) == Some(Entry(p + i, {0, 1}))
    ensures At(m', Word(p + i, x)) == ZERO
  {
    hide KernelMapped, KernelReady, NamesTables, Pow2, Translate;
    assert PRESENT + WRITE == {0, 1};
    var v := KVA + p + i;
    BlockMappable(part, top, m, master, p, Pow2(k));
    LinearBuilt(m, built, master, p, Pow2(k), i);
    var t := KernelTable(master, Slot(v));
    assert KernelFrame(master, top, master) && KernelFrame(master, top, t);
    ClearedTranslates(built, m', master, p, Pow2(k), v);
    assert Word(p + i, x) / SLOTS == p + i;
  }

  class LinearPages {
    const allocator: KernelPages
    const kernel: KernelTables

    constructor (allocator: KernelPages, kernel: KernelTables)
      ensures this.allocator == allocator && this.kernel == kernel
    {
      this.allocator, this.kernel := allocator, kernel;
    }

    ghost function World(): World
      reads allocator, allocator.pages, allocator.counts, allocator.free, allocator.free.node
    {
      allocator.AsWorld()
    }

    /** page_alloc_kmap_linear */
    method PageAllocKmapLinear(cpu: nat, order: nat) returns (got: Linear, ghost built: Words)
      requires allocator.Valid() && cpu < CPUS
      requires LinearOk(allocator.part, Top(allocator.part.Keys), kernel.Memory(), kernel.master)
      modifies allocator.pages, allocator.counts, allocator.free`lists, allocator.free.node, allocator`part,
        kernel.paging.mem
      ensures allocator.Valid() && World() == Alloc(old(World()), order).1
      ensures got.NoBlock? <==> Alloc(old(World()), order).0.None?
      ensures !got.LinearAt? ==> kernel.Memory() == old(kernel.Memory())
      ensures !got.NoBlock? ==>
        var p := Alloc(old(World()), order).0.value;
        if HasLinear(p + Pow2(order) - 1) then
          && got == LinearAt((KVA + p) * PAGE_SIZE)
          && MappedClear(old(kernel.Memory()), built, kernel.Memory(), kernel.master, p, order)
        else got == NoLinear(p)
    {
      hide Alloc, MappedClear, LinearOk, Top, Pow2, KernelPages.Valid;
      ghost var part := allocator.part;
      built := kernel.Memory();
      var page := TakeBlock(order);
      if page.None? {
        return NoBlock, built;
      }
      got, built := MapBlock(part, Top(part.Keys), cpu, page.value, order);
    }

    /** The block, of managed frames. */
    method TakeBlock(order: nat) returns (page: Option<nat>)
      requires allocator.Valid()
      modifies allocator.pages, allocator.counts, allocator.free`lists, allocator.free.node, allocator`part
      ensures allocator.Valid() && (page, World()) == Alloc(old(World()), order)
      ensures page.Some? ==> forall f: nat :: page.value <= f < page.value + Pow2(order) ==> f in old(allocator.part)
    {
      hide Good, Alloc, Pow2, Has, KernelPages.Valid;
      ghost var w := World();
      ValidGood();
      page := allocator.PageAlloc(order);
      if page.Some? { LinearBlock(w, World(), page.value, order); }
    }

    /** What the function does with its block. */
    method MapBlock(ghost part: Part, ghost top: nat, cpu: nat, p: nat, order: nat)
      returns (got: Linear, ghost built: Words)
      requires cpu < CPUS && LinearOk(part, top, kernel.Memory(), kernel.master)
      requires forall f: nat :: p <= f < p + Pow2(order) ==> f in part
      modifies kernel.paging.mem
      ensures if HasLinear(p + Pow2(order) - 1) then
          && got == LinearAt((KVA + p) * PAGE_SIZE)
          && MappedClear(old(kernel.Memory()), built, kernel.Memory(), kernel.master, p, order)
        else got == NoLinear(p) && kernel.Memory() == old(kernel.Memory())
    {
      hide KernelMapped, LinearOk, Cleared, KernelRange, Pow2;
      built := kernel.Memory();
      if !HasLinear(p + Pow2(order) - 1) {
        return NoLinear(p), built;
      }
      built := MapAndClear(part, top, cpu, p, Pow2(order));
      got := LinearAt((KVA + p) * PAGE_SIZE);
    }

    lemma ValidGood()
      requires allocator.Valid()
      ensures Good(World())
    {
    }

    /** The mapping at the linear address, then the clearing. */
    method MapAndClear(ghost part: Part, ghost top: nat, cpu: nat, p: nat, n: nat) returns (ghost built: Words)
      requires cpu < CPUS && n > 0 && LinearOk(part, top, kernel.Memory(), kernel.master) && HasLinear(p + n - 1)
      requires forall f: nat :: p <= f < p + n ==> f in part
      modifies kernel.paging.mem
      ensures KernelMapped(old(kernel.Memory()), built, KernelRange(kernel.master, kernel.master, KVA + p, n), p,
        PRESENT + WRITE, n)
      ensures Cleared(built, kernel.Memory(), p, n)
    {
      hide KernelMapped, LinearOk, KernelReady, Cleared, NoWrap, First, Covered, Refused, KernelRange;
      BlockMappable(part, top, kernel.Memory(), kernel.master, p, n);
      WholeFrames(p, n);
      kernel.MapKernel(cpu, (KVA + p) * PAGE_SIZE, p * PAGE_SIZE, PAGE_SIZE * n, PRESENT + WRITE,
        MapFlags(false, false));
      assert PRESENT + WRITE + PRESENT == PRESENT + WRITE;
      built := kernel.Memory();
      ClearFrames(p, n);
    }

    /** memset over the block, word by word. */
    method ClearFrames(p: nat, n: nat)
      requires Word(p + n, 0) <= kernel.paging.mem.Length
      modifies kernel.paging.mem
      ensures Cleared(old(kernel.Memory()), kernel.Memory(), p, n)
    {
      var mem, w := kernel.paging.mem, Word(p, 0);
      while w < Word(p + n, 0)
        invariant Word(p, 0) <= w <= Word(p + n, 0)
        invariant forall x: nat {:trigger mem[x]} ::
          x < mem.Length ==> mem[x] == if Word(p, 0) <= x < w then ZERO else old(mem[x])
      {
        mem[w] := ZERO;
        w := w + 1;
      }
      assert forall x: nat :: p <= x / SLOTS < p + n <==> Word(p, 0) <= x < Word(p + n, 0);
    }
  }

  /** The linear address range of n frames from p on, in pages. */
  lemma WholeFrames(p: nat, n: nat)
    requires n > 0 && p + n < KVA
    ensures NoWrap((KVA + p) * PAGE_SIZE, PAGE_SIZE * n) && First((KVA + p) * PAGE_SIZE) == KVA + p
    ensures Covered((KVA + p) * PAGE_SIZE, PAGE_SIZE * n) == n && (p * PAGE_SIZE) / PAGE_SIZE == p
    ensures !Refused((KVA + p) * PAGE_SIZE, MapFlags(false, false))
  {
    assert PAGE_SIZE * n == n * PAGE_SIZE;
  }
}
