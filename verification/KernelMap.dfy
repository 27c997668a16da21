/** map_kernel_with_pagetable and unmap_kernel_with_pagetable of page32.c. The frames of the
    master directory, of the CPUs' directories and of the kernel page tables follow each other
    as kernel32.ld lays them out. */
module KernelMap {
  import opened BuddyMem
  import opened PageTables
  import opened PageByPage

  const ADDRESSES: nat := 0x1_0000_0000
  /** KERNEL_VIRT_ADDR in pages, and its directory slot. */
  const KVA: nat := 0x8_0000
  const KSLOT: nat := 512
  const CPUS: nat := 32

  const KERNEL_PDE: Bits := PRESENT + WRITE

  /** The bits of map_flags that choose the directory; MAP_PGD_LOCKED only says who locks. */
  datatype MapFlags = MapFlags(user: bool, local: bool)

  /** GET_CPU_PGDIR, and the directory a kernel mapping goes into. */
  function CpuDir(master: nat, cpu: nat): nat {
    master + 1 + cpu
  }

  function DirOf(master: nat, cpu: nat, flags: MapFlags): nat {
    if flags.local then CpuDir(master, cpu) else master
  }

  /** The kernel page table of slot s: the kernel tables start at _kernel_pg_table_0. */
  function KernelTable(master: nat, s: nat): nat
    requires s >= KSLOT
  {
    master + 1 + CPUS + (s - KSLOT)
  }

  /** A directory, or the kernel table of a slot up to that of the linear address of frame top. */
  predicate KernelFrame(master: nat, top: nat, f: nat) {
    master <= f <= KernelTable(master, Slot(KVA + top))
  }

  /** The word of page v in the kernel tables, seen as one linear array of words. */
  function KernelWord(master: nat, v: nat): nat
    requires v >= KVA
  {
    Word(master + 1 + CPUS, v - KVA)
  }

  /** The pages of the byte range as one range over its kernel tables. */
  function KernelRange(master: nat, dir: nat, first: nat, pages: nat): (r: Range)
    requires first >= KVA
    ensures Spanned(r) == |r.tables| && r.start == first && r.pages == pages && r.dir == dir
  {
    var n := if pages == 0 then 1 else Slot(first + pages - 1) - Slot(first) + 1;
    Range(dir, seq<nat>(n, (i: nat) => KernelTable(master, Slot(first) + i)), first, pages)
  }

  /** Every kernel-half entry of the directory is zero or names the kernel table of its slot. */
  ghost predicate NamesTables(m: Words, master: nat, dir: nat) {
    forall s: nat {:trigger Word(dir, s)} :: KSLOT <= s < SLOTS && Word(dir, s) < |m| ==>
      m[Word(dir, s)] == ZERO || m[Word(dir, s)].frame == KernelTable(master, s)
  }

  ghost predicate KernelReady(m: Words, master: nat, dir: nat, first: nat, pages: nat) {
    && master <= dir <= master + CPUS && KVA <= first < FRAMES && first + pages <= FRAMES
    && InMemory(m, KernelTable(master, Slot(first + (if pages == 0 then 0 else pages - 1))))
    && NamesTables(m, master, dir)
  }

  lemma ReadyToBuild(m: Words, master: nat, dir: nat, first: nat, pages: nat)
    requires KernelReady(m, master, dir, first, pages)
    ensures BuildReady(m, KernelRange(master, dir, first, pages))
  {
    var r := KernelRange(master, dir, first, pages);
    forall i: nat | i < Spanned(r)
      ensures TableFits(m, r, i) && (m[DirWord(r, i)] == ZERO || m[DirWord(r, i)].frame == r.tables[i])
    {
      assert DirWord(r, i) == Word(dir, Slot(first) + i);
    }
  }

  /** How many of the first j pages a call maps: build_pagetable does nothing for the page whose
      end is the top of the address space. */
  function Mapped(r: Range, j: nat): nat {
    if j > 0 && r.start + j == FRAMES then j - 1 else j
  }

  /** The state of the mapping loop after j pages: what one build over the range would have
      written by then. */
  ghost predicate KernelMapped(m: Words, cur: Words, r: Range, phys: nat, pteFlags: Bits, j: nat) {
    && BuildReady(m, r) && j <= r.pages
    && BuiltTo(m, cur, r, phys, KERNEL_PDE, pteFlags, Entered(r, j), Mapped(r, j))
  }

  /** One call of build_pagetable carries the range one page further. */
  lemma NextKernelPage(m: Words, cur: Words, master: nat, dir: nat, r: Range, phys: nat, pteFlags: Bits, j: nat)
    requires KernelReady(m, master, dir, r.start, r.pages) && r == KernelRange(master, dir, r.start, r.pages)
    requires KernelMapped(m, cur, r, phys, pteFlags, j) && j < r.pages
    ensures var v := r.start + j; var t := KernelTable(master, Slot(v));
      && Word(dir, Slot(v)) < |cur| && Word(t, v % SLOTS) < |cur|
      && BuildReady(cur, OnePage(dir, t, v))
      && KernelMapped(m, PageBuilt(cur, dir, t, v, Entry((phys + j) % FRAMES, pteFlags), KERNEL_PDE), r, phys, pteFlags,
        j + 1)
  {
    hide BuiltTo, BuildReady;
    assert Mapped(r, j) == j && 0 in KERNEL_PDE;
    NextPageBuilt(m, cur, r, phys, KERNEL_PDE, pteFlags, j);
    assert TableAt(r, r.start + j) == KernelTable(master, Slot(r.start + j));
  }

  /** The topmost slot is in use if a page in it, other than the topmost page, is to be unmapped. */
  ghost predicate KernelUnmapReady(m: Words, master: nat, dir: nat, first: nat, pages: nat) {
    && KernelReady(m, master, dir, first, pages)
    && (pages > 0 && first + pages > FRAMES - SLOTS && first + 1 < FRAMES ==> At(m, Word(dir, SLOTS - 1)) != ZERO)
  }

  /** What a loop up to page v has unmapped: it does not unmap the topmost page. */
  function Below(v: nat): nat {
    if v < FRAMES then v else FRAMES - 1
  }

  lemma ReadyToUnmap(m: Words, master: nat, dir: nat, first: nat, pages: nat)
    requires KernelUnmapReady(m, master, dir, first, pages)
    ensures TablesAgree(m, KernelRange(master, dir, first, pages))
  {
    var r := KernelRange(master, dir, first, pages);
    forall i: nat | i < Spanned(r)
      ensures TableFits(m, r, i) && (m[DirWord(r, i)] == ZERO || m[DirWord(r, i)].frame == r.tables[i])
    {
      assert DirWord(r, i) == Word(dir, Slot(first) + i);
    }
  }

  /** The directory word and the table of page j, in the unmapping loop. */
  lemma KernelPageSeen(m: Words, cur: Words, master: nat, dir: nat, r: Range, j: nat)
    requires KernelUnmapReady(m, master, dir, r.start, r.pages) && r == KernelRange(master, dir, r.start, r.pages)
    requires TablesAgree(m, r) && UnmappedTo(m, cur, r, r.start + j) && j < r.pages
    ensures var v := r.start + j; var t := KernelTable(master, Slot(v)); var i := Slot(v) - Slot(r.start);
      && i < Spanned(r) <= |r.tables| && r.tables[i] == t && DirWord(r, i) == Word(dir, Slot(v)) < |cur| == |m|
        && t != dir
      && InMemory(cur, dir) && InMemory(cur, t) && cur[Word(dir, Slot(v))] == m[Word(dir, Slot(v))]
      && (m[Word(dir, Slot(v))] == ZERO || m[Word(dir, Slot(v))].frame == t)
      && (FRAMES - SLOTS <= v < FRAMES - 1 ==> m[Word(dir, Slot(v))] != ZERO)
  {
    hide TablesAgree, UnmappedTo;
    var v := r.start + j;
    DirKept(m, cur, r, v, Slot(v) - Slot(r.start));
    assert DirWord(r, Slot(v) - Slot(r.start)) == Word(dir, Slot(v));
  }

  /** One call of unmap_pagetable carries the deletion one page further. */
  lemma NextKernelUnmap(m: Words, cur: Words, master: nat, dir: nat, r: Range, j: nat)
    requires KernelUnmapReady(m, master, dir, r.start, r.pages) && r == KernelRange(master, dir, r.start, r.pages)
    requires TablesAgree(m, r) && UnmappedTo(m, cur, r, r.start + j) && j < r.pages
    ensures var v := r.start + j; var t := KernelTable(master, Slot(v));
      && Word(dir, Slot(v)) < |cur| && Word(t, v % SLOTS) < |cur|
      && UnmapReady(cur, OnePage(dir, t, v))
      && UnmappedTo(m, PageUnmapped(cur, dir, t, v), r, Below(v + 1))
  {
    hide TablesAgree, UnmappedTo, NamesTables, KernelRange, UnmapReady;
    KernelPageSeen(m, cur, master, dir, r, j);
    KernelFits(m, master, dir, r);
    var v := r.start + j;
    var i := Slot(v) - Slot(r.start);
    OnePageUnmapReady(cur, dir, r.tables[i], v);
    if v + 1 < FRAMES {
      if Present(m, r, i) {
        ClearUnmaps(m, cur, r, v, i);
      } else {
        SkipUnmaps(m, cur, r, v, v + 1, i);
      }
    }
  }

  lemma KernelFits(m: Words, master: nat, dir: nat, r: Range)
    requires KernelUnmapReady(m, master, dir, r.start, r.pages) && r == KernelRange(master, dir, r.start, r.pages)
    ensures DirFits(m, r) && r.dir == dir
  {
    assert Spanned(r) == |r.tables|;
  }

  /** A byte range of the kernel half that does not wrap around, and the pages it covers. */
  predicate NoWrap(virt: nat, length: nat) {
    virt < ADDRESSES && virt + length <= ADDRESSES
  }

  function First(virt: nat): nat { virt / PAGE_SIZE }

  function Covered(virt: nat, length: nat): nat {
    (virt + length + (PAGE_SIZE - 1)) / PAGE_SIZE - First(virt)
  }

  /** ALIGN_PAGE(virt + length) in 32 bits, in pages. */
  function EndPage(virt: nat, length: nat): nat {
    ((virt + length + (PAGE_SIZE - 1)) % ADDRESSES) / PAGE_SIZE
  }

  /** The early return: not a kernel address, or a user mapping. */
  predicate Refused(virt: nat, flags: MapFlags) {
    virt < KVA * PAGE_SIZE || flags.user
  }

  /** The pages of a call are those that hold a byte of its range; an empty range that starts
      inside a page covers that page. */
  lemma CoveredIsBytes(master: nat, dir: nat, virt: nat, length: nat, v: nat)
    requires NoWrap(virt, length) && virt >= 0x8000_0000
    ensures length > 0 ==> (InRange(KernelRange(master, dir, First(virt), Covered(virt, length)), v) <==>
      exists b: nat :: virt <= b < virt + length && b / 4096 == v)
    ensures length == 0 ==> (InRange(KernelRange(master, dir, First(virt), Covered(virt, length)), v) <==>
      virt % 4096 != 0 && v == virt / 4096)
  {
    if length > 0 && First(virt) <= v < First(virt) + Covered(virt, length) {
      var b := if v * 4096 < virt then virt else v * 4096;
      assert virt <= b < virt + length && b / 4096 == v;
    }
  }

  /** The linear address of frame f, in 32 bits. */
  function LinearAddress(f: nat): nat {
    ((KVA + f) * PAGE_SIZE) % ADDRESSES
  }

  /** Frame f has a linear address that the kernel's mapping loop maps. */
  predicate HasLinear(f: nat) {
    f + 1 < KVA
  }

  /** From 2 GB on the linear address wraps around to the user half, where the mapping is refused,
      and the frame just below has the topmost page, which the loop does not map. */
  lemma HasLinearIff(f: nat, local: bool)
    requires f < FRAMES
    ensures HasLinear(f) <==> !Refused(LinearAddress(f), MapFlags(false, local)) && First(LinearAddress(f)) + 1 < FRAMES
    ensures f >= KVA ==> LinearAddress(f) == (f - KVA) * PAGE_SIZE
    ensures f < KVA ==> LinearAddress(f) == (KVA + f) * PAGE_SIZE
  {
  }

  /** The kernel's page tables, in the paging memory. */
  class KernelTables {
    const paging: PageMemory
    const master: nat

    constructor (paging: PageMemory, master: nat)
      ensures this.paging == paging && this.master == master
    {
      this.paging, this.master := paging, master;
    }

    ghost function Memory(): Words
      reads paging.mem
    {
      paging.mem[..]
    }

    /** map_kernel_with_pagetable on CPU cpu: page by page, with a running PTE index. */
    method MapKernel(cpu: nat, virt: nat, phys: nat, length: nat, pteFlags: Bits, flags: MapFlags)
      requires NoWrap(virt, length) && cpu < CPUS
      requires !Refused(virt, flags) ==>
        KernelReady(Memory(), master, DirOf(master, cpu, flags), First(virt), Covered(virt, length))
      modifies paging.mem
      ensures virt < 0x8000_0000 || flags.user ==> Memory() == old(Memory())
      ensures !Refused(virt, flags) ==>
        KernelMapped(old(Memory()), Memory(),
          KernelRange(master, DirOf(master, cpu, flags), First(virt), Covered(virt, length)),
                     phys / PAGE_SIZE, pteFlags + PRESENT, Covered(virt, length))
    {
      if virt < KVA * PAGE_SIZE || flags.user {
        return;
      }
      MapPages(DirOf(master, cpu, flags), First(virt), EndPage(virt, length), phys / PAGE_SIZE, pteFlags + PRESENT,
        Covered(virt, length));
    }

    /** The mapping loop; end is a page number of 20 bits. */
    method MapPages(dir: nat, first: nat, end: nat, phys: nat, pteFlags: Bits, ghost pages: nat)
      requires KernelReady(Memory(), master, dir, first, pages) && end == (first + pages) % FRAMES
      modifies paging.mem
      ensures KernelMapped(old(Memory()), Memory(), KernelRange(master, dir, first, pages), phys, pteFlags, pages)
    {
      hide KernelMapped, BuildReady, BuiltTo, NamesTables, KernelRange, KernelWord;
      ghost var m := Memory();
      var v, frame := first, phys;
      FirstPte(master, first);
      var pte := Word(master + 1 + CPUS + (Slot(v) - KSLOT), v % SLOTS);
      ghost var j: nat, r := 0, KernelRange(master, dir, first, pages);
      StartKernelMap(m, master, dir, r, phys, pteFlags);
      AtEnd(first, pages, 0);
      while v != end
        invariant j <= pages && v == (first + j) % FRAMES && (v == end <==> j == pages)
          && KernelMapped(m, Memory(), r, phys, pteFlags, j)
        invariant pte == KernelWord(master, first + j) && frame == phys + j
        decreases pages - j
      {
        RunningPte(master, first, j);
        MapOne(m, dir, r, phys, j, v, pte, frame, pteFlags);
        v, frame, pte := (v + 1) % FRAMES, frame + 1, pte + 1;
        j := j + 1;
        AtEnd(first, pages, j);
      }
    }

    /** One round: the table is the frame that holds the running PTE. */
    method MapOne(ghost m: Words, dir: nat, ghost r: Range, ghost phys: nat, ghost j: nat, v: nat, pte: nat, frame: nat,
                  pteFlags: Bits)
      requires KernelReady(m, master, dir, r.start, r.pages) && r == KernelRange(master, dir, r.start, r.pages)
      requires j < r.pages
      requires KernelMapped(m, Memory(), r, phys, pteFlags, j)
      requires v == r.start + j && pte == KernelWord(master, v) && frame == phys + j
      modifies paging.mem
      ensures KernelMapped(m, Memory(), r, phys, pteFlags, j + 1)
    {
      hide KernelMapped, BuildReady, BuiltTo, NamesTables, PageBuilt, KernelRange;
      NextKernelPage(m, Memory(), master, dir, r, phys, pteFlags, j);
      ghost var cur := Memory();
      paging.BuildPagetable(OnePage(dir, pte / SLOTS, v), frame, KERNEL_PDE, pteFlags);
      assert pte / SLOTS == KernelTable(master, Slot(v));
      OnePageBuilds(cur, Memory(), dir, pte / SLOTS, v, frame, KERNEL_PDE, pteFlags);
    }

    /** unmap_kernel_with_pagetable on CPU cpu. */
    method UnmapKernel(cpu: nat, virt: nat, length: nat, flags: MapFlags)
      requires NoWrap(virt, length) && cpu < CPUS
      requires !Refused(virt, flags) ==>
        KernelUnmapReady(Memory(), master, DirOf(master, cpu, flags), First(virt), Covered(virt, length))
      modifies paging.mem
      ensures virt < 0x8000_0000 || flags.user ==> Memory() == old(Memory())
      ensures !Refused(virt, flags) ==>
        var r := KernelRange(master, DirOf(master, cpu, flags), First(virt), Covered(virt, length));
        TablesAgree(old(Memory()), r) && UnmappedTo(old(Memory()), Memory(), r, Below(End(r)))
    {
      if virt < KVA * PAGE_SIZE || flags.user {
        return;
      }
      UnmapPages(DirOf(master, cpu, flags), First(virt), EndPage(virt, length), Covered(virt, length));
    }

    /** The unmapping loop; end is a page number of 20 bits. */
    method UnmapPages(dir: nat, first: nat, end: nat, ghost pages: nat)
      requires KernelUnmapReady(Memory(), master, dir, first, pages) && end == (first + pages) % FRAMES
      modifies paging.mem
      ensures var r := KernelRange(master, dir, first, pages);
              TablesAgree(old(Memory()), r) && UnmappedTo(old(Memory()), Memory(), r, Below(End(r)))
    {
      hide TablesAgree, UnmapReady, UnmappedTo, NamesTables, KernelRange, KernelWord, Below;
      ghost var m := Memory();
      var v := first;
      FirstPte(master, first);
      var pte := Word(master + 1 + CPUS + (Slot(v) - KSLOT), v % SLOTS);
      ghost var j: nat, r := 0, KernelRange(master, dir, first, pages);
      StartKernelUnmap(m, master, dir, r);
      AtEnd(first, pages, 0);
      while v != end
        invariant j <= pages && v == (first + j) % FRAMES && (v == end <==> j == pages)
          && UnmappedTo(m, Memory(), r, Below(first + j))
        invariant pte == KernelWord(master, first + j)
        decreases pages - j
      {
        RunningPte(master, first, j);
        UnmapOne(m, dir, r, v, pte);
        v, pte := (v + 1) % FRAMES, pte + 1;
        j := j + 1;
        AtEnd(first, pages, j);
      }
    }

    method UnmapOne(ghost m: Words, dir: nat, ghost r: Range, v: nat, pte: nat)
      requires KernelUnmapReady(m, master, dir, r.start, r.pages) && r == KernelRange(master, dir, r.start, r.pages)
      requires InRange(r, v)
      requires TablesAgree(m, r) && UnmappedTo(m, Memory(), r, v) && pte == KernelWord(master, v)
      modifies paging.mem
      ensures UnmappedTo(m, Memory(), r, Below(v + 1))
    {
      hide TablesAgree, UnmapReady, UnmappedTo, NamesTables, PageUnmapped, KernelRange;
      NextKernelUnmap(m, Memory(), master, dir, r, v - r.start);
      ghost var cur := Memory();
      assert pte / SLOTS == KernelTable(master, Slot(v));
      paging.UnmapPagetable(OnePage(dir, pte / SLOTS, v));
      OnePageUnmaps(cur, Memory(), dir, pte / SLOTS, v);
    }
  }

  /** The running PTE index and the 32-bit address are in step. */
  lemma RunningPte(master: nat, first: nat, j: nat)
    requires KVA <= first && first + j < FRAMES
    ensures KernelWord(master, first + j + 1) == KernelWord(master, first + j) + 1 && (first + j) % FRAMES == first + j
    ensures ((first + j) % FRAMES + 1) % FRAMES == (first + (j + 1)) % FRAMES && Below(first + j) == first + j
  {
  }

  /** The 32-bit addresses of the range differ from that of its end. */
  lemma AtEnd(first: nat, pages: nat, j: nat)
    requires KVA <= first < FRAMES && first + pages <= FRAMES && j <= pages
    ensures (first + j) % FRAMES == (first + pages) % FRAMES <==> j == pages
  {
  }

  lemma FirstPte(master: nat, first: nat)
    requires KVA <= first < FRAMES
    ensures Word(master + 1 + CPUS + (Slot(first) - KSLOT), first % SLOTS) == KernelWord(master, first)
    ensures first % FRAMES == first == Below(first)
  {
  }

  lemma StartKernelUnmap(m: Words, master: nat, dir: nat, r: Range)
    requires KernelUnmapReady(m, master, dir, r.start, r.pages) && r == KernelRange(master, dir, r.start, r.pages)
    ensures TablesAgree(m, r) && UnmappedTo(m, m, r, r.start) && KVA <= r.start < FRAMES && End(r) <= FRAMES
  {
    ReadyToUnmap(m, master, dir, r.start, r.pages);
  }

  lemma StartKernelMap(m: Words, master: nat, dir: nat, r: Range, phys: nat, pteFlags: Bits)
    requires KernelReady(m, master, dir, r.start, r.pages) && r == KernelRange(master, dir, r.start, r.pages)
    ensures KernelMapped(m, m, r, phys, pteFlags, 0) && KVA <= r.start < FRAMES && End(r) <= FRAMES
  {
    ReadyToBuild(m, master, dir, r.start, r.pages);
  }

  /** Kernel pages outside the range have tables the range does not use. */
  lemma KernelOwnTable(m: Words, master: nat, dir: nat, r: Range, v: nat)
    requires KernelReady(m, master, dir, r.start, r.pages) && r == KernelRange(master, dir, r.start, r.pages)
    requires KVA <= v < FRAMES
    ensures OwnTable(m, r, v)
  {
    assert Word(dir, Slot(v)) < |m|;
    if !Met(r, v) {
      forall i: nat | i < Spanned(r) ensures r.tables[i] != KernelTable(master, Slot(v)) {
        assert r.tables[i] == KernelTable(master, Slot(r.start) + i);
      }
    }
  }

  /** A kernel page's table, and its word there, by the linear numbering of the tables. */
  lemma KernelTableOf(master: nat, dir: nat, r: Range, v: nat)
    requires r.start >= KVA && r == KernelRange(master, dir, r.start, r.pages) && v >= KVA && Met(r, v)
    ensures TableOf(r, v) == KernelTable(master, Slot(v)) && Word(TableOf(r, v), v % SLOTS) == KernelWord(master, v)
  {
  }

  /** The mapping loop on the flat map: every page of the range gets its frame, except that the
      topmost page of the address space keeps the table word it had; kernel pages beside the
      range keep theirs; other pages do not change. */
  lemma KernelMapTranslates(m: Words, m': Words, master: nat, dir: nat, r: Range, phys: nat, pteFlags: Bits, v: nat)
    requires KernelReady(m, master, dir, r.start, r.pages) && r == KernelRange(master, dir, r.start, r.pages)
    requires KernelMapped(m, m', r, phys, pteFlags, r.pages) && r.pages > 0 && v < FRAMES
    requires v < KVA ==> OwnTable(m, r, v)
    ensures Translate(m', dir, v) ==
            if InRange(r, v) && v + 1 < FRAMES
            then Combine(PdeAfter(Pde(m, dir, v), KernelTable(master, Slot(v)), KERNEL_PDE),
              Entry((phys + (v - r.start)) % FRAMES, pteFlags))
            else if Met(r, v)
            then Combine(PdeAfter(Pde(m, dir, v), KernelTable(master, Slot(v)), KERNEL_PDE),
              At(m, KernelWord(master, v)))
            else Translate(m, dir, v)
  {
    if v >= KVA { KernelOwnTable(m, master, dir, r, v); }
    if Met(r, v) { KernelTableOf(master, dir, r, v); }
    BuildTranslates(m, m', r, phys, KERNEL_PDE, pteFlags, Mapped(r, r.pages), v);
  }

  /** What a mapping call of MapKernel leaves, from its range of bytes: in the directory chosen, the
      page of every byte, but for the topmost page of the address space, translates to the frame as
      far behind that of phys as the page is behind that of virt; present, and with the flags asked
      for, where the right of users takes their directory entry's consent too. */
  lemma MappedBytes(m: Words, m': Words, master: nat, cpu: nat, flags: MapFlags, virt: nat, phys: nat, length: nat,
                    pteFlags: Bits, b: nat)
    requires NoWrap(virt, length) && cpu < CPUS && virt >= 0x8000_0000 && virt <= b < virt + length
    requires KernelReady(m, master, DirOf(master, cpu, flags), First(virt), Covered(virt, length))
    requires KernelMapped(m, m', KernelRange(master, DirOf(master, cpu, flags), First(virt), Covered(virt, length)),
      phys / PAGE_SIZE, pteFlags + PRESENT, Covered(virt, length))
    requires b < 0xffff_f000
    ensures var dir := if flags.local then master + 1 + cpu else master; var e := Translate(m', dir, b / 4096);
      && e.Some? && e.value.frame == (phys / 4096 + (b / 4096 - virt / 4096)) % 0x10_0000
      && 0 in e.value.flags && (2 in e.value.flags <==> 2 in pteFlags && 2 in Pde(m, dir, b / 4096).flags)
      && forall i: nat :: i != 0 && i != 2 ==> (i in e.value.flags <==> i in pteFlags)
  {
    hide KernelMapped, KernelReady, Translate, Pde;
    var dir := DirOf(master, cpu, flags);
    CoveredIsBytes(master, dir, virt, length, b / 4096);
    KernelMapTranslates(m, m', master, dir, KernelRange(master, dir, First(virt), Covered(virt, length)),
      phys / PAGE_SIZE,
      pteFlags + PRESENT, b / 4096);
  }

  /** What UnmapKernel leaves: the page of every byte, but for the topmost, is absent. */
  lemma UnmappedBytes(m: Words, m': Words, master: nat, cpu: nat, flags: MapFlags, virt: nat, length: nat, b: nat)
    requires NoWrap(virt, length) && cpu < CPUS && virt >= 0x8000_0000 && virt <= b < virt + length
    requires KernelReady(m, master, DirOf(master, cpu, flags), First(virt), Covered(virt, length))
    requires var r := KernelRange(master, DirOf(master, cpu, flags), First(virt), Covered(virt, length));
      TablesAgree(m, r) && UnmappedTo(m, m', r, Below(End(r)))
    requires b < 0xffff_f000
    ensures Translate(m', if flags.local then master + 1 + cpu else master, b / 4096) == None
  {
    hide KernelReady, Translate, TablesAgree, UnmappedTo, KernelRange;
    var dir := DirOf(master, cpu, flags);
    var r := KernelRange(master, dir, First(virt), Covered(virt, length));
    CoveredIsBytes(master, dir, virt, length, b / 4096);
    KernelOwnTable(m, master, dir, r, b / 4096);
    UnmapIsFlatDelete(m, m', r, Below(End(r)), b / 4096);
  }

  /** Mapping leaves the directory in order, so that what was mapped can be unmapped. */
  lemma MapKeepsReady(m: Words, m1: Words, master: nat, dir: nat, r: Range, phys: nat, pteFlags: Bits)
    requires KernelReady(m, master, dir, r.start, r.pages) && r == KernelRange(master, dir, r.start, r.pages)
    requires KernelMapped(m, m1, r, phys, pteFlags, r.pages)
    ensures KernelReady(m1, master, dir, r.start, r.pages)
  {
    hide TablesBuilt, RestKept, BuildReady;
    forall s: nat | KSLOT <= s < SLOTS && Word(dir, s) < |m1|
      ensures m1[Word(dir, s)] == ZERO || m1[Word(dir, s)].frame == KernelTable(master, s)
    {
      var i := s - Slot(r.start);
      if 0 <= i < Entered(r, r.pages) { assert DirWord(r, i) == Word(r.dir, s); } else { assert Word(r.dir, s) < |m|; }
    }
  }

  /** After mapping a range, it can be unmapped, whatever the directory was before. */
  lemma MappedCanUnmap(m: Words, m1: Words, master: nat, dir: nat, r: Range, phys: nat, pteFlags: Bits)
    requires KernelReady(m, master, dir, r.start, r.pages) && r == KernelRange(master, dir, r.start, r.pages)
    requires KernelMapped(m, m1, r, phys, pteFlags, r.pages)
    ensures KernelUnmapReady(m1, master, dir, r.start, r.pages)
  {
    MapKeepsReady(m, m1, master, dir, r, phys, pteFlags);
    hide NamesTables, TablesBuilt, RestKept, BuildReady;
    if r.pages > 0 && End(r) > FRAMES - SLOTS {
      assert DirWord(r, Spanned(r) - 1) == Word(dir, SLOTS - 1);
      assert 0 in KERNEL_PDE && 0 !in ZERO.flags;
    }
  }

  /** Mapping a kernel range and unmapping it again: its pages are absent, a page beside it in a
      slot it meets keeps its table word, and so does the topmost page of the address space, which
      neither call reaches; every other page translates as before the two calls. */
  lemma MapThenUnmap(m: Words, m1: Words, m2: Words, master: nat, dir: nat, r: Range, phys: nat, pteFlags: Bits, v: nat)
    requires KernelReady(m, master, dir, r.start, r.pages) && r == KernelRange(master, dir, r.start, r.pages)
    requires r.pages > 0
    requires KernelMapped(m, m1, r, phys, pteFlags, r.pages)
    requires TablesAgree(m1, r) && UnmappedTo(m1, m2, r, Below(End(r)))
    requires v < FRAMES && (v < KVA ==> OwnTable(m, r, v))
    ensures Translate(m2, dir, v) ==
            if InRange(r, v) && v + 1 < FRAMES then None
            else if Met(r, v)
            then Combine(PdeAfter(Pde(m, dir, v), KernelTable(master, Slot(v)), KERNEL_PDE),
              At(m, KernelWord(master, v)))
            else Translate(m, dir, v)
  {
    hide BuiltTo, BuildReady, TablesAgree, UnmappedTo, NamesTables, Translate;
    KernelMapTranslates(m, m1, master, dir, r, phys, pteFlags, v);
    OwnTableKept(m, m1, master, dir, r, phys, pteFlags, v);
    UnmapIsFlatDelete(m1, m2, r, Below(End(r)), v);
  }

  /** So the pair of calls changes no kernel page outside the range, and not the topmost page,
      exactly when the pages beside it in its slots were unmoved by the mapping: their words not
      present, or their slots in use with the right to write wherever they have it. */
  lemma MapThenUnmapUnchangedIff(m: Words, m1: Words, m2: Words, master: nat, dir: nat, r: Range, phys: nat,
                                 pteFlags: Bits, v: nat)
    requires KernelReady(m, master, dir, r.start, r.pages) && r == KernelRange(master, dir, r.start, r.pages)
    requires r.pages > 0
    requires KernelMapped(m, m1, r, phys, pteFlags, r.pages)
    requires TablesAgree(m1, r) && UnmappedTo(m1, m2, r, Below(End(r)))
    requires KVA <= v < FRAMES && (InRange(r, v) ==> v + 1 == FRAMES)
    ensures Translate(m2, dir, v) == Translate(m, dir, v) <==>
            !Met(r, v) || Unmoved(Pde(m, dir, v), At(m, KernelWord(master, v)), KERNEL_PDE)
  {
    MapThenUnmap(m, m1, m2, master, dir, r, phys, pteFlags, v);
    hide BuiltTo, BuildReady, TablesAgree, UnmappedTo, KernelMapped;
    if Met(r, v) {
      KernelTableOf(master, dir, r, v);
      assert Word(dir, Slot(v)) < |m| && 0 !in ZERO.flags;
      UnmovedIff(Pde(m, dir, v), KernelTable(master, Slot(v)), At(m, KernelWord(master, v)), KERNEL_PDE);
    }
  }

  lemma OwnTableKept(m: Words, m1: Words, master: nat, dir: nat, r: Range, phys: nat, pteFlags: Bits, v: nat)
    requires KernelReady(m, master, dir, r.start, r.pages) && r == KernelRange(master, dir, r.start, r.pages)
    requires r.pages > 0
    requires KernelMapped(m, m1, r, phys, pteFlags, r.pages) && v < FRAMES && (v < KVA ==> OwnTable(m, r, v))
    ensures OwnTable(m1, r, v)
  {
    if v >= KVA { KernelOwnTable(m, master, dir, r, v); }
    if !Met(r, v) {
      assert Word(dir, Slot(v)) < |m| && Pde(m1, dir, v) == Pde(m, dir, v);
    }
  }
}