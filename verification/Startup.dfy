/** From the start of the kernel to the first user page: the kernel tables that boot32.S and mem_init
    set aside, and why the frames that mem_init lists are apart from all that maps them. */
module Startup {
  import opened Partition
  import opened BuddyMem
  import opened BuddyTheorems
  import opened MemInit
  import opened PageTables
  import opened KernelMap
  import opened Dyadic
  import opened TableDemand
  import opened UserPages
  import opened UserSpace
  import opened UserTheorems
  import opened UserRuns
  import B = BuddyConcurrent
  import C = ConcurrentTheorems
  import I = UserInterleaved

  /** ALIGN_PGD in slots: how many slots it takes to map that many bytes. */
  function SlotsFor(bytes: nat): nat {
    (bytes + (SLOTS * PAGE_SIZE - 1)) / (SLOTS * PAGE_SIZE)
  }

  /** That is the least number of slots of 4 MB. */
  lemma SlotsForLeast(bytes: nat)
    ensures bytes <= SlotsFor(bytes) * 0x40_0000 && forall n: nat :: bytes <= n * 0x40_0000 ==> SlotsFor(bytes) <= n
  {
  }

  /** The frame behind the last kernel table that is set aside: boot32.S maps the frames below
      mapped, and mem_init adds a table for each further slot of the map. */
  function TablesEnd(es: seq<Region>, mapped: nat): nat
    requires es != []
  {
    if SlotsFor(mapped * PAGE_SIZE) <= SlotsFor(Total(es))
      then mapped + (SlotsFor(Total(es)) - SlotsFor(mapped * PAGE_SIZE))
    else mapped
  }

  /** The layout of kernel32.ld and boot32.S: the tables of boot32.S, from the first kernel table to
      the end of what they map, map all of it; kernel data ends behind the tables of mem_init. */
  predicate KernelLinked(es: seq<Region>, kernelEnd: nat, master: nat, mapped: nat)
    requires es != []
  {
    && KernelTable(master, KSLOT) + SlotsFor(mapped * PAGE_SIZE) <= mapped
    && TablesEnd(es, mapped) * PAGE_SIZE <= kernelEnd
  }

  /** The kernel table of every frame of the map that has a linear address is set aside. */
  lemma TableSetAside(es: seq<Region>, kernelEnd: nat, master: nat, mapped: nat, f: nat)
    requires SortedMap(es) && KernelLinked(es, kernelEnd, master, mapped) && f < NrKpages(es) && HasLinear(f)
    ensures KernelTable(master, Slot(KVA + f)) < TablesEnd(es, mapped)
  {
    assert f * PAGE_SIZE < Total(es);
    assert Slot(KVA + f) == KSLOT + f / SLOTS;
    assert f / SLOTS < SlotsFor(Total(es));
  }

  /** What lies below the end of those tables is never managed. */
  lemma KernelFramesUnmanaged(es: seq<Region>, kernelEnd: nat, apSize: nat, master: nat, mapped: nat, top: nat, f: nat)
    requires SortedMap(es) && KernelLinked(es, kernelEnd, master, mapped) && top < NrKpages(es) && HasLinear(top)
    requires KernelFrame(master, top, f)
    ensures !Managed(es, kernelEnd, apSize, f)
  {
    TableSetAside(es, kernelEnd, master, mapped, top);
    KernelDataExcluded(es, kernelEnd, apSize, f);
  }

  /** The frames after mem_init are laid out as alloc_user_page relies on. */
  lemma BootLaid(part: Part, es: seq<Region>, kernelEnd: nat, apSize: nat, master: nat, mapped: nat, m: Words)
    requires SortedMap(es) && KernelLinked(es, kernelEnd, master, mapped)
    requires forall f: nat :: f in part <==> Managed(es, kernelEnd, apSize, f)
    requires Word(NrKpages(es), 0) <= |m| && Word(TablesEnd(es, mapped), 0) <= |m|
    ensures FramesLaid(part, Top(part.Keys), m, master)
  {
    var top := Top(part.Keys);
    assert top < NrKpages(es);
    TableSetAside(es, kernelEnd, master, mapped, top);
    forall f | f in part ensures f < FRAMES && InMemory(m, f) && !KernelFrame(master, top, f) {
      if KernelFrame(master, top, f) { KernelFramesUnmanaged(es, kernelEnd, apSize, master, mapped, top, f); }
    }
  }

  /** What is known after mem_init: the frames listed are those that no rule excludes, they and the
      set-aside tables are in memory. No CPU is live; of the directories nothing is asked. */
  ghost predicate BootedMemory(w: World, es: seq<Region>, kernelEnd: nat, apSize: nat, master: nat, mapped: nat,
                               m: Words) {
    && SortedMap(es) && KernelLinked(es, kernelEnd, master, mapped) && AllFree(w)
    && (forall f: nat :: f in w.part <==> Managed(es, kernelEnd, apSize, f))
    && Word(NrKpages(es), 0) <= |m| && Word(TablesEnd(es, mapped), 0) <= |m|
  }

  /** From there on runs of whole calls start with exclusive frames. */
  lemma BootExclusive(w: World, es: seq<Region>, kernelEnd: nat, apSize: nat, master: nat, mapped: nat, m: Words)
    requires BootedMemory(w, es, kernelEnd, apSize, master, mapped, m)
    ensures Exclusive(Space(w, m, {}, map[]), master)
  {
    hide SortedMap, KernelLinked, Managed, Good, FramesLaid, Top, Exclusive;
    BootLaid(w.part, es, kernelEnd, apSize, master, mapped, m);
    StartExclusive(w, m, master);
  }

  /** And runs of interleaved steps start in order. */
  lemma BootInterleaved(w: World, es: seq<Region>, kernelEnd: nat, apSize: nat, master: nat, mapped: nat, m: Words,
                        n: nat)
    requires BootedMemory(w, es, kernelEnd, apSize, master, mapped, m)
    ensures I.Inv(I.Sys(C.Booted(w, n), m, master, {}, map[]))
  {
    hide SortedMap, KernelLinked, Managed, Good, Top, I.Inv, B.Inv;
    BootLaid(w.part, es, kernelEnd, apSize, master, mapped, m);
    C.BootedInv(w, n);
    I.InterleavedStart(C.Booted(w, n), m, master);
  }

  /** From the E820 map to user pages: in every interleaving of any number of CPUs from there on, with
      the set-up of all directories in it and each CPU going live when its user half is zero, in
      which tables are clear when they are entered, the frame of a mapped user page is one that no
      rule of mem_init excludes, no directory or set-aside table, and of no other user page. */
  lemma BootToUserPages(w: World, es: seq<Region>, kernelEnd: nat, apSize: nat, master: nat, mapped: nat, m: Words,
                        n: nat,
                        ss: seq<I.Sys>, evs: seq<I.Event>, u: UserPage, v: UserPage)
    requires BootedMemory(w, es, kernelEnd, apSize, master, mapped, m)
    requires I.IsRun(ss, evs) && ss[0] == I.Sys(C.Booted(w, n), m, master, {}, map[]) && I.ClearRun(ss, evs, |evs|)
    requires PageFrame(ss[|evs|].m, master, ss[|evs|].live, u).Some? && u != v
    ensures var f := PageFrame(ss[|evs|].m, master, ss[|evs|].live, u).value;
      && Managed(es, kernelEnd, apSize, f) && f * PAGE_SIZE > kernelEnd
        && PageFrame(ss[|evs|].m, master, ss[|evs|].live, v) != Some(f)
      && !KernelFrame(master, Top(w.part.Keys), f)
  {
    hide SortedMap, KernelLinked, Managed, Good, AllFree, I.Inv, B.Inv, I.ClearRun, I.Enabled, I.After,
      PageFrame, Top;
    BootInterleaved(w, es, kernelEnd, apSize, master, mapped, m, n);
    I.RunKeepsFrames(ss, evs, |evs|);
    I.InterleavedExclusive(ss, evs, u, v);
    var f := PageFrame(ss[|evs|].m, master, ss[|evs|].live, u).value;
    BootLaid(w.part, es, kernelEnd, apSize, master, mapped, m);
    if f * PAGE_SIZE <= kernelEnd { KernelDataExcluded(es, kernelEnd, apSize, f); }
  }

  /** Tables of slots above the map are not set aside. With 64 MB, the kernel table that the local
      APIC's page needs (slot 1019) is a frame that page_alloc hands out. */
  lemma DeviceTableManaged()
    ensures var es := [Region(0, 0x400_0000, 1)]; var master, mapped, kernelEnd := 0x200, 0x222, 0x2c_1000;
      && SortedMap(es) && KernelLinked(es, kernelEnd, master, mapped)
      && Slot(0xfee00) == 1019 && Managed(es, kernelEnd, 0x100, KernelTable(master, Slot(0xfee00)))
  {
    var es := [Region(0, 0x400_0000, 1)];
    assert forall i: nat :: i < |es| ==> es[i].kind == 1 && !InGap(es, i, 0x41c);
  }

  /** On a machine whose only usable memory lies above 2 GB the first call for one page ends out of
      reach, whatever the memory holds elsewhere. */
  lemma HighMapOutOfReach(w: World, m: Words, master: nat, cpu: nat, first: nat, pteFlags: Bits)
    requires AllFree(w) && At(m, Word(CpuDir(master, cpu), Slot(first))) == ZERO
    requires var es := [Region(0, 0x8000_0000, 2), Region(0x8000_0000, 0x10_0000, 1)];
      SortedMap(es) && forall f: nat :: f in w.part <==> Managed(es, 0x10_0000, 0x100, f)
    ensures var (b, t, w2) := TwoFrames(w);
      && b.Some? && t.Some?
      && Outcome(w, m, w2, m, master, cpu, first, 1, pteFlags, [], OutOfReach, 0, Grant(b.value, t.value, [], w, 0))
  {
    hide Good, Alloc, Outcome, SortedMap, Managed, SomeFreeRun;
    forall f: nat ensures f in w.part <==> 0x8_0000 <= f < 0x8_0100 { HighManaged(f); }
    var w1 := Alloc(w, 0).1;
    AllocExact(w, 0);
    FrameIsRun(w.part, 0x8_0000);
    var b := Alloc(w, 0).0.value;
    var f: nat := if b == 0x8_0000 then 0x8_0001 else 0x8_0000;
    assert !InBlock(f, b, 0);
    AllocExact(w1, 0);
    FrameIsRun(w1.part, f);
    var (_, t, w2) := TwoFrames(w);
    assert InBlock(t.value, t.value, 0);
    SecondFrameDecides(w, m, master, cpu, first, pteFlags, b, t.value, w2);
  }

  lemma HighManaged(f: nat)
    ensures var es := [Region(0, 0x8000_0000, 2), Region(0x8000_0000, 0x10_0000, 1)];
      SortedMap(es) && (Managed(es, 0x10_0000, 0x100, f) <==> 0x8_0000 <= f < 0x8_0100)
  {
    var es := [Region(0, 0x8000_0000, 2), Region(0x8000_0000, 0x10_0000, 1)];
    assert Reached(es, 0) && Reached(es, 1) && Touches(es[0], f) <==> f < 0x8_0000;
    assert !InGap(es, 0, f) && !InGap(es, 1, f);
  }

  /** A listed frame is a free run of one frame. */
  lemma FrameIsRun(part: Part, f: nat)
    requires f in part && part[f].place == Listed
    ensures SomeFreeRun(part, 0)
  {
    assert FreeRun(part, f, 0);
  }
}
