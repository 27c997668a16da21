/** alloc_user_page as it runs: the checks, the block for the pages, the retry loop for the
    tables, and the mapping loop. */
module UserSpace {
  import opened Dyadic
  import opened Partition
  import opened BuddyMem
  import opened BuddyTheorems
  import opened PageAllocator
  import opened PageTables
  import opened PageByPage
  import opened KernelMap
  import opened Holdings
  import opened TableDemand
  import opened UserPages

  /** Tables put into empty user slots by someone else while the directory's lock was dropped. */
  type Filling = map<nat, Entry>

  function Filled(m: Words, dir: nat, f: Filling): (r: Words)
    ensures |r| == |m|
  {
    seq(|m|, (w: nat) requires w < |m| =>
      if Word(dir, 0) <= w < Word(dir, KSLOT) && w - Word(dir, 0) in f && m[w] == ZERO then f[w - Word(dir, 0)]
        else m[w])
  }

  /** The memory when the lock has been dropped k times. */
  function FilledTo(m: Words, dir: nat, fs: seq<Filling>, k: nat): (r: Words)
    requires k <= |fs|
    ensures |r| == |m|
  {
    if k == 0 then m else Filled(FilledTo(m, dir, fs, k - 1), dir, fs[k - 1])
  }

  /** How a call ended: the heads of the blocks taken for pages and for tables,
      the memory one build would have left; on failure, the world and the order of the
      request that failed. */
  datatype Grant = Grant(buf: nat, tables: nat, built: Words, world: World, asked: nat)

  /** The blocks a successful call keeps. */
  function Kept(m: Words, dir: nat, first: nat, pages: nat, g: Grant): set<Block>
    requires pages > 0
  {
    var nr := Missing(m, dir, Slot(first), Counted(pages));
    {Block(g.buf, NpagesToOrder(pages))} + if nr == 0 then {} else {Block(g.tables, NpagesToOrder(nr))}
  }

  /** The n frames from q on have linear addresses. */
  predicate InReach(q: nat, n: nat) {
    n == 0 || HasLinear(q + n - 1)
  }

  ghost predicate Disjoint(a: Block, b: Block) {
    forall f: nat {:trigger Covers(a, f)} {:trigger Covers(b, f)} :: !(Covers(a, f) && Covers(b, f))
  }

  /** Success, from world w and memory m on. */
  ghost predicate Granted(w: World, m: Words, w': World, m': Words, master: nat, cpu: nat, first: nat, pages: nat,
                          pteFlags: Bits, g: Grant)
    requires pages > 0
  {
    var dir := CpuDir(master, cpu);
    var nr := Missing(m, dir, Slot(first), Counted(pages));
    && Good(w') && w'.last == w.last && Took(w.part, w'.part, Kept(m, dir, first, pages, g))
    && (nr > 0 ==> Disjoint(Block(g.buf, NpagesToOrder(pages)), Block(g.tables, NpagesToOrder(nr))))
    && InReach(g.tables, Missing(m, dir, Slot(first), Straddled(first, pages)))
    && UserMapped(m, g.built, m', master, Top(w.part.Keys), UserRange(m, dir, first, pages, g.tables), g.buf, pteFlags,
      pages)
  }

  /** Failure for lack of memory: nothing is kept, and the request that failed found no aligned
      free run of its size: that for the pages, in the world of the call, or that for the nr tables
      counted, with only the block for the pages taken. */
  ghost predicate OutOfMemory(w: World, w': World, pages: nat, nr: nat, g: Grant)
    requires pages > 0
  {
    && Good(w') && w'.last == w.last && Took(w.part, w'.part, {})
    && Good(g.world) && (g.asked > MAX_ALLOC_ORDER || !SomeFreeRun(g.world.part, g.asked))
    && ((g.world == w && g.asked == NpagesToOrder(pages))
      || (nr > 0 && g.asked == NpagesToOrder(nr)
          && Took(w.part, g.world.part, {Block(g.buf, NpagesToOrder(pages))})))
  }

  class UserSpace {
    const allocator: KernelPages
    const kernel: KernelTables

    ghost function World(): World
      reads allocator, allocator.pages, allocator.counts, allocator.free, allocator.free.node
    {
      allocator.AsWorld()
    }

    ghost function Memory(): Words
      reads kernel.paging.mem
    {
      kernel.paging.mem[..]
    }

    constructor (allocator: KernelPages, kernel: KernelTables)
      ensures this.allocator == allocator && this.kernel == kernel
    {
      this.allocator, this.kernel := allocator, kernel;
    }

    /** The loop that counts the slots without a table, of the n slots from that of page first on. */
    method CountMissing(dir: nat, first: nat, n: nat) returns (nr: nat)
      requires InMemory(Memory(), dir) && first < KVA && Slot(first) + n <= SLOTS
      ensures nr == Missing(Memory(), dir, Slot(first), n)
    {
      nr := 0;
      var i: nat := 0;
      while i < n
        invariant i <= n && nr == Missing(Memory(), dir, Slot(first), i)
      {
        if kernel.paging.mem[Word(dir, Slot(first) + i)] == ZERO {
          nr := nr + 1;
        }
        i := i + 1;
      }
    }

    /** What others do to the directory while its lock is dropped. */
    method LockAgain(dir: nat, f: Filling)
      requires InMemory(Memory(), dir)
      modifies kernel.paging.mem
      ensures Memory() == Filled(old(Memory()), dir, f)
    {
      ghost var m := Memory();
      var mem := kernel.paging.mem;
      var x := 0;
      while x < KSLOT
        invariant x <= KSLOT
        invariant forall w: nat :: w < mem.Length ==>
          mem[w] == if Word(dir, 0) <= w < Word(dir, x) then Filled(m, dir, f)[w] else m[w]
      {
        if x in f && mem[Word(dir, x)] == ZERO {
          mem[Word(dir, x)] := f[x];
        }
        x := x + 1;
      }
    }

    /** The retry loop: count, and as long as the count is not the one the block was allocated
        for, drop the lock, free the block, allocate another and count again. */
    method GetTables(ghost w0: World, cpu: nat, first: nat, pages: nat, buf: nat, fs: seq<Filling>)
      returns (ok: bool, tables: Option<nat>, ghost seen: nat, ghost g: Grant)
      requires allocator.Valid() && pages > 0 && first + pages < KVA && cpu < CPUS
      requires Good(w0) && World().last == w0.last && Took(w0.part, World().part, {Block(buf, NpagesToOrder(pages))})
      requires InMemory(Memory(), CpuDir(kernel.master, cpu))
      modifies allocator.pages, allocator.counts, allocator.free`lists, allocator.free.node, allocator`part,
        kernel.paging.mem
      ensures allocator.Valid() && World().last == w0.last && g.buf == buf
      ensures seen <= |fs| && Memory() == FilledTo(old(Memory()), CpuDir(kernel.master, cpu), fs, seen)
      ensures !ok ==>
        OutOfMemory(w0, World(), pages,
          Missing(Memory(), CpuDir(kernel.master, cpu), Slot(first), Counted(pages)), g)
      ensures ok ==> Took(w0.part, World().part, Kept(Memory(), CpuDir(kernel.master, cpu), first, pages, g))
      ensures ok ==>
        var nr := Missing(Memory(), CpuDir(kernel.master, cpu), Slot(first), Counted(pages));
        if nr == 0 then tables == None
        else tables == Some(g.tables) && Disjoint(Block(buf, NpagesToOrder(pages)), Block(g.tables, NpagesToOrder(nr)))
    {
      hide Good, Took, OutOfMemory, Disjoint, Missing, Filled;
      var dir := CpuDir(kernel.master, cpu);
      ghost var m0 := Memory();
      var k, prev := 0, 0;
      var nr := CountMissing(dir, first, Counted(pages));
      tables := None;
      while nr != prev
        invariant allocator.Valid() && World().last == w0.last && k <= |fs| && Memory() == FilledTo(m0, dir, fs, k)
        invariant nr == Missing(Memory(), dir, Slot(first), Counted(pages))
        invariant Holding(w0, World(), pages, buf, tables, prev)
        decreases |fs| - k, nr != prev
      {
        ok, tables, g := Exchange(w0, pages, buf, tables, prev, nr);
        if !ok {
          seen := k;
          return;
        }
        prev := nr;
        if k < |fs| {
          LockAgain(dir, fs[k]);
          k := k + 1;
        }
        nr := CountMissing(dir, first, Counted(pages));
      }
      ok, seen := true, k;
      g := Grant(buf, if tables.Some? then tables.value else 0, [], w0, 0);
      HeldIsKept(w0, World(), Memory(), dir, first, pages, buf, tables, g);
    }

    /** One round of the retry loop: give back the old block of tables and take one for nr. */
    method Exchange(ghost w0: World, ghost pages: nat, buf: nat, had: Option<nat>, ghost prev: nat, nr: nat)
      returns (ok: bool, tables: Option<nat>, ghost g: Grant)
      requires allocator.Valid() && pages > 0 && Good(w0) && World().last == w0.last
      requires Holding(w0, World(), pages, buf, had, prev)
      modifies allocator.pages, allocator.counts, allocator.free`lists, allocator.free.node, allocator`part
      ensures allocator.Valid() && World().last == w0.last
      ensures ok ==> Holding(w0, World(), pages, buf, tables, nr)
      ensures !ok ==> g.buf == buf && OutOfMemory(w0, World(), pages, nr, g)
    {
      hide Good, Took, Holding, Alloc, Free, OutOfMemory;
      ok, tables, g := true, None, Grant(buf, 0, [], w0, 0);
      if had.Some? {
        GiveBack(w0, pages, buf, had.value, prev);
      } else {
        HoldsNone(w0, World(), pages, buf, prev);
      }
      if nr > 0 {
        ghost var w := World();
        ValidGood();
        tables := allocator.PageAlloc(NpagesToOrder(nr));
        if tables.None? {
          TablesFail(w0, w, pages, buf, nr);
          g := Grant(buf, 0, [], w, NpagesToOrder(nr));
          allocator.PageFree(buf);
          ok := false;
        } else {
          TablesHeld(w0, w, World(), pages, buf, tables.value, nr);
        }
      }
    }

    /** The mapping loop, under the directory's lock. */
    method MapRange(ghost part: Part, ghost top: nat, cpu: nat, first: nat, pages: nat, buf: nat, tables: Option<nat>,
                    pteFlags: Bits,
                    ghost q: nat)
      returns (ghost built: Words)
      requires pages > 0 && first + pages < KVA
      requires UserReady(part, top, Memory(), kernel.master, cpu)
      requires SpareTables(part, Memory(), CpuDir(kernel.master, cpu), first, pages, q)
      requires Missing(Memory(), CpuDir(kernel.master, cpu), Slot(first), Straddled(first, pages)) > 0 ==>
        tables == Some(q)
      modifies kernel.paging.mem
      ensures UserMapped(old(Memory()), built, Memory(), kernel.master, top,
                         UserRange(old(Memory()), CpuDir(kernel.master, cpu), first, pages, q), buf, pteFlags, pages)
    {
      hide UserMapped, UserReady, SpareTables, Missing, UserRange, BuildReady, SeenAt;
      ghost var m := Memory();
      ghost var r := UserRange(m, CpuDir(kernel.master, cpu), first, pages, q);
      StartUser(part, top, m, kernel.master, cpu, first, pages, q, buf, pteFlags);
      built := m;
      var idx, j := 0, 0;
      while j < pages
        invariant j <= pages && UserMapped(m, built, Memory(), kernel.master, top, r, buf, pteFlags, j)
        invariant idx == Missing(m, CpuDir(kernel.master, cpu), Slot(first), Entered(r, j)) && |Memory()| == |m|
      {
        var t;
        t, idx := FindTable(part, top, m, built, cpu, first, pages, q, buf, j, idx, tables, pteFlags);
        built := MapUserPage(top, m, built, cpu, r, buf, j, first + j, t, buf + j, pteFlags);
        j := j + 1;
      }
    }

    /** The table of page j: the one in place, or the next frame of the block for tables. */
    method FindTable(ghost part: Part, ghost top: nat, ghost m: Words, ghost built: Words, cpu: nat, first: nat,
                     ghost pages: nat,
                     ghost q: nat, ghost buf: nat,
                     j: nat, idx: nat, tables: Option<nat>, ghost pteFlags: Bits)
      returns (t: nat, idx': nat)
      requires pages > 0 && first + pages < KVA && j < pages && UserReady(part, top, m, kernel.master, cpu)
      requires SpareTables(part, m, CpuDir(kernel.master, cpu), first, pages, q)
      requires UserMapped(m, built, Memory(), kernel.master, top,
                          UserRange(m, CpuDir(kernel.master, cpu), first, pages, q), buf, pteFlags, j)
      requires idx ==
        Missing(m, CpuDir(kernel.master, cpu), Slot(first),
          Entered(UserRange(m, CpuDir(kernel.master, cpu), first, pages, q), j))
      requires Missing(m, CpuDir(kernel.master, cpu), Slot(first), Straddled(first, pages)) > 0 ==> tables == Some(q)
      ensures var r := UserRange(m, CpuDir(kernel.master, cpu), first, pages, q);
        SeenAt(Memory(), kernel.master, top, r, first + j, t) && t == TableAt(r, first + j)
        && idx' == Missing(m, CpuDir(kernel.master, cpu), Slot(first), Entered(r, j + 1))
    {
      hide UserMapped, UserReady, SpareTables, BuildReady, UserTables, Missing;
      UserPageSeen(part, m, built, Memory(), kernel.master, top, cpu, first, pages, q, buf, pteFlags, j);
      var pgd := Word(CpuDir(kernel.master, cpu), Slot(first + j));
      if kernel.paging.mem[pgd] != ZERO {
        t, idx' := kernel.paging.mem[pgd].frame, idx;
      } else {
        MissingGrows(m, CpuDir(kernel.master, cpu), Slot(first), Slot(first + j) - Slot(first) + 1,
          Straddled(first, pages));
        t, idx' := tables.value + idx, idx + 1;
      }
    }

    /** One page: reach its table through the kernel's linear mapping, build it, leave it. */
    method MapUserPage(ghost top: nat, ghost m: Words, ghost built: Words, cpu: nat, ghost r: Range, buf: nat,
                       ghost j: nat,
                       v: nat, t: nat, frame: nat, pteFlags: Bits)
      returns (ghost built': Words)
      requires UserMapped(m, built, Memory(), kernel.master, top, r, buf, pteFlags, j) && j < r.pages
      requires v == r.start + j
      requires cpu < CPUS && r.dir == CpuDir(kernel.master, cpu) && HasLinear(top) && frame == buf + j
      requires SeenAt(Memory(), kernel.master, top, r, v, t) && Spanned(r) <= |r.tables|
      requires t == TableAt(r, v)
      requires InMemory(Memory(), KernelTable(kernel.master, Slot(KVA + top)))
      modifies kernel.paging.mem
      ensures UserMapped(m, built', Memory(), kernel.master, top, r, buf, pteFlags, j + 1)
      ensures |Memory()| == |old(Memory())|
    {
      hide UserMapped, SeenAt, UserPde, UserPte;
      ReachTable(top, m, built, cpu, r, buf, j, v, t, pteFlags);
      built' := BuildUserPage(top, m, built, cpu, r, buf, j, v, t, frame, pteFlags);
      LeaveTable(top, m, built', cpu, r, buf, j + 1, t, pteFlags);
    }

    method ReachTable(ghost top: nat, ghost m: Words, ghost built: Words, cpu: nat, ghost r: Range, ghost buf: nat,
                      ghost j: nat,
                      ghost v: nat, t: nat, ghost pteFlags: Bits)
      requires UserMapped(m, built, Memory(), kernel.master, top, r, buf, pteFlags, j)
      requires cpu < CPUS && r.dir == CpuDir(kernel.master, cpu) && HasLinear(top)
      requires SeenAt(Memory(), kernel.master, top, r, v, t)
      requires InMemory(Memory(), KernelTable(kernel.master, Slot(KVA + top)))
      modifies kernel.paging.mem
      ensures UserMapped(m, built, Memory(), kernel.master, top, r, buf, pteFlags, j)
      ensures SeenAt(Memory(), kernel.master, top, r, v, t) && t <= top
      ensures KernelUnmapReady(Memory(), kernel.master, r.dir, KVA + t, 1)
      ensures |Memory()| == |old(Memory())|
    {
      hide UserMapped, KernelMapped, NamesTables, SameOff, NoWrap, First, Covered, Refused, KernelReady;
      ghost var cur := Memory();
      NamesOf(m, built, cur, kernel.master, top, r, buf, pteFlags, j);
      LinearReady(cur, kernel.master, top, r.dir, t);
      kernel.MapKernel(cpu, (KVA + t) * PAGE_SIZE, t * PAGE_SIZE, PAGE_SIZE, WRITE, MapFlags(false, true));
      LinearMapNoise(cur, Memory(), kernel.master, top, r.dir, t, t, WRITE + PRESENT);
      MappedCanUnmap(cur, Memory(), kernel.master, r.dir, KernelRange(kernel.master, r.dir, KVA + t, 1), t,
        WRITE + PRESENT);
      NoiseKeeps(m, built, cur, Memory(), kernel.master, top, r, buf, pteFlags, j);
      SeenKept(cur, Memory(), kernel.master, top, r, v, t);
    }

    method BuildUserPage(ghost top: nat, ghost m: Words, ghost built: Words, cpu: nat, ghost r: Range, ghost buf: nat,
                         ghost j: nat,
                         v: nat, t: nat, frame: nat, pteFlags: Bits)
      returns (ghost built': Words)
      requires UserMapped(m, built, Memory(), kernel.master, top, r, buf, pteFlags, j) && j < r.pages
      requires v == r.start + j
      requires r.dir == CpuDir(kernel.master, cpu) && frame == buf + j
      requires SeenAt(Memory(), kernel.master, top, r, v, t) && Spanned(r) <= |r.tables|
      requires t == TableAt(r, v)
      requires KernelUnmapReady(Memory(), kernel.master, r.dir, KVA + t, 1)
      modifies kernel.paging.mem
      ensures UserMapped(m, built', Memory(), kernel.master, top, r, buf, pteFlags, j + 1)
      ensures |Memory()| == |old(Memory())|
      ensures KernelUnmapReady(Memory(), kernel.master, r.dir, KVA + t, 1)
    {
      hide UserMapped, SeenAt, UserPde, UserPte, BuiltTo, BuildReady, PageBuilt, OnePage, InMemory, TableAt,
        KernelUnmapReady;
      ghost var cur := Memory();
      SeenFits(cur, kernel.master, top, r, v, t);
      UserPageBuilt(m, built, cur, kernel.master, top, r, buf, pteFlags, j, v, t);
      kernel.paging.BuildPagetable(OnePage(CpuDir(kernel.master, cpu), t, v), frame, UserPde(pteFlags),
        UserPte(pteFlags));
      OnePageBuilds(cur, Memory(), r.dir, t, v, frame, UserPde(pteFlags), UserPte(pteFlags));
      BuiltCanUnmap(cur, kernel.master, r.dir, KVA + t, t, v, Entry(frame % FRAMES, UserPte(pteFlags)),
        UserPde(pteFlags));
      built' := PageBuilt(built, r.dir, t, v, Entry(frame % FRAMES, UserPte(pteFlags)), UserPde(pteFlags));
    }

    method LeaveTable(ghost top: nat, ghost m: Words, ghost built: Words, cpu: nat, ghost r: Range, ghost buf: nat,
                      ghost j: nat,
                      t: nat, ghost pteFlags: Bits)
      requires UserMapped(m, built, Memory(), kernel.master, top, r, buf, pteFlags, j)
      requires cpu < CPUS && r.dir == CpuDir(kernel.master, cpu) && t <= top && HasLinear(top)
      requires InMemory(Memory(), KernelTable(kernel.master, Slot(KVA + top)))
      requires KernelUnmapReady(Memory(), kernel.master, r.dir, KVA + t, 1)
      modifies kernel.paging.mem
      ensures UserMapped(m, built, Memory(), kernel.master, top, r, buf, pteFlags, j)
      ensures |Memory()| == |old(Memory())|
    {
      hide UserMapped, TablesAgree, UnmappedTo, NamesTables, SameOff, NoWrap, First, Covered, Refused, KernelUnmapReady;
      ghost var cur := Memory();
      NamesOf(m, built, cur, kernel.master, top, r, buf, pteFlags, j);
      LinearReady(cur, kernel.master, top, r.dir, t);
      kernel.UnmapKernel(cpu, (KVA + t) * PAGE_SIZE, PAGE_SIZE, MapFlags(false, true));
      LinearUnmapNoise(cur, Memory(), kernel.master, top, r.dir, t);
      NoiseKeeps(m, built, cur, Memory(), kernel.master, top, r, buf, pteFlags, j);
    }

    /** alloc_user_page */
    method AllocUserPage(cpu: nat, virt: nat, length: nat, pteFlags: Bits, fs: seq<Filling>) returns (code: Code,
                         ghost seen: nat, ghost g: Grant)
      requires allocator.Valid() && virt < ADDRESSES && length < ADDRESSES
      requires Check(virt, length) == Done ==>
        RangeOk(virt, length) &&
        AlwaysReady(allocator.part, Top(allocator.part.Keys), Memory(), kernel.master, cpu, virt / PAGE_SIZE,
          PagesOf(length), fs)
      modifies allocator.pages, allocator.counts, allocator.free`lists, allocator.free.node, allocator`part,
        kernel.paging.mem
      ensures allocator.Valid()
      ensures Check(virt, length) != Done ==>
        code == Check(virt, length) && World() == old(World()) && Memory() == old(Memory())
      ensures Check(virt, length) == Done ==>
        Outcome(old(World()), old(Memory()), World(), Memory(), kernel.master, cpu, virt / PAGE_SIZE, PagesOf(length),
          pteFlags, fs, code, seen, g)
    {
      hide Outcome, AlwaysReady, KernelPages.Valid;
      if virt == 0 {
        return NotSupported, 0, Grant(0, 0, [], World(), 0);
      }
      if virt % PAGE_SIZE != 0 {
        return Invalid, 0, Grant(0, 0, [], World(), 0);
      }
      if (virt + AlignPage(length)) % ADDRESSES >= KVA * PAGE_SIZE {
        return Invalid, 0, Grant(0, 0, [], World(), 0);
      }
      RangePages(virt, length);
      code, seen, g := AllocPages(cpu, virt / PAGE_SIZE, AlignPage(length) / PAGE_SIZE, pteFlags, fs);
    }

    method AllocPages(cpu: nat, first: nat, pages: nat, pteFlags: Bits, fs: seq<Filling>) returns (code: Code,
                      ghost seen: nat, ghost g: Grant)
      requires allocator.Valid() && pages > 0 && first + pages < KVA
      requires AlwaysReady(allocator.part, Top(allocator.part.Keys), Memory(), kernel.master, cpu, first, pages, fs)
      modifies allocator.pages, allocator.counts, allocator.free`lists, allocator.free.node, allocator`part,
        kernel.paging.mem
      ensures allocator.Valid()
      ensures Outcome(old(World()), old(Memory()), World(), Memory(), kernel.master, cpu, first, pages, pteFlags, fs,
        code, seen, g)
    {
      hide Outcome, AlwaysReady, TakesOwnFrames, Good, Alloc, Took, OutOfMemory, Missing;
      hide Disjoint, UserReady, FilledTo, SpareTables, UserMapped, Kept;
      ghost var w0, m0 := World(), Memory();
      ValidGood();
      ReadyAt(w0.part, Top(w0.part.Keys), m0, kernel.master, cpu, first, pages, fs, 0);
      var buf := allocator.PageAlloc(NpagesToOrder(pages));
      if buf.None? {
        code, seen, g := NoMem, 0, Grant(0, 0, [], w0, NpagesToOrder(pages));
        BufFails(w0, m0, kernel.master, cpu, first, pages, pteFlags, fs);
        return;
      }
      BufTaken(w0, World(), pages, buf.value);
      var ok, tables;
      ok, tables, seen, g := GetTables(w0, cpu, first, pages, buf.value, fs);
      if !ok {
        code := NoMem;
        Failed(w0, m0, World(), kernel.master, cpu, first, pages, pteFlags, fs, seen, g);
        return;
      }
      ghost var ms := Memory();
      ReadyAt(w0.part, Top(w0.part.Keys), m0, kernel.master, cpu, first, pages, fs, seen);
      var taken := CountMissing(CpuDir(kernel.master, cpu), first, Straddled(first, pages));
      OwnFramesBound(ms, CpuDir(kernel.master, cpu), first, pages, Straddled(first, pages));
      if taken > 0 && !HasLinear(tables.value + taken - 1) {
        code := OutOfReach;
        ValidGood();
        Stopped(w0, m0, World(), kernel.master, cpu, first, pages, pteFlags, fs, seen, g);
        return;
      }
      code := Done;
      SpareKept(w0, World(), ms, CpuDir(kernel.master, cpu), first, pages, g);
      ghost var built := MapRange(w0.part, Top(w0.part.Keys), cpu, first, pages, buf.value, tables, pteFlags, g.tables);
      ValidGood();
      Succeeded(w0, m0, World(), Memory(), kernel.master, cpu, first, pages, pteFlags, fs, seen, g, built);
      g := g.(built := built);
    }

    lemma ValidGood()
      requires allocator.Valid()
      ensures Good(World())
    {
    }

    /** Free the block of tables of the last round. */
    method GiveBack(ghost w0: World, ghost pages: nat, ghost buf: nat, had: nat, ghost prev: nat)
      requires allocator.Valid() && pages > 0 && World().last == w0.last
      requires Holding(w0, World(), pages, buf, Some(had), prev)
      modifies allocator.pages, allocator.counts, allocator.free`lists, allocator.free.node, allocator`part
      ensures allocator.Valid() && World().last == w0.last && Holding(w0, World(), pages, buf, None, 0)
    {
      hide Good, Took, Holding, Free;
      ValidGood();
      TablesFreed(w0, World(), pages, buf, had, prev);
      allocator.PageFree(had);
    }
  }

  lemma StartUser(part: Part, top: nat, m: Words, master: nat, cpu: nat, first: nat, pages: nat, q: nat, buf: nat,
                  pteFlags: Bits)
    requires UserReady(part, top, m, master, cpu) && pages > 0 && first + pages < KVA
    requires SpareTables(part, m, CpuDir(master, cpu), first, pages, q)
    ensures UserMapped(m, m, m, master, top, UserRange(m, CpuDir(master, cpu), first, pages, q), buf, pteFlags, 0)
    ensures HasLinear(top) && cpu < CPUS && InMemory(m, KernelTable(master, Slot(KVA + top)))
    ensures Missing(m, CpuDir(master, cpu), Slot(first),
      Entered(UserRange(m, CpuDir(master, cpu), first, pages, q), 0)) == 0
  {
    UserReadyToBuild(part, top, m, master, cpu, first, pages, q);
  }

  lemma NamesOf(m: Words, built: Words, cur: Words, master: nat, top: nat, r: Range, buf: nat, pteFlags: Bits, j: nat)
    requires UserMapped(m, built, cur, master, top, r, buf, pteFlags, j)
    ensures NamesTables(cur, master, r.dir)
  {
  }

  lemma SeenFits(cur: Words, master: nat, top: nat, r: Range, v: nat, t: nat)
    requires SeenAt(cur, master, top, r, v, t)
    ensures v < KVA && t != r.dir && Word(r.dir, Slot(v)) < |cur| && Word(t, v % SLOTS) < |cur|
    ensures var one := OnePage(r.dir, t, v); End(one) == v + 1 && Spanned(one) == 1 && one.pages == 1
  {
  }

  function PagesOf(length: nat): nat {
    AlignPage(length) / PAGE_SIZE
  }

  /** The ranges the function is made for: not empty, and ending below the kernel half in true
      arithmetic. */
  predicate RangeOk(virt: nat, length: nat) {
    AlignPage(length) > 0 && virt + AlignPage(length) < KVA * PAGE_SIZE
  }

  /** They are the ranges of at least a byte that end at or before the last page of the user half. */
  lemma RangeOkIff(virt: nat, length: nat)
    requires virt % 4096 == 0 && length < ADDRESSES
    ensures RangeOk(virt, length) <==> length > 0 && virt + length <= 0x7fff_f000
  {
    PagesOfLeast(length);
  }

  lemma RangePages(virt: nat, length: nat)
    requires virt % PAGE_SIZE == 0 && RangeOk(virt, length)
    ensures var first, pages := virt / PAGE_SIZE, PagesOf(length); pages > 0 && first + pages < KVA
  {
    var first, pages := virt / PAGE_SIZE, PagesOf(length);
    assert AlignPage(length) == pages * PAGE_SIZE && virt == first * PAGE_SIZE;
  }

  /** The number of pages is the least that holds the length; from the last page of the 32-bit
      numbers on, rounding up wraps around to none. */
  lemma PagesOfLeast(length: nat)
    requires length < ADDRESSES
    ensures length <= 0xffff_f000 ==> length <= PagesOf(length) * 4096 && AlignPage(length) == PagesOf(length) * 4096
    ensures length <= 0xffff_f000 ==> forall n: nat :: length <= n * 4096 ==> PagesOf(length) <= n
    ensures length > 0xffff_f000 ==> PagesOf(length) == AlignPage(length) == 0
  {
  }

  /** A range that the function is made for: its pages are those that hold a byte of it. */
  lemma PagesOfBytes(virt: nat, length: nat, v: nat)
    requires virt % 4096 == 0 && RangeOk(virt, length) && length < ADDRESSES
    ensures virt / 4096 <= v < virt / 4096 + PagesOf(length) <==>
            exists b: nat :: virt <= b < virt + length && b / 4096 == v
  {
    PagesOfLeast(length);
    if virt / 4096 <= v < virt / 4096 + PagesOf(length) {
      assert virt <= v * 4096 < virt + length && (v * 4096) / 4096 == v;
    }
  }

  /** Whenever the lock is taken, the directories and tables are in order and the tables that will
      be taken are frames of the block for tables (TakesOwnFramesIff says when). */
  ghost predicate AlwaysReady(part: Part, top: nat, m: Words, master: nat, cpu: nat, first: nat, pages: nat,
                              fs: seq<Filling>) {
    pages > 0 && forall k: nat :: k <= |fs| ==> var mk := FilledTo(m, CpuDir(master, cpu), fs, k);
      UserReady(part, top, mk, master, cpu) && TakesOwnFrames(mk, CpuDir(master, cpu), first, pages)
  }

  /** The blocks are taken, and the mapping loop would come to a table without a linear address. */
  ghost predicate Stuck(w: World, m: Words, w': World, dir: nat, first: nat, pages: nat, g: Grant)
    requires pages > 0
  {
    && Good(w') && w'.last == w.last && Took(w.part, w'.part, Kept(m, dir, first, pages, g))
    && !InReach(g.tables, Missing(m, dir, Slot(first), Straddled(first, pages)))
  }

  /** How a call that passed the checks ends. */
  ghost predicate Outcome(w: World, m: Words, w': World, m': Words, master: nat, cpu: nat, first: nat, pages: nat,
                          pteFlags: Bits,
                          fs: seq<Filling>, code: Code, seen: nat, g: Grant)
  {
    && pages > 0 && seen <= |fs| && var ms := FilledTo(m, CpuDir(master, cpu), fs, seen);
    if code == Done then Granted(w, ms, w', m', master, cpu, first, pages, pteFlags, g)
    else if code == OutOfReach then m' == ms && Stuck(w, ms, w', CpuDir(master, cpu), first, pages, g)
    else
      && code == NoMem && m' == ms
      && OutOfMemory(w, w', pages, Missing(ms, CpuDir(master, cpu), Slot(first), Counted(pages)), g)
  }

  lemma BufFails(w: World, m: Words, master: nat, cpu: nat, first: nat, pages: nat, pteFlags: Bits, fs: seq<Filling>)
    requires Good(w) && pages > 0 && Alloc(w, NpagesToOrder(pages)).0.None?
    ensures Alloc(w, NpagesToOrder(pages)).1 == w
    ensures Outcome(w, m, w, m, master, cpu, first, pages, pteFlags, fs, NoMem, 0,
      Grant(0, 0, [], w, NpagesToOrder(pages)))
  {
    hide Good, Alloc, Took;
    AllocExact(w, NpagesToOrder(pages));
    TookNothing(w.part);
  }

  lemma BufTaken(w: World, w': World, pages: nat, buf: nat)
    requires Good(w) && pages > 0 && Alloc(w, NpagesToOrder(pages)) == (Some(buf), w')
    ensures Good(w') && w'.last == w.last && Took(w.part, w'.part, {Block(buf, NpagesToOrder(pages))})
  {
    hide Good, Alloc, Took;
    TookNothing(w.part);
    TookAlloc(w.part, w, w', {}, Block(buf, NpagesToOrder(pages)));
    assert {} + {Block(buf, NpagesToOrder(pages))} == {Block(buf, NpagesToOrder(pages))};
  }

  lemma ReadyAt(part: Part, top: nat, m: Words, master: nat, cpu: nat, first: nat, pages: nat, fs: seq<Filling>,
                k: nat)
    requires AlwaysReady(part, top, m, master, cpu, first, pages, fs) && k <= |fs| && pages > 0
    ensures var mk := FilledTo(m, CpuDir(master, cpu), fs, k);
            UserReady(part, top, mk, master, cpu) && TakesOwnFrames(mk, CpuDir(master, cpu), first, pages)
    ensures InMemory(m, CpuDir(master, cpu)) && cpu < CPUS
  {
    assert UserReady(part, top, FilledTo(m, CpuDir(master, cpu), fs, k), master, cpu);
  }

  lemma Failed(w: World, m: Words, w': World, master: nat, cpu: nat, first: nat, pages: nat, pteFlags: Bits,
               fs: seq<Filling>, seen: nat, g: Grant)
    requires pages > 0 && seen <= |fs|
    requires var ms, dir := FilledTo(m, CpuDir(master, cpu), fs, seen), CpuDir(master, cpu);
      OutOfMemory(w, w', pages, Missing(ms, dir, Slot(first), Counted(pages)), g)
    ensures Outcome(w, m, w', FilledTo(m, CpuDir(master, cpu), fs, seen), master, cpu, first, pages, pteFlags, fs,
      NoMem, seen, g)
  {
    hide OutOfMemory, FilledTo;
  }

  lemma Stopped(w: World, m: Words, w': World, master: nat, cpu: nat, first: nat, pages: nat, pteFlags: Bits,
                fs: seq<Filling>, seen: nat, g: Grant)
    requires pages > 0 && seen <= |fs|
    requires Stuck(w, FilledTo(m, CpuDir(master, cpu), fs, seen), w', CpuDir(master, cpu), first, pages, g)
    ensures Outcome(w, m, w', FilledTo(m, CpuDir(master, cpu), fs, seen), master, cpu, first, pages, pteFlags, fs,
      OutOfReach, seen, g)
  {
    hide Stuck, FilledTo;
  }

  lemma Succeeded(w: World, m: Words, w': World, m': Words, master: nat, cpu: nat, first: nat, pages: nat,
                  pteFlags: Bits,
                  fs: seq<Filling>, seen: nat, g: Grant, built: Words)
    requires pages > 0 && seen <= |fs| && Good(w') && w'.last == w.last
    requires var ms, dir := FilledTo(m, CpuDir(master, cpu), fs, seen), CpuDir(master, cpu);
      && Took(w.part, w'.part, Kept(ms, dir, first, pages, g))
      && (Missing(ms, dir, Slot(first), Counted(pages)) > 0 ==>
            Disjoint(Block(g.buf, NpagesToOrder(pages)),
              Block(g.tables, NpagesToOrder(Missing(ms, dir, Slot(first), Counted(pages))))))
      && InReach(g.tables, Missing(ms, dir, Slot(first), Straddled(first, pages)))
      && UserMapped(ms, built, m', master, Top(w.part.Keys), UserRange(ms, dir, first, pages, g.tables), g.buf,
        pteFlags, pages)
    ensures Outcome(w, m, w', m', master, cpu, first, pages, pteFlags, fs, Done, seen, g.(built := built))
  {
    hide Good, Took, Disjoint, UserMapped, FilledTo, Missing;
  }

  /** The frames for new tables were free when the call began. */
  lemma SpareKept(w: World, w': World, m: Words, dir: nat, first: nat, pages: nat, g: Grant)
    requires pages > 0 && TakesOwnFrames(m, dir, first, pages) && Took(w.part, w'.part, Kept(m, dir, first, pages, g))
    requires InReach(g.tables, Missing(m, dir, Slot(first), Straddled(first, pages)))
    ensures SpareTables(w.part, m, dir, first, pages, g.tables)
  {
    var nr := Missing(m, dir, Slot(first), Counted(pages));
    OwnFramesBound(m, dir, first, pages, Straddled(first, pages));
    if nr > 0 {
      var b := Block(g.tables, NpagesToOrder(nr));
      assert b in Kept(m, dir, first, pages, g);
      assert FreeRun(w.part, b.pfn, b.order);
      forall f: nat | g.tables <= f < g.tables + Capacity(nr) ensures f in w.part && w.part[f].place == Listed {
        BlockIsInterval(f, g.tables, b.order);
      }
    }
  }

  /** What the retry loop ends with is what the call keeps. */
  lemma HeldIsKept(w0: World, w: World, m: Words, dir: nat, first: nat, pages: nat, buf: nat, tables: Option<nat>,
                   g: Grant)
    requires pages > 0 && g.buf == buf && (tables.Some? ==> g.tables == tables.value)
    requires Holding(w0, w, pages, buf, tables, Missing(m, dir, Slot(first), Counted(pages)))
    ensures Took(w0.part, w.part, Kept(m, dir, first, pages, g))
    ensures var nr := Missing(m, dir, Slot(first), Counted(pages));
      if nr == 0 then tables == None
        else tables == Some(g.tables) && Disjoint(Block(buf, NpagesToOrder(pages)), Block(g.tables, NpagesToOrder(nr)))
  {
    hide Took, Disjoint, Missing;
    var b := Block(buf, NpagesToOrder(pages));
    assert {b} + {} == {b};
  }

  lemma HoldsNone(w0: World, w: World, pages: nat, buf: nat, prev: nat)
    requires pages > 0 && Holding(w0, w, pages, buf, None, prev)
    ensures Holding(w0, w, pages, buf, None, 0)
  {
  }

  lemma TablesHeld(w0: World, w: World, w': World, pages: nat, buf: nat, q: nat, nr: nat)
    requires Good(w) && pages > 0 && nr > 0 && Holding(w0, w, pages, buf, None, 0)
    requires Alloc(w, NpagesToOrder(nr)) == (Some(q), w')
    ensures Holding(w0, w', pages, buf, Some(q), nr)
  {
    hide Good, Took, Alloc;
    TookAlloc(w0.part, w, w', {Block(buf, NpagesToOrder(pages))}, Block(q, NpagesToOrder(nr)));
  }

  lemma TablesFreed(w0: World, w: World, pages: nat, buf: nat, q: nat, prev: nat)
    requires Good(w) && pages > 0 && Holding(w0, w, pages, buf, Some(q), prev)
    ensures Owned(w, q) && Holding(w0, Free(w, q), pages, buf, None, 0)
    ensures Good(Free(w, q)) && Free(w, q).last == w.last
  {
    var b, t := Block(buf, NpagesToOrder(pages)), Block(q, NpagesToOrder(prev));
    BlocksDiffer(b, t);
    hide Good, Took, Free;
    TookFree(w0.part, w, {b} + {t}, t);
    assert {b} + {t} - {t} == {b};
    FreeExact(w, q);
  }

  lemma BlocksDiffer(a: Block, b: Block)
    requires Disjoint(a, b)
    ensures a != b
  {
    assert Covers(a, a.pfn);
  }

  lemma TablesFail(w0: World, w: World, pages: nat, buf: nat, nr: nat)
    requires Good(w) && w.last == w0.last && pages > 0 && nr > 0 && Holding(w0, w, pages, buf, None, 0)
    requires Alloc(w, NpagesToOrder(nr)).0.None?
    ensures Alloc(w, NpagesToOrder(nr)).1 == w && Owned(w, buf)
    ensures OutOfMemory(w0, Free(w, buf), pages, nr, Grant(buf, 0, [], w, NpagesToOrder(nr)))
  {
    hide Good, Took, Free, Alloc;
    var b := Block(buf, NpagesToOrder(pages));
    AllocExact(w, NpagesToOrder(nr));
    TookFree(w0.part, w, {b}, b);
    assert {b} - {b} == {};
    FreeExact(w, buf);
  }

  /** What the call has taken so far: the block for the pages, and maybe one for prev tables. */
  ghost predicate Holding(w0: World, w: World, pages: nat, buf: nat, tables: Option<nat>, prev: nat)
    requires pages > 0
  {
    var b := Block(buf, NpagesToOrder(pages));
    if tables.None? then prev == 0 && Took(w0.part, w.part, {b})
    else
      && prev > 0 && Took(w0.part, w.part, {b} + {Block(tables.value, NpagesToOrder(prev))})
      && Disjoint(b, Block(tables.value, NpagesToOrder(prev)))
  }
}
