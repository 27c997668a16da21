/** What one call of alloc_user_page promises: all or nothing; where each user page is mapped
    afterwards; and that the frames it maps and takes for tables are its own. */
module UserTheorems {
  import opened Dyadic
  import opened Partition
  import opened BuddyMem
  import opened BuddyTheorems
  import opened PageTables
  import opened PageByPage
  import opened KernelMap
  import opened Holdings
  import opened TableDemand
  import opened UserPages
  import opened UserSpace

  /** Lacking memory, the call leaves the translations as it found them, and every free list holds
      the blocks it held before the call; and the request that failed, for a block that holds the
      pages or for one that holds the tables missing, had no free run to be served from. */
  lemma ErrorChangesNothing(w: World, m: Words, w': World, m': Words, master: nat, cpu: nat, first: nat, pages: nat,
                            pteFlags: Bits,
                            fs: seq<Filling>, seen: nat, g: Grant)
    requires Good(w) && Outcome(w, m, w', m', master, cpu, first, pages, pteFlags, fs, NoMem, seen, g)
    ensures SameBlocks(w, w') && FreeFrames(w'.part) == FreeFrames(w.part)
    ensures seen <= |fs| && var dir := CpuDir(master, cpu);
            forall v: nat :: Translate(m', dir, v) == Translate(FilledTo(m, dir, fs, seen), dir, v)
    ensures Good(g.world) && Alloc(g.world, g.asked).0.None?
    ensures var dir := CpuDir(master, cpu);
      var n := if g.world == w && g.asked == NpagesToOrder(pages) then pages
        else Missing(FilledTo(m, dir, fs, seen), dir, Slot(first), Counted(pages));
      n > 0 && n <= Pow2(g.asked) && forall k: nat :: n <= Pow2(k) ==> g.asked <= k
  {
    hide Good, Alloc, FilledTo, Missing, NpagesToOrder, Took, SomeFreeRun;
    TookNothingRestores(w, w');
    AllocExact(g.world, g.asked);
    var dir := CpuDir(master, cpu);
    var nr := Missing(FilledTo(m, dir, fs, seen), dir, Slot(first), Counted(pages));
    if nr > 0 { OrderIsCeilLog2(nr); }
    OrderIsCeilLog2(pages);
  }

  /** The words of user tables are not noise. */
  lemma TableWordQuiet(master: nat, top: nat, cpu: nat, t: nat, x: nat)
    requires cpu < CPUS && x < SLOTS && !KernelFrame(master, top, t)
    ensures !Noise(master, top, CpuDir(master, cpu), Word(t, x))
  {
    assert Word(t, x) / SLOTS == t;
  }

  lemma DirWordQuiet(master: nat, top: nat, cpu: nat, d: nat, x: nat)
    requires cpu < CPUS && d < CPUS && x < SLOTS && (d != cpu || x < KSLOT)
    ensures !Noise(master, top, CpuDir(master, cpu), Word(CpuDir(master, d), x))
  {
    assert Word(CpuDir(master, d), x) / SLOTS == CpuDir(master, d);
  }

  /** A successful call: the CPU, the range in pages, the flags, and the blocks it took. */
  datatype Call = Call(cpu: nat, first: nat, pages: nat, pteFlags: Bits, g: Grant)

  function Dir(master: nat, c: Call): nat { CpuDir(master, c.cpu) }

  function Needed(m: Words, master: nat, c: Call): nat {
    Missing(m, Dir(master, c), Slot(c.first), Counted(c.pages))
  }

  function KeptBy(m: Words, master: nat, c: Call): set<Block>
    requires c.pages > 0
  {
    Kept(m, Dir(master, c), c.first, c.pages, c.g)
  }

  function RangeOf(m: Words, master: nat, c: Call): Range
    requires c.pages > 0
  {
    UserRange(m, Dir(master, c), c.first, c.pages, c.g.tables)
  }

  /** A granted call, with what it was granted from. */
  ghost predicate CallGranted(w: World, m: Words, w': World, m': Words, master: nat, c: Call) {
    && Good(w) && c.pages > 0 && c.first + c.pages < KVA && TakesOwnFrames(m, Dir(master, c), c.first, c.pages)
    && UserReady(w.part, Top(w.part.Keys), m, master, c.cpu)
      && Granted(w, m, w', m', master, c.cpu, c.first, c.pages, c.pteFlags, c.g)
  }

  lemma ServedBlocks(w: World, m: Words, w': World, m': Words, master: nat, c: Call)
    requires CallGranted(w, m, w', m', master, c)
    ensures c.pages > 0 && TakesOwnFrames(m, Dir(master, c), c.first, c.pages) && c.first + c.pages < KVA
    ensures Took(w.part, w'.part, KeptBy(m, master, c)) && Good(w) && Good(w') && w'.last == w.last
    ensures Needed(m, master, c) > 0 ==>
      Disjoint(Block(c.g.buf, NpagesToOrder(c.pages)), Block(c.g.tables, NpagesToOrder(Needed(m, master, c))))
  {
    hide Good, Took, Disjoint, UserMapped, UserReady, Missing, TakesOwnFrames;
  }

  lemma ServedMemory(w: World, m: Words, w': World, m': Words, master: nat, c: Call)
    requires CallGranted(w, m, w', m', master, c)
    ensures c.pages > 0 && c.first + c.pages < KVA && UserReady(w.part, Top(w.part.Keys), m, master, c.cpu)
    ensures UserMapped(m, c.g.built, m', master, Top(w.part.Keys), RangeOf(m, master, c), c.g.buf, c.pteFlags, c.pages)
    ensures SpareTables(w.part, m, Dir(master, c), c.first, c.pages, c.g.tables)
  {
    hide Good, Took, Disjoint, UserMapped, UserReady, Missing, UserTables;
    SpareKept(w, w', m, Dir(master, c), c.first, c.pages, c.g);
  }

  /** The directory entry of slot s of any CPU's user half after the call: on the CPU of the
      call, a slot that the range meets has its table and the flags; all others are as before. */
  lemma EntryAfter(part: Part, top: nat, m: Words, m': Words, master: nat, c: Call, d: nat, s: nat)
    requires c.pages > 0 && c.first + c.pages < KVA && UserReady(part, top, m, master, c.cpu)
    requires UserMapped(m, c.g.built, m', master, top, RangeOf(m, master, c), c.g.buf, c.pteFlags, c.pages)
    requires SpareTables(part, m, Dir(master, c), c.first, c.pages, c.g.tables)
    requires d < CPUS && s < KSLOT
    ensures Word(CpuDir(master, d), s) < |m| == |m'|
    ensures var i := s - Slot(c.first); var e := m[Word(CpuDir(master, d), s)];
      m'[Word(CpuDir(master, d), s)] ==
        if d == c.cpu && 0 <= i < Straddled(c.first, c.pages)
        then PdeAfter(e, TableFor(m, Dir(master, c), Slot(c.first), c.g.tables, i), UserPde(c.pteFlags)) else e
  {
    hide NamesTables, TablesOwned, BuildReady, TablesBuilt, Missing, SpareTables;
    var r := RangeOf(m, master, c);
    DirWordQuiet(master, top, c.cpu, d, s);
    var x := Word(CpuDir(master, d), s);
    assert x / SLOTS == CpuDir(master, d);
    if d == c.cpu {
      assert x == Word(r.dir, s);
      if 0 <= s - Slot(c.first) < Spanned(r) { assert DirWord(r, s - Slot(c.first)) == x; }
    } else {
      forall i: nat | i < Spanned(r) ensures r.tables[i] != CpuDir(master, d) {
        UserTable(part, top, m, master, c.cpu, c.first, c.pages, c.g.tables, i);
      }
    }
  }

  /** Slot s of CPU d got its table from this call: the frame after those of the empty slots
      that come before it in the range. */
  ghost predicate NewTable(m: Words, master: nat, c: Call, d: nat, s: nat, t: nat)
    requires c.pages > 0
  {
    && d == c.cpu && Slot(c.first) <= s < Slot(c.first) + Straddled(c.first, c.pages)
      && At(m, Word(Dir(master, c), s)) == ZERO
    && t == c.g.tables + Missing(m, Dir(master, c), Slot(c.first), s - Slot(c.first))
  }

  /** The table of every user slot after the call: the one it had, or a new one. */
  lemma FrameAfter(w: World, m: Words, w': World, m': Words, master: nat, c: Call, d: nat, s: nat)
    requires CallGranted(w, m, w', m', master, c) && d < CPUS && s < KSLOT
    ensures Word(CpuDir(master, d), s) < |m| == |m'| && c.pages > 0
    ensures var e, e' := m[Word(CpuDir(master, d), s)], m'[Word(CpuDir(master, d), s)];
      && (e != ZERO ==> e' != ZERO && e'.frame == e.frame)
      && (e == ZERO && e' != ZERO ==> NewTable(m, master, c, d, s, e'.frame))
  {
    hide CallGranted, UserMapped, Missing, UserReady, SpareTables, RangeOf;
    ServedMemory(w, m, w', m', master, c);
    EntryAfter(w.part, Top(w.part.Keys), m, m', master, c, d, s);
    PdePresent(c.pteFlags);
    assert 0 !in ZERO.flags;
    var i := s - Slot(c.first);
    if d == c.cpu && 0 <= i < Straddled(c.first, c.pages) {
      assert At(m, Word(Dir(master, c), Slot(c.first) + i)) == m[Word(CpuDir(master, d), s)];
    }
  }

  /** A frame of a block that was taken: free before, allocated after. */
  lemma KeptFrame(w: World, w': World, taken: set<Block>, k: Block, f: nat)
    requires Took(w.part, w'.part, taken) && k in taken && k.pfn <= f < k.pfn + Pow2(k.order)
    ensures Covers(k, f) && f in w.part && f in w'.part && w.part[f].place == Listed && w'.part[f].place == Allocated
  {
    assert FreeRun(w.part, k.pfn, k.order);
    BlockIsInterval(f, k.pfn, k.order);
    assert Covers(k, f);
  }

  /** The frames that the call takes are those of two blocks, of the least orders that hold its
      pages and the tables missing. */
  lemma TakesExactly(w: World, m: Words, w': World, m': Words, master: nat, c: Call, f: nat)
    requires CallGranted(w, m, w', m', master, c) && f in w.part
    ensures f in w'.part && c.pages > 0
    ensures var nr := Needed(m, master, c);
      w.part[f].place == Listed && w'.part[f].place != Listed <==>
      c.g.buf <= f < c.g.buf + Pow2(NpagesToOrder(c.pages)) ||
      (nr > 0 && c.g.tables <= f < c.g.tables + Pow2(NpagesToOrder(nr)))
  {
    hide CallGranted, Disjoint, Missing, Good, NpagesToOrder, FreeRun;
    ServedBlocks(w, m, w', m', master, c);
    var b := Block(c.g.buf, NpagesToOrder(c.pages));
    TakenInterval(w, w', KeptBy(m, master, c), b, f);
    var nr := Needed(m, master, c);
    if nr > 0 { TakenInterval(w, w', KeptBy(m, master, c), Block(c.g.tables, NpagesToOrder(nr)), f); }
  }

  lemma TakenInterval(w: World, w': World, taken: set<Block>, k: Block, f: nat)
    requires Took(w.part, w'.part, taken) && k in taken
    ensures Covers(k, f) <==> k.pfn <= f < k.pfn + Pow2(k.order)
    ensures Covers(k, f) ==> f in w.part && w.part[f].place == Listed
  {
    assert FreeRun(w.part, k.pfn, k.order);
    BlockIsInterval(f, k.pfn, k.order);
  }

  lemma NewPageFrame(w: World, m: Words, w': World, m': Words, master: nat, c: Call, f: nat)
    requires CallGranted(w, m, w', m', master, c) && c.g.buf <= f < c.g.buf + c.pages
    ensures f in w.part && f in w'.part && w.part[f].place == Listed && w'.part[f].place == Allocated
    ensures Covers(Block(c.g.buf, NpagesToOrder(c.pages)), f)
  {
    hide CallGranted, Took, Disjoint, Missing, Good;
    ServedBlocks(w, m, w', m', master, c);
    var b := Block(c.g.buf, NpagesToOrder(c.pages));
    assert b in KeptBy(m, master, c);
    OrderIsCeilLog2(c.pages);
    KeptFrame(w, w', KeptBy(m, master, c), b, f);
  }

  /** A new table: free before, allocated after, and not a frame of the block for pages. */
  lemma NewTableFrame(w: World, m: Words, w': World, m': Words, master: nat, c: Call, d: nat, s: nat, t: nat)
    requires CallGranted(w, m, w', m', master, c) && c.pages > 0 && NewTable(m, master, c, d, s, t)
    ensures t in w.part && t in w'.part && w.part[t].place == Listed && w'.part[t].place == Allocated
    ensures !Covers(Block(c.g.buf, NpagesToOrder(c.pages)), t)
  {
    hide CallGranted, Took, Missing, Good;
    ServedBlocks(w, m, w', m', master, c);
    var nr := Needed(m, master, c);
    MissingGrows(m, Dir(master, c), Slot(c.first), s - Slot(c.first), Straddled(c.first, c.pages));
    OwnFramesBound(m, Dir(master, c), c.first, c.pages, Straddled(c.first, c.pages));
    var k := Block(c.g.tables, NpagesToOrder(nr));
    assert k in KeptBy(m, master, c);
    KeptFrame(w, w', KeptBy(m, master, c), k, t);
  }

  lemma NewTableInReach(w: World, m: Words, w': World, m': Words, master: nat, c: Call, d: nat, s: nat, t: nat)
    requires CallGranted(w, m, w', m', master, c) && c.pages > 0 && NewTable(m, master, c, d, s, t)
    ensures HasLinear(t)
  {
    hide CallGranted, Took, Missing, Good, UserMapped, UserReady;
    ServedMemory(w, m, w', m', master, c);
    MissingGrows(m, Dir(master, c), Slot(c.first), s - Slot(c.first), Straddled(c.first, c.pages));
  }

  /** A call ends out of reach only when some frame that is free when it begins has no linear address. */
  lemma ReachableUnlessHighFree(w: World, m: Words, w': World, m': Words, master: nat, cpu: nat, first: nat, pages: nat,
                                pteFlags: Bits, fs: seq<Filling>, code: Code, seen: nat, g: Grant)
    requires Outcome(w, m, w', m', master, cpu, first, pages, pteFlags, fs, code, seen, g)
    requires pages > 0 && seen <= |fs| &&
      TakesOwnFrames(FilledTo(m, CpuDir(master, cpu), fs, seen), CpuDir(master, cpu), first, pages)
    requires forall f :: f in w.part && w.part[f].place == Listed ==> HasLinear(f)
    ensures code != OutOfReach
  {
    hide Good, Missing, FilledTo;
    if code == OutOfReach {
      TakenInReach(w, FilledTo(m, CpuDir(master, cpu), fs, seen), w', CpuDir(master, cpu), first, pages, g);
    }
  }

  lemma TakenInReach(w: World, m: Words, w': World, dir: nat, first: nat, pages: nat, g: Grant)
    requires pages > 0 && TakesOwnFrames(m, dir, first, pages) && Took(w.part, w'.part, Kept(m, dir, first, pages, g))
    requires forall f :: f in w.part && w.part[f].place == Listed ==> HasLinear(f)
    ensures InReach(g.tables, Missing(m, dir, Slot(first), Straddled(first, pages)))
  {
    hide Took, Missing;
    var n, nr := Missing(m, dir, Slot(first), Straddled(first, pages)), Missing(m, dir, Slot(first), Counted(pages));
    OwnFramesBound(m, dir, first, pages, Straddled(first, pages));
    if n > 0 {
      var k := Block(g.tables, NpagesToOrder(nr));
      assert k in Kept(m, dir, first, pages, g);
      KeptFrame(w, w', Kept(m, dir, first, pages, g), k, g.tables + n - 1);
    }
  }

  /** Two requests for one frame, one after the other. */
  ghost function TwoFrames(w: World): (r: (Option<nat>, Option<nat>, World))
    requires Good(w)
  {
    AllocExact(w, 0);
    (Alloc(w, 0).0, Alloc(Alloc(w, 0).1, 0).0, Alloc(Alloc(w, 0).1, 0).1)
  }

  /** A one-page call at an empty slot, with nobody else about, ends out of reach when the second
      frame that page_alloc hands out has no linear address. */
  lemma SecondFrameDecides(w: World, m: Words, master: nat, cpu: nat, first: nat, pteFlags: Bits, b: nat, t: nat,
                           w2: World)
    requires Good(w) && TwoFrames(w) == (Some(b), Some(t), w2) && !HasLinear(t)
    requires At(m, Word(CpuDir(master, cpu), Slot(first))) == ZERO
    ensures Outcome(w, m, w2, m, master, cpu, first, 1, pteFlags, [], OutOfReach, 0, Grant(b, t, [], w, 0))
  {
    hide Good, Alloc, Took, SomeFreeRun;
    var dir, g := CpuDir(master, cpu), Grant(b, t, [], w, 0);
    AllocExact(w, 0);
    TookNothing(w.part);
    TookAlloc(w.part, w, Alloc(w, 0).1, {}, Block(b, 0));
    assert {} + {Block(b, 0)} == {Block(b, 0)};
    TookAlloc(w.part, Alloc(w, 0).1, w2, {Block(b, 0)}, Block(t, 0));
    OneTable(m, dir, first, g);
    assert FilledTo(m, dir, [], 0) == m;
    hide Stuck;
    Stopped(w, m, w2, master, cpu, first, 1, pteFlags, [], 0, g);
  }

  lemma OneTable(m: Words, dir: nat, first: nat, g: Grant)
    requires At(m, Word(dir, Slot(first))) == ZERO
    ensures Missing(m, dir, Slot(first), Straddled(first, 1)) == 1
    ensures Kept(m, dir, first, 1, g) == {Block(g.buf, 0)} + {Block(g.tables, 0)}
  {
    assert HighBit(1) == LowBit(1) == 0 && NpagesToOrder(1) == 0;
    assert Missing(m, dir, Slot(first), 1) == Missing(m, dir, Slot(first), 0) + 1;
  }

  /** What was allocated before the call still is. */
  lemma StillAllocated(w: World, w': World, taken: set<Block>, f: nat)
    requires Took(w.part, w'.part, taken) && f in w.part && w.part[f].place == Allocated
    ensures f in w'.part && w'.part[f].place == Allocated
  {
    forall k | k in taken ensures !Covers(k, f) {
      assert FreeRun(w.part, k.pfn, k.order);
    }
  }

  /** User slots that the range does not meet keep tables of their own. */
  lemma UserOwnTable(part: Part, top: nat, m: Words, master: nat, c: Call, v: nat)
    requires c.pages > 0 && c.first + c.pages < KVA && UserReady(part, top, m, master, c.cpu) && v < KVA
    requires SpareTables(part, m, Dir(master, c), c.first, c.pages, c.g.tables)
    ensures OwnTable(m, RangeOf(m, master, c), v)
  {
    hide NamesTables, SpareTables, Missing;
    var r := RangeOf(m, master, c);
    if !Met(r, v) && Pde(m, r.dir, v) != ZERO {
      forall i: nat | i < Spanned(r) ensures r.tables[i] != Pde(m, r.dir, v).frame {
        UserTable(part, top, m, master, c.cpu, c.first, c.pages, c.g.tables, i);
        assert Word(r.dir, Slot(c.first) + i) < |m| && Slot(v) != Slot(c.first) + i;
      }
    }
  }

  lemma TranslateOffNoise(a: Words, b: Words, master: nat, top: nat, cpu: nat, v: nat)
    requires cpu < CPUS && v < KVA && SameOff(master, top, CpuDir(master, cpu), a, b)
    requires var e := Pde(a, CpuDir(master, cpu), v); e == ZERO || !KernelFrame(master, top, e.frame)
    ensures Translate(b, CpuDir(master, cpu), v) == Translate(a, CpuDir(master, cpu), v)
  {
    DirWordQuiet(master, top, cpu, cpu, Slot(v));
    var e := Pde(a, CpuDir(master, cpu), v);
    assert 0 !in ZERO.flags;
    if e != ZERO { TableWordQuiet(master, top, cpu, e.frame, v % SLOTS); }
  }

  /** Every user page after a successful call: page i of the request translates to frame i of
      the block, user, present and with the flags asked for; a page beside it in a slot that is
      met keeps its table word; every other page is untouched. */
  lemma UserTranslates(w: World, m: Words, w': World, m': Words, master: nat, c: Call, v: nat)
    requires CallGranted(w, m, w', m', master, c) && v < KVA
    ensures c.pages > 0 && RangeOf(m, master, c).start == c.first
    ensures var r, dir := RangeOf(m, master, c), Dir(master, c);
      Translate(m', dir, v) ==
        if InRange(r, v) then Some(Entry(c.g.buf + (v - c.first), UserPte(c.pteFlags)))
        else if Met(r, v)
          then Combine(PdeAfter(Pde(m, dir, v), TableOf(r, v), UserPde(c.pteFlags)),
            At(m, Word(TableOf(r, v), v % SLOTS)))
        else Translate(m, dir, v)
  {
    hide CallGranted, UserReady, SpareTables, UserTables, BuildReady, BuiltTo, SameOff, NamesTables, Translate, UserPde,
      UserPte;
    ServedMemory(w, m, w', m', master, c);
    var r := RangeOf(m, master, c);
    UserOwnTable(w.part, Top(w.part.Keys), m, master, c, v);
    PageNotKernel(w.part, Top(w.part.Keys), m, m', master, c, v);
    TranslateOffNoise(c.g.built, m', master, Top(w.part.Keys), c.cpu, v);
    assert Entered(r, c.pages) == Spanned(r);
    BuildTranslates(m, c.g.built, r, c.g.buf, UserPde(c.pteFlags), UserPte(c.pteFlags), c.pages, v);
    if InRange(r, v) {
      NewPageFrame(w, m, w', m', master, c, c.g.buf + (v - c.first));
      FullRights(Pde(m, r.dir, v), TableOf(r, v), c.pteFlags, c.g.buf + (v - c.first));
      FrameBound(w, c.g.buf + (v - c.first), m, master, c.cpu);
    }
  }

  /** What a page of the call lets a user do, flag by flag: it is present and the user's, it may be
      written exactly when that was asked for, and all other flags are those asked for. */
  lemma UserPageRights(w: World, m: Words, w': World, m': Words, master: nat, c: Call, v: nat)
    requires CallGranted(w, m, w', m', master, c) && c.first <= v < c.first + c.pages
    ensures var e := Translate(m', master + 1 + c.cpu, v);
      && e.Some? && e.value.frame == c.g.buf + (v - c.first)
      && 0 in e.value.flags && 2 in e.value.flags && (1 in e.value.flags <==> 1 in c.pteFlags)
      && forall i: nat :: i != 0 && i != 2 ==> (i in e.value.flags <==> i in c.pteFlags)
  {
    hide Granted, Good, UserReady, TakesOwnFrames, Translate;
    UserTranslates(w, m, w', m', master, c, v);
  }

  /** From the bytes of the request: the page of byte virt + i is in the frame that holds byte i of
      the block, and so for all bytes of the last page. */
  lemma UserBytes(w: World, m: Words, w': World, m': Words, master: nat, c: Call, virt: nat, length: nat, b: nat)
    requires CallGranted(w, m, w', m', master, c) && virt % 4096 == 0 && RangeOk(virt, length)
    requires c.first == virt / PAGE_SIZE && c.pages == PagesOf(length) && length < ADDRESSES
    requires virt <= b < virt + length
    ensures var e := Translate(m', master + 1 + c.cpu, b / 4096);
      && e.Some? && e.value.frame == (c.g.buf * 4096 + (b - virt)) / 4096 && 0 in e.value.flags && 2 in e.value.flags
      && (1 in e.value.flags <==> 1 in c.pteFlags)
  {
    hide CallGranted, Translate;
    PagesOfBytes(virt, length, b / 4096);
    UserPageRights(w, m, w', m', master, c, b / 4096);
  }

  /** The directory entry of a slot of the range grants users the slot, and writing where the call
      asks for it or it was granted before; its other flags are as they were. */
  lemma UserSlotRights(w: World, m: Words, w': World, m': Words, master: nat, c: Call, v: nat)
    requires CallGranted(w, m, w', m', master, c) && c.first <= v < c.first + c.pages
    ensures var e, e' := Pde(m, master + 1 + c.cpu, v), Pde(m', master + 1 + c.cpu, v);
      && 0 in e'.flags && 2 in e'.flags && (1 in e'.flags <==> 1 in c.pteFlags || 1 in e.flags)
      && (e != ZERO ==> e'.frame == e.frame)
      && forall i: nat :: i > 2 ==> (i in e'.flags <==> i in e.flags)
  {
    hide Granted, Good, UserReady, TakesOwnFrames, UserMapped, SpareTables;
    ServedMemory(w, m, w', m', master, c);
    ReadyDirectory(w.part, Top(w.part.Keys), m, master, c.cpu);
    EntryAfter(w.part, Top(w.part.Keys), m, m', master, c, c.cpu, Slot(v));
  }

  lemma FrameBound(w: World, f: nat, m: Words, master: nat, cpu: nat)
    requires UserReady(w.part, Top(w.part.Keys), m, master, cpu) && f in w.part
    ensures f < FRAMES
  {
  }

  lemma FullRights(e: Entry, t: nat, pteFlags: Bits, f: nat)
    ensures Combine(PdeAfter(e, t, UserPde(pteFlags)), Entry(f, UserPte(pteFlags))) == Some(Entry(f, UserPte(pteFlags)))
  {
    var pde := PdeAfter(e, t, UserPde(pteFlags));
    assert UserPte(pteFlags) - (RIGHTS - pde.flags) == UserPte(pteFlags);
  }

  /** The tables that user slots name after the build are not kernel frames. */
  lemma PageNotKernel(part: Part, top: nat, m: Words, m': Words, master: nat, c: Call, v: nat)
    requires c.pages > 0 && c.first + c.pages < KVA && UserReady(part, top, m, master, c.cpu) && v < KVA
    requires SpareTables(part, m, Dir(master, c), c.first, c.pages, c.g.tables)
    requires UserMapped(m, c.g.built, m', master, top, RangeOf(m, master, c), c.g.buf, c.pteFlags, c.pages)
    ensures c.cpu < CPUS && var e := Pde(c.g.built, Dir(master, c), v); e == ZERO || !KernelFrame(master, top, e.frame)
  {
    hide NamesTables, TablesBuilt, RestKept, SameOff, SpareTables, Missing, UserPde, UserPte;
    var r := RangeOf(m, master, c);
    assert Word(r.dir, Slot(v)) < |m| && Entered(r, c.pages) == Spanned(r);
    if Met(r, v) {
      var i := Slot(v) - Slot(c.first);
      UserTable(part, top, m, master, c.cpu, c.first, c.pages, c.g.tables, i);
      assert DirWord(r, i) == Word(r.dir, Slot(v));
    }
  }

  /** A page a CPU maps for its user. */
  datatype UserPage = UserPage(cpu: nat, page: nat)

  /** The allocator, the paging memory, the CPUs whose user halves belong to alloc_user_page, and the
      frame of every user page that a successful call has mapped. */
  datatype Space = Space(w: World, m: Words, live: set<nat>, pages: map<UserPage, nat>)

  /** Slot s of the user half of CPU c, a live one, is in use. */
  predicate InUse(m: Words, master: nat, live: set<nat>, c: nat, s: nat) {
    c in live && c < CPUS && s < KSLOT && Word(CpuDir(master, c), s) < |m| && m[Word(CpuDir(master, c), s)] != ZERO
  }

  /** The table that slot s of CPU c names. */
  function TableIn(m: Words, master: nat, c: nat, s: nat): nat {
    At(m, Word(CpuDir(master, c), s)).frame
  }

  /** Every table is an allocated frame with a linear address, in one slot of one live CPU. */
  ghost predicate TablesApart(part: Part, m: Words, master: nat, live: set<nat>) {
    && (forall c: nat, s: nat {:trigger InUse(m, master, live, c, s)} :: InUse(m, master, live, c, s) ==>
          TableIn(m, master, c, s) in part && part[TableIn(m, master, c, s)].place == Allocated
          && HasLinear(TableIn(m, master, c, s)))
    && (forall c: nat, s: nat, d: nat, t: nat {:trigger InUse(m, master, live, c, s), InUse(m, master, live, d, t)} ::
          InUse(m, master, live, c, s) && InUse(m, master, live, d, t) && (c != d || s != t) ==>
            TableIn(m, master, c, s) != TableIn(m, master, d, t))
  }

  /** The page is mapped to frame f, which is allocated and no table of any live CPU. */
  ghost predicate PageOk(part: Part, m: Words, master: nat, live: set<nat>, k: UserPage, f: nat) {
    && k.cpu in live && k.cpu < CPUS && k.page < KVA && f in part && part[f].place == Allocated
    && Translate(m, CpuDir(master, k.cpu), k.page).Some? && Translate(m, CpuDir(master, k.cpu), k.page).value.frame == f
    && forall c: nat, s: nat {:trigger InUse(m, master, live, c, s)} ::
      InUse(m, master, live, c, s) ==> TableIn(m, master, c, s) != f
  }

  /** The tables in use can be walked. */
  ghost predicate TablesShown(m: Words, master: nat, live: set<nat>) {
    forall c: nat, s: nat {:trigger InUse(m, master, live, c, s)} ::
      InUse(m, master, live, c, s) ==> PRESENT <= m[Word(CpuDir(master, c), s)].flags
  }

  /** The frame of user page k of a live CPU, as the processor finds it. */
  function PageFrame(m: Words, master: nat, live: set<nat>, k: UserPage): Option<nat> {
    if k.cpu in live && k.cpu < CPUS && k.page < KVA && Translate(m, CpuDir(master, k.cpu), k.page).Some?
    then Some(Translate(m, CpuDir(master, k.cpu), k.page).value.frame) else None
  }

  /** Every user page that the directory of a live CPU maps was mapped by a call. */
  ghost predicate Recorded(m: Words, master: nat, live: set<nat>, pages: map<UserPage, nat>) {
    forall k {:trigger PageFrame(m, master, live, k)} :: PageFrame(m, master, live, k).Some? ==> k in pages
  }

  /** No frame serves two purposes. */
  ghost predicate Exclusive(sp: Space, master: nat) {
    && Good(sp.w) && FramesLaid(sp.w.part, Top(sp.w.part.Keys), sp.m, master)
    && (forall c: nat :: c in sp.live ==> UserReady(sp.w.part, Top(sp.w.part.Keys), sp.m, master, c))
    && TablesApart(sp.w.part, sp.m, master, sp.live) && TablesShown(sp.m, master, sp.live)
      && Recorded(sp.m, master, sp.live, sp.pages)
    && (forall k :: k in sp.pages ==> PageOk(sp.w.part, sp.m, master, sp.live, k, sp.pages[k]))
    && (forall k, l :: k in sp.pages && l in sp.pages && k != l ==> sp.pages[k] != sp.pages[l])
  }

  /** The table of a slot in use after the call is the one it had, or a new one. */
  lemma TableAfter(w: World, m: Words, w': World, m': Words, master: nat, live: set<nat>, c: Call, d: nat, s: nat)
    requires CallGranted(w, m, w', m', master, c) && InUse(m', master, live, d, s) && c.pages > 0
    ensures if InUse(m, master, live, d, s) then TableIn(m', master, d, s) == TableIn(m, master, d, s)
            else NewTable(m, master, c, d, s, TableIn(m', master, d, s))
  {
    hide CallGranted, NewTable;
    FrameAfter(w, m, w', m', master, c, d, s);
  }

  lemma TablesStayApart(w: World, m: Words, w': World, m': Words, master: nat, live: set<nat>, c: Call)
    requires CallGranted(w, m, w', m', master, c) && TablesApart(w.part, m, master, live)
    ensures TablesApart(w'.part, m', master, live)
  {
    hide CallGranted, Took, Good;
    ServedBlocks(w, m, w', m', master, c);
    forall d: nat, s: nat | InUse(m', master, live, d, s)
      ensures TableIn(m', master, d, s) in w'.part && w'.part[TableIn(m', master, d, s)].place == Allocated
      ensures HasLinear(TableIn(m', master, d, s))
    {
      var t := TableIn(m', master, d, s);
      TableAfter(w, m, w', m', master, live, c, d, s);
      if InUse(m, master, live, d, s) {
        StillAllocated(w, w', KeptBy(m, master, c), t);
      } else {
        NewTableFrame(w, m, w', m', master, c, d, s, t);
        NewTableInReach(w, m, w', m', master, c, d, s, t);
      }
    }
    forall d: nat, s: nat, e: nat, t: nat | InUse(m', master, live, d, s) && InUse(m', master, live, e, t)
      && (d != e || s != t)
      ensures TableIn(m', master, d, s) != TableIn(m', master, e, t)
    {
      TwoTables(w, m, w', m', master, live, c, d, s, e, t);
    }
  }

  lemma TwoTables(w: World, m: Words, w': World, m': Words, master: nat, live: set<nat>, c: Call, d: nat, s: nat,
                  e: nat, t: nat)
    requires CallGranted(w, m, w', m', master, c) && TablesApart(w.part, m, master, live) && c.pages > 0
    requires InUse(m', master, live, d, s) && InUse(m', master, live, e, t) && (d != e || s != t)
    ensures TableIn(m', master, d, s) != TableIn(m', master, e, t)
  {
    hide CallGranted, Missing;
    TableAfter(w, m, w', m', master, live, c, d, s);
    TableAfter(w, m, w', m', master, live, c, e, t);
    if !InUse(m, master, live, d, s) { NewTableFrame(w, m, w', m', master, c, d, s, TableIn(m', master, d, s)); }
    if !InUse(m, master, live, e, t) { NewTableFrame(w, m, w', m', master, c, e, t, TableIn(m', master, e, t)); }
    if !InUse(m, master, live, d, s) && !InUse(m, master, live, e, t) {
      if s < t {
        MissingGrows(m, Dir(master, c), Slot(c.first), s - Slot(c.first), t - Slot(c.first));
      } else {
        MissingGrows(m, Dir(master, c), Slot(c.first), t - Slot(c.first), s - Slot(c.first));
      }
    }
  }

  /** A word outside the tables of the range, the CPU's directory and the noise is as it was. */
  lemma WordKept(part: Part, top: nat, m: Words, m': Words, master: nat, c: Call, x: nat)
    requires c.pages > 0 && c.first + c.pages < KVA && UserReady(part, top, m, master, c.cpu)
    requires UserMapped(m, c.g.built, m', master, top, RangeOf(m, master, c), c.g.buf, c.pteFlags, c.pages)
    requires x < |m| && x / SLOTS != Dir(master, c) && x / SLOTS !in RangeOf(m, master, c).tables
    requires !Noise(master, top, Dir(master, c), x)
    ensures |m'| == |m| && m'[x] == m[x]
  {
    hide NamesTables, TablesOwned, BuildReady, TablesBuilt, DirBuilt, UserTables;
    var r := RangeOf(m, master, c);
    assert r.tables[..Spanned(r)] == r.tables;
  }

  /** The directory of another CPU is not written. */
  lemma OtherDirectory(w: World, m: Words, w': World, m': Words, master: nat, c: Call, d: nat, s: nat)
    requires CallGranted(w, m, w', m', master, c) && d < CPUS && d != c.cpu && s < SLOTS
    requires Word(CpuDir(master, d), s) < |m|
    ensures |m'| == |m| && m'[Word(CpuDir(master, d), s)] == m[Word(CpuDir(master, d), s)]
  {
    hide CallGranted, SpareTables, UserTables, UserMapped, NamesTables, TablesOwned;
    ServedMemory(w, m, w', m', master, c);
    var r := RangeOf(m, master, c);
    DirWordQuiet(master, Top(w.part.Keys), c.cpu, d, s);
    assert Word(CpuDir(master, d), s) / SLOTS == CpuDir(master, d);
    forall i: nat | i < Spanned(r) ensures r.tables[i] != CpuDir(master, d) {
      UserTable(w.part, Top(w.part.Keys), m, master, c.cpu, c.first, c.pages, c.g.tables, i);
    }
    WordKept(w.part, Top(w.part.Keys), m, m', master, c, Word(CpuDir(master, d), s));
  }

  /** So a page of another CPU translates as before. */
  lemma OtherCpuTranslates(w: World, m: Words, w': World, m': Words, master: nat, live: set<nat>, c: Call, d: nat,
                           v: nat)
    requires CallGranted(w, m, w', m', master, c) && TablesApart(w.part, m, master, live)
    requires UserReady(w.part, Top(w.part.Keys), m, master, d)
    requires d in live && c.cpu in live && d != c.cpu && v < KVA
    ensures Translate(m', CpuDir(master, d), v) == Translate(m, CpuDir(master, d), v)
  {
    hide CallGranted, SpareTables, UserTables, UserMapped, NamesTables;
    ServedMemory(w, m, w', m', master, c);
    assert Word(CpuDir(master, d), Slot(v)) < |m|;
    OtherDirectory(w, m, w', m', master, c, d, Slot(v));
    assert 0 !in ZERO.flags;
    if InUse(m, master, live, d, Slot(v)) {
      var t := TableIn(m, master, d, Slot(v));
      TableNotOurs(w.part, Top(w.part.Keys), m, master, live, c, d, Slot(v));
      TableWordQuiet(master, Top(w.part.Keys), c.cpu, t, v % SLOTS);
      assert Word(t, v % SLOTS) / SLOTS == t && Word(t, v % SLOTS) < |m|;
      WordKept(w.part, Top(w.part.Keys), m, m', master, c, Word(t, v % SLOTS));
    }
  }

  lemma TableNotOurs(part: Part, top: nat, m: Words, master: nat, live: set<nat>, c: Call, d: nat, s: nat)
    requires c.pages > 0 && c.first + c.pages < KVA && UserReady(part, top, m, master, c.cpu)
    requires TablesApart(part, m, master, live) && c.cpu in live
    requires SpareTables(part, m, Dir(master, c), c.first, c.pages, c.g.tables) && InUse(m, master, live, d, s)
    requires d != c.cpu
    ensures var t := TableIn(m, master, d, s);
      t !in RangeOf(m, master, c).tables && !KernelFrame(master, top, t) && t != Dir(master, c) && t <= top
        && InMemory(m, t)
  {
    hide SpareTables, UserTables, NamesTables, TablesOwned, Missing;
    var r, t := RangeOf(m, master, c), TableIn(m, master, d, s);
    forall i: nat | i < Spanned(r) ensures r.tables[i] != t {
      UserTable(part, top, m, master, c.cpu, c.first, c.pages, c.g.tables, i);
      var x := Slot(c.first) + i;
      if At(m, Word(Dir(master, c), x)) != ZERO { assert InUse(m, master, live, c.cpu, x); }
    }
  }

  lemma ReadyAfter(w: World, m: Words, w': World, m': Words, master: nat, live: set<nat>, c: Call, d: nat)
    requires CallGranted(w, m, w', m', master, c) && TablesApart(w.part, m, master, live)
    requires UserReady(w.part, Top(w.part.Keys), m, master, d) && d in live
    ensures UserReady(w'.part, Top(w'.part.Keys), m', master, d)
  {
    hide CallGranted, SpareTables, UserTables, FramesLaid, Top, TablesApart, TablesOwned, Took;
    ServedMemory(w, m, w', m', master, c);
    ServedBlocks(w, m, w', m', master, c);
    TablesStayApart(w, m, w', m', master, live, c);
    TookKeys(w.part, w'.part, KeptBy(m, master, c));
    assert |m'| == |m|;
    StaysLaid(w.part, w'.part, Top(w.part.Keys), m, m', master);
    ApartIsOwned(w'.part, m', master, live, d);
    if d != c.cpu {
      forall s: nat | KSLOT <= s < SLOTS && Word(CpuDir(master, d), s) < |m'|
        ensures m'[Word(CpuDir(master, d), s)] == m[Word(CpuDir(master, d), s)]
      {
        OtherDirectory(w, m, w', m', master, c, d, s);
      }
    }
  }

  lemma TookKeys(a: Part, b: Part, taken: set<Block>)
    requires Took(a, b, taken)
    ensures b.Keys == a.Keys
  {
  }

  lemma ApartIsOwned(part: Part, m: Words, master: nat, live: set<nat>, d: nat)
    requires TablesApart(part, m, master, live) && d in live && d < CPUS && InMemory(m, CpuDir(master, d))
    ensures TablesOwned(part, m, CpuDir(master, d))
  {
    assert forall s: nat :: s < KSLOT && m[Word(CpuDir(master, d), s)] != ZERO ==> InUse(m, master, live, d, s);
  }

  /** A page mapped before the call, and not in its range, stays mapped to its frame. */
  lemma OldPage(w: World, m: Words, w': World, m': Words, master: nat, live: set<nat>, c: Call, k: UserPage, f: nat)
    requires CallGranted(w, m, w', m', master, c) && TablesApart(w.part, m, master, live)
    requires PageOk(w.part, m, master, live, k, f)
    requires UserReady(w.part, Top(w.part.Keys), m, master, k.cpu) && c.cpu in live
    requires !(k.cpu == c.cpu && c.first <= k.page < c.first + c.pages)
    ensures PageOk(w'.part, m', master, live, k, f)
  {
    hide CallGranted, UserReady, TablesApart, Translate, Took, Good;
    ServedBlocks(w, m, w', m', master, c);
    StillAllocated(w, w', KeptBy(m, master, c), f);
    if k.cpu != c.cpu {
      OtherCpuTranslates(w, m, w', m', master, live, c, k.cpu, k.page);
    } else {
      OwnPageKept(w, m, w', m', master, c, k.page);
    }
    forall d: nat, s: nat | InUse(m', master, live, d, s) ensures TableIn(m', master, d, s) != f {
      TableAfter(w, m, w', m', master, live, c, d, s);
      if !InUse(m, master, live, d, s) { NewTableFrame(w, m, w', m', master, c, d, s, TableIn(m', master, d, s)); }
    }
  }

  lemma OwnPageKept(w: World, m: Words, w': World, m': Words, master: nat, c: Call, v: nat)
    requires CallGranted(w, m, w', m', master, c) && v < KVA && Translate(m, Dir(master, c), v).Some?
    requires !(c.first <= v < c.first + c.pages)
    ensures Translate(m', Dir(master, c), v).Some?
    ensures Translate(m', Dir(master, c), v).value.frame == Translate(m, Dir(master, c), v).value.frame
  {
    hide CallGranted, UserReady, SpareTables, UserTables, UserPte, UserMapped, Missing;
    UserTranslates(w, m, w', m', master, c, v);
    ServedMemory(w, m, w', m', master, c);
    var r := RangeOf(m, master, c);
    assert 0 !in ZERO.flags;
    if Met(r, v) {
      UserTable(w.part, Top(w.part.Keys), m, master, c.cpu, c.first, c.pages, c.g.tables, Slot(v) - Slot(c.first));
    }
  }

  /** A page of the call is mapped to its frame of the block. */
  lemma NewPage(w: World, m: Words, w': World, m': Words, master: nat, live: set<nat>, c: Call, v: nat)
    requires CallGranted(w, m, w', m', master, c) && TablesApart(w.part, m, master, live)
    requires c.first <= v < c.first + c.pages
    requires c.cpu in live && c.cpu < CPUS
    ensures PageOk(w'.part, m', master, live, UserPage(c.cpu, v), c.g.buf + (v - c.first))
  {
    hide CallGranted, UserReady, UserTables, UserPte, UserPde, Took, Good, Missing, Combine;
    ServedBlocks(w, m, w', m', master, c);
    var f := c.g.buf + (v - c.first);
    UserTranslates(w, m, w', m', master, c, v);
    NewPageFrame(w, m, w', m', master, c, f);
    forall d: nat, s: nat | InUse(m', master, live, d, s) ensures TableIn(m', master, d, s) != f {
      TableAfter(w, m, w', m', master, live, c, d, s);
      if !InUse(m, master, live, d, s) { NewTableFrame(w, m, w', m', master, c, d, s, TableIn(m', master, d, s)); }
    }
  }
}
