/** Runs of alloc_user_page on any CPUs, with the kernel's own use of the allocator and stores of
    user and kernel code in between: no frame serves two purposes. */
module UserRuns {
  import opened Dyadic
  import opened Partition
  import opened BuddyMem
  import opened BuddyTheorems
  import opened PageTables
  import opened PageByPage
  import opened KernelMap
  import opened LinearPages
  import opened Holdings
  import opened TableDemand
  import opened UserPages
  import opened UserSpace
  import opened UserTheorems
  import L = LazyDirectory

  /** The frames that a call maps, page by page. */
  function MappedBy(c: Call): map<UserPage, nat> {
    map v: nat | c.first <= v < c.first + c.pages :: UserPage(c.cpu, v) := c.g.buf + (v - c.first)
  }

  /** What happens to the space: a call of alloc_user_page on some live CPU, which fails or succeeds,
      the kernel allocating or freeing a block for itself, stores that leave memory m, or a CPU
      going live, whose user half is zero: from then on only alloc_user_page is to write there. */
  datatype Deed =
    | Failed
    | Mapped(c: Call)
    | KernelAlloc(req: nat)
    | KernelFree(pfn: nat)
    | Stores(m: Words)
    | GoLive(cpu: nat)

  /** No frame of the block at p is a mapped user page or a user page table. */
  ghost predicate Unused(sp: Space, master: nat, p: nat)
    requires p in sp.w.part
  {
    && (forall k :: k in sp.pages && sp.pages[k] in sp.w.part ==> sp.w.part[sp.pages[k]] != sp.w.part[p])
    && (forall c: nat, s: nat {:trigger InUse(sp.m, master, sp.live, c, s)} ::
          InUse(sp.m, master, sp.live, c, s) && TableIn(sp.m, master, c, s) in sp.w.part ==>
            sp.w.part[TableIn(sp.m, master, c, s)] != sp.w.part[p])
  }

  /** The user half of CPU c's directory is zero. */
  ghost predicate UserHalfZero(m: Words, master: nat, c: nat) {
    forall s: nat {:trigger Word(CpuDir(master, c), s)} :: s < KSLOT ==> At(m, Word(CpuDir(master, c), s)) == ZERO
  }

  /** The kernel halves of the live CPUs' directories name the kernel tables. */
  ghost predicate AllNameTables(m: Words, master: nat, live: set<nat>) {
    forall c: nat {:trigger CpuDir(master, c)} :: c in live && c < CPUS ==> NamesTables(m, master, CpuDir(master, c))
  }

  /** Memory m' is m but for stores that spare what translates user pages: the user halves of the
      live CPUs' directories and the tables in use. */
  ghost predicate Spared(m: Words, m': Words, master: nat, live: set<nat>) {
    && |m'| == |m|
    && (forall c: nat, s: nat {:trigger Word(CpuDir(master, c), s)} ::
      c in live && c < CPUS && s < KSLOT && Word(CpuDir(master, c), s) < |m| ==>
          m'[Word(CpuDir(master, c), s)] == m[Word(CpuDir(master, c), s)])
    && (forall c: nat, s: nat, x: nat {:trigger InUse(m, master, live, c, s), Word(TableIn(m, master, c, s), x)} ::
          InUse(m, master, live, c, s) && x < SLOTS && Word(TableIn(m, master, c, s), x) < |m| ==>
          m'[Word(TableIn(m, master, c, s), x)] == m[Word(TableIn(m, master, c, s), x)])
  }

  ghost predicate Does(sp: Space, deed: Deed, sp': Space, master: nat) {
    match deed
    case Failed =>
      sp'.m == sp.m && sp'.live == sp.live && sp'.pages == sp.pages && Good(sp'.w) && sp'.w.last == sp.w.last
        && Took(sp.w.part, sp'.w.part, {})
    case Mapped(c) =>
      c.cpu in sp.live && c.cpu < CPUS && CallGranted(sp.w, sp.m, sp'.w, sp'.m, master, c)
      && sp'.live == sp.live && sp'.pages == sp.pages + MappedBy(c)
    case KernelAlloc(req) => Good(sp.w) && sp' == sp.(w := Alloc(sp.w, req).1)
    case KernelFree(p) => Good(sp.w) && Owned(sp.w, p) && Unused(sp, master, p) && sp' == sp.(w := Free(sp.w, p))
    case Stores(m) => Spared(sp.m, m, master, sp.live) && AllNameTables(m, master, sp.live) && sp' == sp.(m := m)
    case GoLive(c) =>
      c < CPUS && c !in sp.live && UserHalfZero(sp.m, master, c) && NamesTables(sp.m, master, CpuDir(master, c))
      && sp' == sp.(live := sp.live + {c})
  }

  /** The calls of the method are such steps. */
  lemma OutcomeIsStep(sp: Space, w': World, m': Words, master: nat, cpu: nat, first: nat, pages: nat, pteFlags: Bits,
                      code: Code, g: Grant)
    requires Good(sp.w) && UserReady(sp.w.part, Top(sp.w.part.Keys), sp.m, master, cpu) && cpu in sp.live
    requires Outcome(sp.w, sp.m, w', m', master, cpu, first, pages, pteFlags, [], code, 0, g)
    requires pages > 0 && first + pages < KVA && TakesOwnFrames(sp.m, CpuDir(master, cpu), first, pages)
    ensures code == Done ==>
      var c := Call(cpu, first, pages, pteFlags, g);
        Does(sp, Mapped(c), Space(w', m', sp.live, sp.pages + MappedBy(c)), master)
    ensures code == NoMem ==> Does(sp, Failed, Space(w', m', sp.live, sp.pages), master)
  {
    assert cpu < CPUS;
    hide Good, Took, UserReady, Granted, Stuck, Top, FramesLaid, SomeFreeRun, TakesOwnFrames;
    assert FilledTo(sp.m, CpuDir(master, cpu), [], 0) == sp.m;
  }

  /** The tables that a call takes for empty slots hold no present word beside its range. */
  ghost predicate Clean(m: Words, master: nat, c: Call)
    requires c.pages > 0
  {
    var r := RangeOf(m, master, c);
    forall v: nat {:trigger Met(r, v)} :: v < KVA && Met(r, v) && !InRange(r, v) && Pde(m, r.dir, v) == ZERO ==>
      !(PRESENT <= At(m, Word(TableOf(r, v), v % SLOTS)).flags)
  }

  /** The deed is no call, or one that takes clean tables. */
  ghost predicate TakesClean(sp: Space, deed: Deed, master: nat) {
    deed.Mapped? ==> deed.c.pages > 0 && Clean(sp.m, master, deed.c)
  }

  /** Every deed keeps the frames exclusive, but for a call whose new tables are not clean, which
      does not: alloc_user_page does not clear the tables it takes. */
  lemma DeedKeepsExclusiveIff(sp: Space, deed: Deed, sp': Space, master: nat)
    requires Exclusive(sp, master) && Does(sp, deed, sp', master)
    ensures Exclusive(sp', master) <==> TakesClean(sp, deed, master)
  {
    hide CallGranted, Good, UserReady, TablesApart, TablesShown, Recorded, PageOk, Alloc, Free, Took, Unused, Spared,
      Clean, Exclusive;
    match deed
    case Failed => ErrorKeepsExclusive(sp, sp', master);
    case Mapped(c) => CallKeepsExclusiveIff(sp, c, sp', master);
    case KernelAlloc(req) => KernelAllocKeepsExclusive(sp, req, sp', master);
    case KernelFree(p) => KernelFreeKeepsExclusive(sp, p, sp', master);
    case Stores(m) => StoresKeepExclusive(sp, m, master);
    case GoLive(c) => GoLiveKeepsExclusive(sp, c, sp', master);
  }

  lemma CallKeepsExclusiveIff(sp: Space, c: Call, sp': Space, master: nat)
    requires Exclusive(sp, master) && Does(sp, Mapped(c), sp', master)
    ensures c.pages > 0 && (Exclusive(sp', master) <==> Clean(sp.m, master, c))
  {
    hide CallGranted, Good, UserReady, TablesApart, TablesShown, Recorded, PageOk, Clean;
    ServedBlocks(sp.w, sp.m, sp'.w, sp'.m, master, c);
    TablesStayApart(sp.w, sp.m, sp'.w, sp'.m, master, sp.live, c);
    TablesStayShown(sp.w, sp.m, sp'.w, sp'.m, master, sp.live, c);
    forall d: nat | d in sp.live ensures UserReady(sp'.w.part, Top(sp'.w.part.Keys), sp'.m, master, d) {
      ReadyAfter(sp.w, sp.m, sp'.w, sp'.m, master, sp.live, c, d);
    }
    PagesAfter(sp, c, sp', master);
    RecordedIff(sp, c, sp', master);
    CallKeepsLaid(sp, c, sp', master);
  }

  lemma CallKeepsLaid(sp: Space, c: Call, sp': Space, master: nat)
    requires Exclusive(sp, master) && Does(sp, Mapped(c), sp', master)
    ensures FramesLaid(sp'.w.part, Top(sp'.w.part.Keys), sp'.m, master)
  {
    hide Good, UserReady, TablesApart, TablesShown, Recorded, PageOk, FramesLaid, Top, CallGranted;
    ServedMemory(sp.w, sp.m, sp'.w, sp'.m, master, c);
    ServedBlocks(sp.w, sp.m, sp'.w, sp'.m, master, c);
    TookKeys(sp.w.part, sp'.w.part, KeptBy(sp.m, master, c));
    StaysLaid(sp.w.part, sp'.w.part, Top(sp.w.part.Keys), sp.m, sp'.m, master);
  }

  /** A CPU that goes live has no tables and no pages. */
  lemma GoLiveKeepsExclusive(sp: Space, c: nat, sp': Space, master: nat)
    requires Exclusive(sp, master) && Does(sp, GoLive(c), sp', master)
    ensures Exclusive(sp', master)
  {
    hide Good, FramesLaid, Top, PageOk;
    NewlyLive(sp.m, master, sp.live, c);
    LaidDirectories(sp.w.part, Top(sp.w.part.Keys), sp.m, master);
    assert TablesApart(sp.w.part, sp.m, master, sp'.live) && TablesShown(sp.m, master, sp'.live);
    ApartIsOwned(sp.w.part, sp.m, master, sp'.live, c);
    forall k | k in sp.pages ensures PageOk(sp.w.part, sp.m, master, sp'.live, k, sp.pages[k]) {
      PageStaysOk(sp.w.part, sp.m, master, sp.live, c, k, sp.pages[k]);
    }
  }

  lemma NewlyLive(m: Words, master: nat, live: set<nat>, c: nat)
    requires UserHalfZero(m, master, c) && c !in live
    ensures forall d: nat, s: nat {:trigger InUse(m, master, live + {c}, d, s)} ::
      InUse(m, master, live + {c}, d, s) <==> InUse(m, master, live, d, s)
    ensures forall k: UserPage {:trigger PageFrame(m, master, live + {c}, k)} ::
      PageFrame(m, master, live + {c}, k) == PageFrame(m, master, live, k)
  {
    assert 0 !in ZERO.flags;
    forall d: nat, s: nat ensures InUse(m, master, live + {c}, d, s) <==> InUse(m, master, live, d, s) {
      assert d == c && s < KSLOT ==> At(m, Word(CpuDir(master, c), s)) == ZERO;
    }
    forall k: UserPage ensures PageFrame(m, master, live + {c}, k) == PageFrame(m, master, live, k) {
      if k.cpu == c && k.page < KVA { assert At(m, Word(CpuDir(master, c), Slot(k.page))) == ZERO; }
    }
  }

  lemma PageStaysOk(part: Part, m: Words, master: nat, live: set<nat>, c: nat, k: UserPage, f: nat)
    requires UserHalfZero(m, master, c) && c !in live && PageOk(part, m, master, live, k, f)
    ensures PageOk(part, m, master, live + {c}, k, f)
  {
    hide UserHalfZero, Translate;
    NewlyLive(m, master, live, c);
  }

  lemma TablesStayShown(w: World, m: Words, w': World, m': Words, master: nat, live: set<nat>, c: Call)
    requires CallGranted(w, m, w', m', master, c) && TablesShown(m, master, live)
    ensures TablesShown(m', master, live)
  {
    hide CallGranted, UserMapped, Missing, UserReady, SpareTables, RangeOf;
    ServedMemory(w, m, w', m', master, c);
    PdePresent(c.pteFlags);
    forall d: nat, s: nat | InUse(m', master, live, d, s) ensures PRESENT <= m'[Word(CpuDir(master, d), s)].flags {
      EntryAfter(w.part, Top(w.part.Keys), m, m', master, c, d, s);
      assert m[Word(CpuDir(master, d), s)] != ZERO ==> InUse(m, master, live, d, s);
    }
  }

  /** A page beside the range of a call, in a slot that was empty, is mapped by the call exactly
      when its word in the table taken is present; at whatever frame that word names. */
  lemma StaleWordMaps(w: World, m: Words, w': World, m': Words, master: nat, live: set<nat>, c: Call, v: nat)
    requires CallGranted(w, m, w', m', master, c) && v < KVA
    requires c.pages > 0 && Met(RangeOf(m, master, c), v) && !InRange(RangeOf(m, master, c), v)
    requires Pde(m, Dir(master, c), v) == ZERO && c.cpu in live && c.cpu < CPUS
    ensures var e := At(m, Word(TableOf(RangeOf(m, master, c), v), v % SLOTS));
      PageFrame(m', master, live, UserPage(c.cpu, v)) == if PRESENT <= e.flags then Some(e.frame) else None
  {
    hide CallGranted, RangeOf, Translate, Missing;
    UserTranslates(w, m, w', m', master, c, v);
    PdePresent(c.pteFlags);
  }

  /** So when that word names the frame of another user page, the two pages share it. */
  lemma StaleWordShares(sp: Space, c: Call, sp': Space, master: nat, u: UserPage, v: nat)
    requires Exclusive(sp, master) && Does(sp, Mapped(c), sp', master) && u in sp.pages && u !in MappedBy(c) && v < KVA
    requires c.pages > 0 && Met(RangeOf(sp.m, master, c), v) && !InRange(RangeOf(sp.m, master, c), v)
    requires Pde(sp.m, Dir(master, c), v) == ZERO
    requires var e := At(sp.m, Word(TableOf(RangeOf(sp.m, master, c), v), v % SLOTS));
      PRESENT <= e.flags && e.frame == sp.pages[u]
    ensures u != UserPage(c.cpu, v)
    ensures PageFrame(sp'.m, master, sp.live, u) ==
      PageFrame(sp'.m, master, sp.live, UserPage(c.cpu, v)) == Some(sp.pages[u])
  {
    hide Good, UserReady, TablesApart, TablesShown, Recorded, CallGranted, RangeOf, Translate, MappedBy;
    StaleWordMaps(sp.w, sp.m, sp'.w, sp'.m, master, sp.live, c, v);
    EmptySlotUnrecorded(sp, master, c.cpu, v);
    assert PageOk(sp.w.part, sp.m, master, sp.live, u, sp.pages[u]);
    assert !(u.cpu == c.cpu && c.first <= u.page < c.first + c.pages) by {
      if u.cpu == c.cpu && c.first <= u.page < c.first + c.pages { InMappedBy(c, u); }
    }
    OldPage(sp.w, sp.m, sp'.w, sp'.m, master, sp.live, c, u, sp.pages[u]);
  }

  lemma InMappedBy(c: Call, u: UserPage)
    requires u.cpu == c.cpu && c.first <= u.page < c.first + c.pages
    ensures u in MappedBy(c)
  {
    assert u == UserPage(c.cpu, u.page);
  }

  /** A page beside the range in a slot that was in use is mapped after the call if it was before. */
  lemma BesideInUse(w: World, m: Words, w': World, m': Words, master: nat, live: set<nat>, c: Call, v: nat)
    requires CallGranted(w, m, w', m', master, c) && TablesShown(m, master, live) && v < KVA && c.cpu in live
    requires c.cpu < CPUS
    requires c.pages > 0 && Met(RangeOf(m, master, c), v) && !InRange(RangeOf(m, master, c), v)
    requires Pde(m, Dir(master, c), v) != ZERO
    ensures PageFrame(m', master, live, UserPage(c.cpu, v)) == PageFrame(m, master, live, UserPage(c.cpu, v))
  {
    hide CallGranted, UserReady, SpareTables, UserTables, UserPte, UserPde, UserMapped, Missing;
    UserTranslates(w, m, w', m', master, c, v);
    ServedMemory(w, m, w', m', master, c);
    UserTable(w.part, Top(w.part.Keys), m, master, c.cpu, c.first, c.pages, c.g.tables, Slot(v) - Slot(c.first));
    assert InUse(m, master, live, c.cpu, Slot(v));
    PdePresent(c.pteFlags);
  }

  lemma RecordedIff(sp: Space, c: Call, sp': Space, master: nat)
    requires Exclusive(sp, master) && Does(sp, Mapped(c), sp', master)
    ensures c.pages > 0 && (Recorded(sp'.m, master, sp.live, sp'.pages) <==> Clean(sp.m, master, c))
  {
    hide CallGranted, Good, UserReady, TablesApart, TablesShown, PageOk, RangeOf, Translate, Missing;
    ServedBlocks(sp.w, sp.m, sp'.w, sp'.m, master, c);
    var r := RangeOf(sp.m, master, c);
    assert r.start == c.first && r.pages == c.pages && r.dir == Dir(master, c) by { RangeParts(sp.m, master, c); }
    assert Spanned(r) <= |r.tables| by { RangeParts(sp.m, master, c); }
    forall v: nat | v < KVA && Met(r, v) && !InRange(r, v) && Pde(sp.m, r.dir, v) == ZERO
      ensures UserPage(c.cpu, v) !in sp'.pages
      ensures PageFrame(sp'.m, master, sp.live, UserPage(c.cpu, v)).Some? <==>
        PRESENT <= At(sp.m, Word(TableOf(r, v), v % SLOTS)).flags
    {
      StaleWordMaps(sp.w, sp.m, sp'.w, sp'.m, master, sp.live, c, v);
      EmptySlotUnrecorded(sp, master, c.cpu, v);
    }
    if Clean(sp.m, master, c) {
      forall k | PageFrame(sp'.m, master, sp.live, k).Some? ensures k in sp'.pages {
        if !(k.cpu == c.cpu && Met(r, k.page) && !InRange(r, k.page) && Pde(sp.m, r.dir, k.page) == ZERO) {
          RecordedAfter(sp, c, sp', master, k);
        }
      }
    }
  }

  lemma RangeParts(m: Words, master: nat, c: Call)
    requires c.pages > 0
    ensures var r := RangeOf(m, master, c);
      r.start == c.first && r.pages == c.pages && r.dir == Dir(master, c) && Spanned(r) <= |r.tables|
  {
  }

  lemma EmptySlotUnrecorded(sp: Space, master: nat, d: nat, v: nat)
    requires Exclusive(sp, master) && d < CPUS && v < KVA && Pde(sp.m, CpuDir(master, d), v) == ZERO
    ensures UserPage(d, v) !in sp.pages
  {
    hide Good, UserReady, TablesApart, TablesShown, Recorded;
    assert 0 !in ZERO.flags;
  }

  /** The other pages that are mapped after the call are recorded: by it, or before it. */
  lemma RecordedAfter(sp: Space, c: Call, sp': Space, master: nat, k: UserPage)
    requires Exclusive(sp, master) && Does(sp, Mapped(c), sp', master) && PageFrame(sp'.m, master, sp.live, k).Some?
    requires c.pages > 0
    requires var r := RangeOf(sp.m, master, c);
      !(k.cpu == c.cpu && Met(r, k.page) && !InRange(r, k.page) && Pde(sp.m, r.dir, k.page) == ZERO)
    ensures k in sp'.pages
  {
    hide CallGranted, Good, TablesApart, TablesShown, PageOk, RangeOf, Translate, Missing, UserReady;
    RangeParts(sp.m, master, c);
    var r := RangeOf(sp.m, master, c);
    if k.cpu != c.cpu {
      OtherCpuTranslates(sp.w, sp.m, sp'.w, sp'.m, master, sp.live, c, k.cpu, k.page);
    } else if InRange(r, k.page) {
      assert k in MappedBy(c);
    } else if Met(r, k.page) {
      BesideInUse(sp.w, sp.m, sp'.w, sp'.m, master, sp.live, c, k.page);
    } else {
      UserTranslates(sp.w, sp.m, sp'.w, sp'.m, master, c, k.page);
    }
    assert k in MappedBy(c) || PageFrame(sp.m, master, sp.live, k).Some?;
  }

  lemma PagesAfter(sp: Space, c: Call, sp': Space, master: nat)
    requires Exclusive(sp, master) && Does(sp, Mapped(c), sp', master)
    ensures forall k :: k in sp'.pages ==> PageOk(sp'.w.part, sp'.m, master, sp.live, k, sp'.pages[k])
    ensures forall k, l :: k in sp'.pages && l in sp'.pages && k != l ==> sp'.pages[k] != sp'.pages[l]
  {
    hide CallGranted, Good, UserReady, TablesApart;
    forall k | k in sp'.pages ensures PageOk(sp'.w.part, sp'.m, master, sp.live, k, sp'.pages[k]) {
      hide PageOk;
      if k in MappedBy(c) {
        NewPage(sp.w, sp.m, sp'.w, sp'.m, master, sp.live, c, k.page);
      } else {
        CpuOf(sp.w.part, sp.m, master, sp.live, k, sp.pages[k]);
        OldPage(sp.w, sp.m, sp'.w, sp'.m, master, sp.live, c, k, sp.pages[k]);
      }
    }
    forall k, l | k in sp'.pages && l in sp'.pages && k != l ensures sp'.pages[k] != sp'.pages[l] {
      if k in MappedBy(c) { NewPageFrame(sp.w, sp.m, sp'.w, sp'.m, master, c, sp'.pages[k]); }
      if l in MappedBy(c) { NewPageFrame(sp.w, sp.m, sp'.w, sp'.m, master, c, sp'.pages[l]); }
    }
  }

  lemma CpuOf(part: Part, m: Words, master: nat, live: set<nat>, k: UserPage, f: nat)
    requires PageOk(part, m, master, live, k, f)
    ensures k.cpu < CPUS
  {
  }

  /** A change of the allocator's world alone keeps the frames exclusive if those in use stay
      allocated. */
  lemma WorldMoves(sp: Space, w': World, master: nat)
    requires Exclusive(sp, master) && Good(w') && w'.last == sp.w.last && w'.part.Keys == sp.w.part.Keys
    requires forall k :: k in sp.pages && sp.pages[k] in w'.part ==> w'.part[sp.pages[k]].place == Allocated
    requires forall c: nat, s: nat {:trigger InUse(sp.m, master, sp.live, c, s)} ::
      InUse(sp.m, master, sp.live, c, s) && TableIn(sp.m, master, c, s) in w'.part ==>
        w'.part[TableIn(sp.m, master, c, s)].place == Allocated
    ensures Exclusive(sp.(w := w'), master)
  {
    hide Good, NamesTables, Translate, TablesShown, Recorded;
    forall d: nat | d in sp.live ensures UserReady(w'.part, Top(w'.part.Keys), sp.m, master, d) {
      assert UserReady(sp.w.part, Top(sp.w.part.Keys), sp.m, master, d);
      ApartIsOwned(w'.part, sp.m, master, sp.live, d);
    }
  }

  lemma ErrorKeepsExclusive(sp: Space, sp': Space, master: nat)
    requires Exclusive(sp, master) && Does(sp, Failed, sp', master)
    ensures Exclusive(sp', master)
  {
    hide Good, UserReady, Translate, NamesTables;
    forall f | f in sp.w.part && sp.w.part[f].place == Allocated
      ensures f in sp'.w.part && sp'.w.part[f].place == Allocated
    {
      StillAllocated(sp.w, sp'.w, {}, f);
    }
    WorldMoves(sp, sp'.w, master);
  }

  lemma KernelAllocKeepsExclusive(sp: Space, req: nat, sp': Space, master: nat)
    requires Exclusive(sp, master) && Does(sp, KernelAlloc(req), sp', master)
    ensures Exclusive(sp', master)
  {
    hide Good, UserReady, Translate, NamesTables, Alloc, SomeFreeRun;
    AllocExact(sp.w, req);
    WorldMoves(sp, sp'.w, master);
  }

  lemma KernelFreeKeepsExclusive(sp: Space, p: nat, sp': Space, master: nat)
    requires Exclusive(sp, master) && Does(sp, KernelFree(p), sp', master)
    ensures Exclusive(sp', master)
  {
    hide Good, UserReady, Translate, NamesTables, Free;
    FreeExact(sp.w, p);
    WorldMoves(sp, sp'.w, master);
  }

  /** The words of frames outside fs are as they were. */
  ghost predicate ChangedIn(m: Words, m': Words, fs: set<nat>) {
    |m'| == |m| && forall w: nat {:trigger m'[w]} :: w < |m| && w / SLOTS !in fs ==> m'[w] == m[w]
  }

  /** Stores that spare what translates user pages keep the frames exclusive. */
  lemma StoresKeepExclusive(sp: Space, m': Words, master: nat)
    requires Exclusive(sp, master) && Spared(sp.m, m', master, sp.live) && AllNameTables(m', master, sp.live)
    ensures Exclusive(sp.(m := m'), master)
  {
    hide Good;
    var sp' := sp.(m := m');
    forall c: nat, s: nat {:trigger InUse(m', master, sp.live, c, s)} | c in sp.live && c < CPUS && s < KSLOT
      ensures InUse(m', master, sp.live, c, s) <==> InUse(sp.m, master, sp.live, c, s)
      ensures InUse(m', master, sp.live, c, s) ==> TableIn(m', master, c, s) == TableIn(sp.m, master, c, s)
    {
      assert Word(CpuDir(master, c), s) >= 0;
    }
    StoresKeepTranslations(sp.m, m', master, sp.live);
    StoresKeepTables(sp, m', master);
    hide Spared, UserReady, TablesApart, TablesShown, Translate;
    forall k | k in sp.pages ensures PageOk(sp.w.part, m', master, sp.live, k, sp.pages[k]) {
      assert PageFrame(m', master, sp.live, k) == PageFrame(sp.m, master, sp.live, k);
    }
    assert Recorded(m', master, sp.live, sp.pages) by {
      forall k | PageFrame(m', master, sp.live, k).Some?
        ensures k in sp.pages
      {
        assert PageFrame(m', master, sp.live, k) == PageFrame(sp.m, master, sp.live, k);
      }
    }
  }

  lemma StoresKeepTranslations(m: Words, m': Words, master: nat, live: set<nat>)
    requires Spared(m, m', master, live)
    ensures forall k: UserPage {:trigger PageFrame(m', master, live, k)} ::
      PageFrame(m', master, live, k) == PageFrame(m, master, live, k)
  {
    hide NamesTables;
    assert 0 !in ZERO.flags;
    forall k: UserPage | k.cpu in live && k.cpu < CPUS && k.page < KVA
      ensures PageFrame(m', master, live, k) == PageFrame(m, master, live, k)
    {
      var w := Word(CpuDir(master, k.cpu), Slot(k.page));
      assert Pde(m', CpuDir(master, k.cpu), k.page) == Pde(m, CpuDir(master, k.cpu), k.page);
      if InUse(m, master, live, k.cpu, Slot(k.page)) {
        assert Pde(m, CpuDir(master, k.cpu), k.page).frame == TableIn(m, master, k.cpu, Slot(k.page));
      } else {
        assert Pde(m, CpuDir(master, k.cpu), k.page) == ZERO;
      }
    }
  }

  lemma StoresKeepTables(sp: Space, m': Words, master: nat)
    requires Exclusive(sp, master) && Spared(sp.m, m', master, sp.live) && AllNameTables(m', master, sp.live)
    ensures TablesApart(sp.w.part, m', master, sp.live) && TablesShown(m', master, sp.live)
    ensures forall d: nat :: d in sp.live ==> UserReady(sp.w.part, Top(sp.w.part.Keys), m', master, d)
  {
    hide Good, PageOk, Recorded;
    SameTables(sp.m, m', master, sp.live);
    assert TablesApart(sp.w.part, m', master, sp.live) by { hide Spared, UserReady; }
    assert TablesShown(m', master, sp.live);
    forall d: nat | d in sp.live ensures UserReady(sp.w.part, Top(sp.w.part.Keys), m', master, d) {
      hide TablesShown, NamesTables;
      assert UserReady(sp.w.part, Top(sp.w.part.Keys), sp.m, master, d);
      ApartIsOwned(sp.w.part, m', master, sp.live, d);
    }
  }

  lemma SameTables(m: Words, m': Words, master: nat, live: set<nat>)
    requires Spared(m, m', master, live)
    ensures forall c: nat, s: nat {:trigger InUse(m', master, live, c, s)} :: InUse(m', master, live, c, s) <==>
      InUse(m, master, live, c, s)
    ensures forall c: nat, s: nat {:trigger InUse(m', master, live, c, s)} :: InUse(m', master, live, c, s) ==>
      m'[Word(CpuDir(master, c), s)] == m[Word(CpuDir(master, c), s)]
  {
  }

  /** A run: any deeds on any CPUs, one after the other. */
  ghost predicate IsRun(sps: seq<Space>, deeds: seq<Deed>, master: nat) {
    |sps| == |deeds| + 1 && forall i :: 0 <= i < |deeds| ==> Does(sps[i], deeds[i], sps[i + 1], master)
  }

  /** The first n deeds of the run take clean tables only. */
  ghost predicate CleanRun(sps: seq<Space>, deeds: seq<Deed>, master: nat, n: nat)
    requires n <= |deeds| < |sps|
  {
    forall i :: 0 <= i < n ==> TakesClean(sps[i], deeds[i], master)
  }

  lemma {:induction false} CleanStaysExclusive(sps: seq<Space>, deeds: seq<Deed>, master: nat, n: nat)
    requires IsRun(sps, deeds, master) && Exclusive(sps[0], master) && n <= |deeds| && CleanRun(sps, deeds, master, n)
    ensures Exclusive(sps[n], master)
  {
    hide Exclusive, Does, TakesClean;
    if n > 0 {
      CleanStaysExclusive(sps, deeds, master, n - 1);
      DeedKeepsExclusiveIff(sps[n - 1], deeds[n - 1], sps[n], master);
    }
  }

  /** The frames are exclusive throughout a run exactly when all its calls take clean tables. */
  lemma RunExclusiveIff(sps: seq<Space>, deeds: seq<Deed>, master: nat)
    requires IsRun(sps, deeds, master) && Exclusive(sps[0], master)
    ensures (forall n :: 0 <= n < |sps| ==> Exclusive(sps[n], master)) <==> CleanRun(sps, deeds, master, |deeds|)
  {
    hide Exclusive, Does, TakesClean;
    if CleanRun(sps, deeds, master, |deeds|) {
      forall n | 0 <= n < |sps| ensures Exclusive(sps[n], master) { CleanStaysExclusive(sps, deeds, master, n); }
    } else {
      var i :| 0 <= i < |deeds| && !TakesClean(sps[i], deeds[i], master);
      if Exclusive(sps[i], master) { DeedKeepsExclusiveIff(sps[i], deeds[i], sps[i + 1], master); }
    }
  }

  /** Before any CPU is live. */
  lemma StartExclusive(w: World, m: Words, master: nat)
    requires Good(w) && FramesLaid(w.part, Top(w.part.Keys), m, master)
    ensures Exclusive(Space(w, m, {}, map[]), master)
  {
    hide FramesLaid, Top, Good;
  }

  /** The frame of a mapped user page is on no free list, and neither is a user page table. */
  lemma MappedFramesNotFree(sp: Space, master: nat, k: nat, p: nat, f: nat)
    requires Exclusive(sp, master) && k <= MAX_ALLOC_ORDER && p in sp.w.mem.lists[k] && InBlock(f, p, k)
    ensures forall u :: u in sp.pages ==> sp.pages[u] != f
    ensures forall c: nat, s: nat {:trigger InUse(sp.m, master, sp.live, c, s)} ::
      InUse(sp.m, master, sp.live, c, s) ==> TableIn(sp.m, master, c, s) != f
  {
    hide UserReady, Translate;
    assert Has(sp.w.part, p, k, Listed);
    assert FitsAt(sp.w.part, p);
  }

  /** Over any run of calls on any CPUs, of the kernel's own allocations and frees, and of stores,
      in which the calls take clean tables: two user pages that any directories map have distinct
      frames; the frame of each was mapped by a call, is allocated, on no free list, and no table. */
  lemma UserFramesExclusive(sps: seq<Space>, deeds: seq<Deed>, master: nat, u: UserPage, v: UserPage)
    requires IsRun(sps, deeds, master) && Exclusive(sps[0], master) && CleanRun(sps, deeds, master, |deeds|)
    requires PageFrame(sps[|deeds|].m, master, sps[|deeds|].live, u).Some? && u != v
    ensures var sp := sps[|deeds|]; var f := PageFrame(sp.m, master, sp.live, u).value;
      && u in sp.pages && sp.pages[u] == f && f in sp.w.part && sp.w.part[f].place == Allocated
      && PageFrame(sp.m, master, sp.live, v) != Some(f)
      && (forall c: nat, s: nat {:trigger InUse(sp.m, master, sp.live, c, s)} ::
        InUse(sp.m, master, sp.live, c, s) ==> TableIn(sp.m, master, c, s) != f)
      && (forall k: nat, p: nat {:trigger p in sp.w.mem.lists[k]} ::
        k < |sp.w.mem.lists| && p in sp.w.mem.lists[k] ==> !InBlock(f, p, k))
  {
    CleanStaysExclusive(sps, deeds, master, |deeds|);
    var sp := sps[|deeds|];
    hide UserReady, Translate, TablesApart, TablesShown;
    var f := sp.pages[u];
    forall k: nat, p: nat | k < |sp.w.mem.lists| && p in sp.w.mem.lists[k] ensures !InBlock(f, p, k) {
      if InBlock(f, p, k) { MappedFramesNotFree(sp, master, k, p, f); }
    }
    if PageFrame(sp.m, master, sp.live, v).Some? { assert v in sp.pages
      && PageOk(sp.w.part, sp.m, master, sp.live, v, sp.pages[v]); }
  }

  /** What a call has mapped stays mapped to its frame, whatever is done, until a later call maps
      that page again. */
  lemma MappingLasts(sp: Space, deed: Deed, sp': Space, master: nat, k: UserPage)
    requires Exclusive(sp, master) && Does(sp, deed, sp', master) && TakesClean(sp, deed, master) && k in sp.pages
    requires deed.Mapped? ==> k !in MappedBy(deed.c)
    ensures PageFrame(sp'.m, master, sp'.live, k) == PageFrame(sp.m, master, sp.live, k) == Some(sp.pages[k])
  {
    DeedKeepsExclusiveIff(sp, deed, sp', master);
    hide Good, UserReady, TablesApart, TablesShown, Recorded, Does, TakesClean, Translate;
    assert PageOk(sp.w.part, sp.m, master, sp.live, k, sp.pages[k]);
    SamePages(sp, deed, sp', master, k);
    assert PageOk(sp'.w.part, sp'.m, master, sp'.live, k, sp'.pages[k]);
  }

  lemma SamePages(sp: Space, deed: Deed, sp': Space, master: nat, k: UserPage)
    requires Does(sp, deed, sp', master) && k in sp.pages && (deed.Mapped? ==> k !in MappedBy(deed.c))
    ensures k in sp'.pages && sp'.pages[k] == sp.pages[k]
  {
    hide CallGranted, Good, Took, Unused, Spared;
  }

  /** Stores into frames that are neither directories nor tables in use spare the translations. */
  lemma FrameStoresSpare(m: Words, m': Words, master: nat, live: set<nat>, fs: set<nat>)
    requires ChangedIn(m, m', fs)
    requires forall c: nat {:trigger CpuDir(master, c)} :: c in live && c < CPUS ==> CpuDir(master, c) !in fs
    requires forall c: nat, s: nat {:trigger InUse(m, master, live, c, s)} ::
      InUse(m, master, live, c, s) ==> TableIn(m, master, c, s) !in fs
    ensures Spared(m, m', master, live) && (AllNameTables(m, master, live) ==> AllNameTables(m', master, live))
  {
    forall c: nat, s: nat | c in live && c < CPUS && s < SLOTS && Word(CpuDir(master, c), s) < |m|
      ensures m'[Word(CpuDir(master, c), s)] == m[Word(CpuDir(master, c), s)]
    {
      assert Word(CpuDir(master, c), s) / SLOTS == CpuDir(master, c);
    }
    forall c: nat, s: nat, x: nat | InUse(m, master, live, c, s) && x < SLOTS && Word(TableIn(m, master, c, s), x) < |m|
      ensures m'[Word(TableIn(m, master, c, s), x)] == m[Word(TableIn(m, master, c, s), x)]
    {
      assert Word(TableIn(m, master, c, s), x) / SLOTS == TableIn(m, master, c, s);
    }
  }

  lemma ExclusiveNames(sp: Space, master: nat)
    requires Exclusive(sp, master)
    ensures AllNameTables(sp.m, master, sp.live)
  {
    hide Good, TablesOwned, TablesApart, TablesShown, Recorded, PageOk, NamesTables;
    forall c: nat | c in sp.live && c < CPUS ensures NamesTables(sp.m, master, CpuDir(master, c)) {
      assert UserReady(sp.w.part, Top(sp.w.part.Keys), sp.m, master, c);
    }
  }

  /** The allocator manages no directory, and no kernel table that maps memory. */
  lemma ManagedApart(sp: Space, master: nat, f: nat)
    requires Exclusive(sp, master) && f in sp.w.part
    ensures !KernelFrame(master, Top(sp.w.part.Keys), f) && forall c: nat :: c < CPUS ==> CpuDir(master, c) != f
  {
    hide Good, TablesApart, TablesShown, Recorded, PageOk, NamesTables, TablesOwned;
  }

  /** So user code can store whatever it likes in any page that its directory maps: while the
      frames are exclusive it reaches no directory, no table and no other user page. */
  lemma UserStoresSpare(sp: Space, master: nat, k: UserPage, m': Words)
    requires Exclusive(sp, master) && PageFrame(sp.m, master, sp.live, k).Some?
    requires ChangedIn(sp.m, m', {PageFrame(sp.m, master, sp.live, k).value})
    ensures Does(sp, Stores(m'), sp.(m := m'), master)
    ensures forall l: UserPage,
      x: nat {:trigger PageFrame(sp.m, master, sp.live, l), Word(PageFrame(sp.m, master, sp.live, l).value, x)} ::
      l != k && x < SLOTS && PageFrame(sp.m, master, sp.live, l).Some? ==>
      var w := Word(PageFrame(sp.m, master, sp.live, l).value, x); w < |sp.m| ==> m'[w] == sp.m[w]
  {
    hide Good, UserReady, TablesApart, TablesShown, Translate;
    var f := PageFrame(sp.m, master, sp.live, k).value;
    assert k in sp.pages && PageOk(sp.w.part, sp.m, master, sp.live, k, sp.pages[k]);
    ManagedApart(sp, master, f);
    ExclusiveNames(sp, master);
    FrameStoresSpare(sp.m, m', master, sp.live, {f});
    forall l: UserPage, x: nat | l != k && x < SLOTS && PageFrame(sp.m, master, sp.live, l).Some?
      && Word(PageFrame(sp.m, master, sp.live, l).value, x) < |sp.m|
      ensures m'[Word(PageFrame(sp.m, master, sp.live, l).value, x)] ==
        sp.m[Word(PageFrame(sp.m, master, sp.live, l).value, x)]
    {
      assert l in sp.pages && PageOk(sp.w.part, sp.m, master, sp.live, l, sp.pages[l]);
      assert Word(sp.pages[l], x) / SLOTS == sp.pages[l];
    }
  }

  /** The kernel can store whatever it likes in a block of its own. */
  lemma KernelStoresSpare(sp: Space, master: nat, p: nat, m': Words)
    requires Exclusive(sp, master) && Owned(sp.w, p) && Unused(sp, master, p)
    requires ChangedIn(sp.m, m', set f | f in sp.w.part && sp.w.part[f] == sp.w.part[p])
    ensures Does(sp, Stores(m'), sp.(m := m'), master)
  {
    hide Good, UserReady, TablesApart, TablesShown, Recorded, Translate, PageOk;
    forall f | f in sp.w.part
      ensures forall c: nat :: c < CPUS ==> CpuDir(master, c) != f
    {
      ManagedApart(sp, master, f);
    }
    ExclusiveNames(sp, master);
    FrameStoresSpare(sp.m, m', master, sp.live, set f | f in sp.w.part && sp.w.part[f] == sp.w.part[p]);
  }

  /** A write of the kernel outside alloc_user_page: the directory and table writes of kernel mappings
      on any CPU, the page-fault fix, and, to the directory of a CPU that is not live, smp.c's first
      copy, the bytes of setup32's copy, and initialize_usermode's clearing. */
  predicate KernelWrite(ev: L.Event, live: set<nat>) {
    ev.Enter? || ev.Put? || ev.Fault? || ((ev.Copy? || ev.Wipe? || ev.Seed?) && ev.cpu !in live)
  }

  /** Word w of memory m', if it is not that of s: for a Put the word put, else one of a directory;
      in a live CPU's directory, of the kernel half and naming the kernel table of its slot. */
  ghost predicate KernelChange(s: L.Sys, ev: L.Event, live: set<nat>, m': Words, w: nat)
    requires L.Sized(s) && L.Enabled(s, ev) && w < |s.m| == |m'|
  {
    m'[w] != s.m[w] ==>
      && (if ev.Put? then w == KernelWord(s.master, ev.page) else s.master <= w / SLOTS <= s.master + CPUS)
      && forall c: nat, x: nat {:trigger Word(CpuDir(s.master, c), x)} ::
        c in live && c < CPUS && x < SLOTS && w == Word(CpuDir(s.master, c), x) ==>
           x >= KSLOT && (NamesTables(s.m, s.master, CpuDir(s.master, c)) ==> m'[w].frame == KernelTable(s.master, x))
  }

  /** The event puts a new word into a kernel table that some user slot uses as its table. */
  ghost predicate HitsUserTable(s: L.Sys, ev: L.Event, live: set<nat>)
    requires L.Sized(s) && L.Enabled(s, ev)
  {
    ev.Put? && s.m[KernelWord(s.master, ev.page)] != ev.e
    && exists c: nat, x: nat {:trigger InUse(s.m, s.master, live, c, x)} ::
      InUse(s.m, s.master, live, c, x) && TableIn(s.m, s.master, c, x) == KernelTable(s.master, Slot(ev.page))
  }

  /** The writes of the kernel outside alloc_user_page are such stores, except exactly when they hit a
      user table. */
  lemma DirectoryStepsSpareIff(s: L.Sys, ev: L.Event, live: set<nat>)
    requires L.MasterOk(s) && L.Enabled(s, ev) && KernelWrite(ev, live)
    requires forall c: nat, x: nat {:trigger InUse(s.m, s.master, live, c, x)} ::
      InUse(s.m, s.master, live, c, x) ==> !(s.master <= TableIn(s.m, s.master, c, x) <= s.master + CPUS)
    ensures Spared(s.m, L.After(s, ev).m, s.master, live) <==> !HitsUserTable(s, ev, live)
    ensures AllNameTables(s.m, s.master, live) ==> AllNameTables(L.After(s, ev).m, s.master, live)
  {
    hide L.After, L.Enabled;
    var m', master := L.After(s, ev).m, s.master;
    forall w: nat | w < |s.m| ensures KernelChange(s, ev, live, m', w) { DirectoryStepChange(s, ev, live, w); }
    forall c: nat, x: nat | c in live && c < CPUS && x < KSLOT && Word(CpuDir(master, c), x) < |s.m|
      ensures m'[Word(CpuDir(master, c), x)] == s.m[Word(CpuDir(master, c), x)]
    {
      assert KernelChange(s, ev, live, m', Word(CpuDir(master, c), x));
    }
    forall c: nat | c in live && c < CPUS && NamesTables(s.m, master, CpuDir(master, c))
      ensures NamesTables(m', master, CpuDir(master, c))
    {
      forall x: nat | KSLOT <= x < SLOTS && Word(CpuDir(master, c), x) < |m'|
        ensures m'[Word(CpuDir(master, c), x)] == ZERO || m'[Word(CpuDir(master, c), x)].frame == KernelTable(master, x)
      {
        assert KernelChange(s, ev, live, m', Word(CpuDir(master, c), x));
      }
    }
    if HitsUserTable(s, ev, live) { HitNotSpared(s, ev, live); } else { MissKeepsTables(s, ev, live); }
  }

  /** The word that a Put writes is one of the kernel table of its slot. */
  lemma PutHere(s: L.Sys, ev: L.Event)
    requires L.Sized(s) && L.Enabled(s, ev) && ev.Put?
    ensures KernelWord(s.master, ev.page) == Word(KernelTable(s.master, Slot(ev.page)), ev.page % SLOTS) < |s.m|
    ensures KernelWord(s.master, ev.page) / SLOTS == KernelTable(s.master, Slot(ev.page))
    ensures L.After(s, ev).m[KernelWord(s.master, ev.page)] == ev.e
  {
  }

  lemma HitNotSpared(s: L.Sys, ev: L.Event, live: set<nat>)
    requires L.Sized(s) && L.Enabled(s, ev) && HitsUserTable(s, ev, live)
    ensures !Spared(s.m, L.After(s, ev).m, s.master, live)
  {
    hide L.After;
    PutHere(s, ev);
    var c: nat, x: nat :| InUse(s.m, s.master, live, c, x)
      && TableIn(s.m, s.master, c, x) == KernelTable(s.master, Slot(ev.page));
    assert Word(TableIn(s.m, s.master, c, x), ev.page % SLOTS) == KernelWord(s.master, ev.page);
  }

  lemma MissKeepsTables(s: L.Sys, ev: L.Event, live: set<nat>)
    requires L.Sized(s) && L.Enabled(s, ev) && KernelWrite(ev, live) && !HitsUserTable(s, ev, live)
    requires forall w: nat {:trigger L.After(s, ev).m[w]} ::
      w < |s.m| ==> KernelChange(s, ev, live, L.After(s, ev).m, w)
    requires forall c: nat, x: nat {:trigger InUse(s.m, s.master, live, c, x)} ::
      InUse(s.m, s.master, live, c, x) ==> !(s.master <= TableIn(s.m, s.master, c, x) <= s.master + CPUS)
    ensures forall c: nat, t: nat, x: nat
      {:trigger InUse(s.m, s.master, live, c, t), Word(TableIn(s.m, s.master, c, t), x)} ::
      InUse(s.m, s.master, live, c, t) && x < SLOTS && Word(TableIn(s.m, s.master, c, t), x) < |s.m| ==>
        L.After(s, ev).m[Word(TableIn(s.m, s.master, c, t), x)] == s.m[Word(TableIn(s.m, s.master, c, t), x)]
  {
    hide L.After, L.Enabled;
    var m' := L.After(s, ev).m;
    if ev.Put? { PutHere(s, ev); }
    forall c: nat, t: nat, x: nat | InUse(s.m, s.master, live, c, t) && x < SLOTS
      && Word(TableIn(s.m, s.master, c, t), x) < |s.m|
      ensures m'[Word(TableIn(s.m, s.master, c, t), x)] == s.m[Word(TableIn(s.m, s.master, c, t), x)]
    {
      assert KernelChange(s, ev, live, m', Word(TableIn(s.m, s.master, c, t), x));
      assert Word(TableIn(s.m, s.master, c, t), x) / SLOTS == TableIn(s.m, s.master, c, t);
    }
  }

  /** So while frames are exclusive they are deeds of the runs, except exactly then. */
  lemma DirectoryStepsAreDeedsIff(sp: Space, s: L.Sys, ev: L.Event, master: nat)
    requires Exclusive(sp, master) && s.m == sp.m && s.master == master && L.MasterOk(s) && L.Enabled(s, ev)
    requires KernelWrite(ev, sp.live)
    ensures Does(sp, Stores(L.After(s, ev).m), sp.(m := L.After(s, ev).m), master) <==> !HitsUserTable(s, ev, sp.live)
  {
    hide Good, TablesShown, Recorded, PageOk, TablesOwned, UserReady, Spared, L.After, L.Enabled, HitsUserTable;
    ExclusiveNames(sp, master);
    forall c: nat, x: nat | InUse(s.m, master, sp.live, c, x)
      ensures !(master <= TableIn(s.m, master, c, x) <= master + CPUS)
    {
      ManagedApart(sp, master, TableIn(s.m, master, c, x));
    }
    DirectoryStepsSpareIff(s, ev, sp.live);
  }

  /** And they never do when the slot maps a frame up to the highest managed one with a linear address. */
  lemma MappedSlotsSpare(sp: Space, s: L.Sys, ev: L.Event, master: nat)
    requires Exclusive(sp, master) && s.m == sp.m && s.master == master && L.MasterOk(s) && L.Enabled(s, ev)
    requires ev.Put? ==> Slot(ev.page) <= Slot(KVA + Top(sp.w.part.Keys))
    ensures !HitsUserTable(s, ev, sp.live)
  {
    hide Good, TablesShown, Recorded, PageOk, TablesOwned, UserReady, Top;
    forall c: nat, x: nat | InUse(s.m, master, sp.live, c, x)
      ensures !KernelFrame(master, Top(sp.w.part.Keys), TableIn(s.m, master, c, x))
    {
      ManagedApart(sp, master, TableIn(s.m, master, c, x));
    }
  }

  lemma DirectoryStepChange(s: L.Sys, ev: L.Event, live: set<nat>, w: nat)
    requires L.MasterOk(s) && L.Enabled(s, ev) && KernelWrite(ev, live) && w < |s.m|
    ensures KernelChange(s, ev, live, L.After(s, ev).m, w)
  {
    match ev
    case Put(v, e) => PutChange(s, ev, live, w);
    case Enter(c, slot, local) => EnterChange(s, ev, live, w);
    case Fault(c, kernelCode, v) => FaultChange(s, ev, live, w);
    case Copy(c) => OwnChange(s, ev, live, w);
    case Wipe(c) => OwnChange(s, ev, live, w);
    case Seed(c, slot, e) => OwnChange(s, ev, live, w);
  }

  /** These events write the CPU's own directory and nothing else. */
  lemma OwnChange(s: L.Sys, ev: L.Event, live: set<nat>, w: nat)
    requires L.Sized(s) && L.Enabled(s, ev) && (ev.Copy? || ev.Wipe? || ev.Seed?) && ev.cpu !in live && w < |s.m|
    ensures KernelChange(s, ev, live, L.After(s, ev).m, w)
  {
    hide NamesTables, L.WithByte;
    OnlyOwnDirectory(s, ev, w);
  }

  lemma OnlyOwnDirectory(s: L.Sys, ev: L.Event, w: nat)
    requires L.Sized(s) && L.Enabled(s, ev) && (ev.Copy? || ev.Wipe? || ev.Seed?) && w < |s.m|
    ensures ev.cpu < CPUS && (L.After(s, ev).m[w] != s.m[w] ==> w / SLOTS == CpuDir(s.master, ev.cpu))
  {
    hide L.WithByte;
    match ev
    case Copy(c) => assert Word(L.Dir(s, c), s.copied[c] / 4) / SLOTS == CpuDir(s.master, c);
    case Wipe(c) =>
    case Seed(c, slot, e) => assert Word(L.Dir(s, c), slot) / SLOTS == CpuDir(s.master, c);
  }

  lemma PutChange(s: L.Sys, ev: L.Event, live: set<nat>, w: nat)
    requires L.Sized(s) && L.Enabled(s, ev) && ev.Put? && w < |s.m|
    ensures KernelChange(s, ev, live, L.After(s, ev).m, w)
  {
    hide NamesTables;
  }

  lemma EnterChange(s: L.Sys, ev: L.Event, live: set<nat>, w: nat)
    requires L.Sized(s) && L.Enabled(s, ev) && ev.Enter? && w < |s.m|
    ensures KernelChange(s, ev, live, L.After(s, ev).m, w)
  {
    assert L.After(s, ev).m[w] != s.m[w] ==> w == Word(if ev.local then L.Dir(s, ev.cpu) else s.master, ev.slot);
  }

  lemma FaultChange(s: L.Sys, ev: L.Event, live: set<nat>, w: nat)
    requires L.MasterOk(s) && L.Enabled(s, ev) && ev.Fault? && w < |s.m|
    ensures KernelChange(s, ev, live, L.After(s, ev).m, w)
  {
    hide NamesTables;
    assert L.MasterEntry(s, Slot(ev.page)) == s.m[Word(s.master, Slot(ev.page))];
  }

  /** So are smp.c's first copies as a whole, as long as no CPU but CPU 0 is live. */
  lemma FirstCopiesSpare(m: Words, m': Words, master: nat, live: set<nat>)
    requires InMemory(m, master + CPUS) && L.FirstCopies(m, m', master) && forall c :: c in live ==> c == 0
    requires forall c: nat, x: nat {:trigger InUse(m, master, live, c, x)} ::
      InUse(m, master, live, c, x) ==> !(master <= TableIn(m, master, c, x) <= master + CPUS)
    ensures Spared(m, m', master, live) && (AllNameTables(m, master, live) ==> AllNameTables(m', master, live))
  {
    var fs := FramesFrom(CpuDir(master, 1), CPUS - 1);
    assert ChangedIn(m, m', fs);
    FrameStoresSpare(m, m', master, live, fs);
  }

  lemma FirstCopiesAreDeed(sp: Space, m': Words, master: nat)
    requires Exclusive(sp, master) && (forall c :: c in sp.live ==> c == 0)
    requires InMemory(sp.m, master + CPUS) && L.FirstCopies(sp.m, m', master)
    ensures Does(sp, Stores(m'), sp.(m := m'), master)
  {
    hide Good, TablesShown, Recorded, PageOk, TablesOwned, UserReady, Spared, L.FirstCopies;
    ExclusiveNames(sp, master);
    forall c: nat, x: nat | InUse(sp.m, master, sp.live, c, x)
      ensures !(master <= TableIn(sp.m, master, c, x) <= master + CPUS)
    {
      ManagedApart(sp, master, TableIn(sp.m, master, c, x));
    }
    FirstCopiesSpare(sp.m, m', master, sp.live);
  }

  /** Once a CPU has made its copy untorn and has cleared its user half, it can go live. */
  lemma SetUpGoesLive(sp: Space, s: L.Sys, c: nat, master: nat)
    requires Exclusive(sp, master) && s.m == sp.m && s.master == master && c !in sp.live
    requires L.MasterOk(s) && L.SetUp(s, c) && L.LocalOk(s, c)
    ensures var sp1 := sp.(m := L.After(s, L.Wipe(c)).m);
      Does(sp, Stores(sp1.m), sp1, master) && Does(sp1, GoLive(c), sp1.(live := sp.live + {c}), master)
  {
    hide Good, TablesShown, Recorded, PageOk, TablesOwned, UserReady, Spared, HitsUserTable, Exclusive, TablesApart;
    DirectoryStepsAreDeedsIff(sp, s, L.Wipe(c), master);
    WipeHitsNothing(s, c, sp.live);
    WipedReady(s, c);
  }

  lemma WipeHitsNothing(s: L.Sys, c: nat, live: set<nat>)
    requires L.Sized(s) && L.Enabled(s, L.Wipe(c))
    ensures !HitsUserTable(s, L.Wipe(c), live)
  {
  }

  lemma WipedReady(s: L.Sys, c: nat)
    requires L.MasterOk(s) && L.SetUp(s, c) && L.LocalOk(s, c)
    ensures var m := L.After(s, L.Wipe(c)).m;
      UserHalfZero(m, s.master, c) && NamesTables(m, s.master, CpuDir(s.master, c))
  {
    var m := L.After(s, L.Wipe(c)).m;
    forall x: nat | KSLOT <= x < SLOTS
      ensures m[Word(CpuDir(s.master, c), x)] == ZERO
        || m[Word(CpuDir(s.master, c), x)].frame == KernelTable(s.master, x)
    {
      assert L.SlotOk(s, c, x);
      assert m[Word(CpuDir(s.master, c), x)] == L.LocalEntry(s, c, x);
    }
  }

  /** page_alloc_kmap_linear is the kernel's allocation of a block, and such stores. */
  lemma LinearPagesSpare(sp: Space, master: nat, order: nat, p: nat, built: Words, m': Words)
    requires Exclusive(sp, master) && LinearOk(sp.w.part, Top(sp.w.part.Keys), sp.m, master)
    requires Alloc(sp.w, order).0 == Some(p) && HasLinear(p + Pow2(order) - 1)
    requires MappedClear(sp.m, built, m', master, p, order)
    ensures var sp1 := sp.(w := Alloc(sp.w, order).1);
      Does(sp, KernelAlloc(order), sp1, master) && Does(sp1, Stores(m'), sp1.(m := m'), master)
  {
    hide Good, UserReady, TablesApart, TablesShown, Recorded, PageOk, Alloc, MappedClear, LinearOk;
    AllocExact(sp.w, order);
    LinearStoresSpare(sp, master, order, p, built, m');
  }

  /** The n frames from p on. */
  function FramesFrom(p: nat, n: nat): (r: set<nat>)
    ensures forall f: nat {:trigger f in r} :: f in r <==> p <= f < p + n
  {
    if n == 0 then {} else FramesFrom(p, n - 1) + {p + n - 1}
  }

  /** The frames that page_alloc_kmap_linear writes. */
  function LinearFrames(master: nat, top: nat, p: nat, n: nat): set<nat> {
    {master} + FramesFrom(KernelTable(master, KSLOT), Slot(KVA + top) - KSLOT + 1) + FramesFrom(p, n)
  }

  lemma LinearStoresSpare(sp: Space, master: nat, order: nat, p: nat, built: Words, m': Words)
    requires Exclusive(sp, master) && LinearOk(sp.w.part, Top(sp.w.part.Keys), sp.m, master)
    requires Alloc(sp.w, order).0 == Some(p) && HasLinear(p + Pow2(order) - 1)
    requires MappedClear(sp.m, built, m', master, p, order)
    ensures Spared(sp.m, m', master, sp.live) && AllNameTables(m', master, sp.live)
  {
    hide Good, UserReady, TablesApart, TablesShown, Recorded, PageOk, Alloc, LinearOk, MappedClear, Pow2;
    var n := Pow2(order);
    LinearBlock(sp.w, Alloc(sp.w, order).1, p, order);
    forall c: nat | c < CPUS ensures CpuDir(master, c) !in LinearFrames(master, Top(sp.w.part.Keys), p, n) {
      if p <= CpuDir(master, c) < p + n { ManagedApart(sp, master, CpuDir(master, c)); }
    }
    LinearChange(sp.w.part, Top(sp.w.part.Keys), sp.m, built, m', master, p, order);
    forall c: nat, s: nat | InUse(sp.m, master, sp.live, c, s)
      ensures TableIn(sp.m, master, c, s) !in LinearFrames(master, Top(sp.w.part.Keys), p, n)
    {
      TableNotTaken(sp, master, order, p, c, s);
    }
    ExclusiveNames(sp, master);
    FrameStoresSpare(sp.m, m', master, sp.live, LinearFrames(master, Top(sp.w.part.Keys), p, n));
  }

  lemma TableNotTaken(sp: Space, master: nat, order: nat, p: nat, c: nat, s: nat)
    requires Exclusive(sp, master) && Alloc(sp.w, order).0 == Some(p) && InUse(sp.m, master, sp.live, c, s)
    ensures var t := TableIn(sp.m, master, c, s);
      !KernelFrame(master, Top(sp.w.part.Keys), t) && !(p <= t < p + Pow2(order))
  {
    hide Good, UserReady, TablesShown, Recorded, PageOk, Alloc, SomeFreeRun, Pow2;
    var t := TableIn(sp.m, master, c, s);
    assert t in sp.w.part && sp.w.part[t].place == Allocated;
    ManagedApart(sp, master, t);
    AllocExact(sp.w, order);
    if p <= t < p + Pow2(order) { BlockIsInterval(t, p, order); }
  }

  lemma LinearChange(part: Part, top: nat, m: Words, built: Words, m': Words, master: nat, p: nat, order: nat)
    requires LinearOk(part, top, m, master) && forall f: nat :: p <= f < p + Pow2(order) ==> f in part
    requires MappedClear(m, built, m', master, p, order) && HasLinear(p + Pow2(order) - 1)
    ensures ChangedIn(m, m', LinearFrames(master, top, p, Pow2(order)))
  {
    hide LinearOk, TablesBuilt, DirBuilt, BuildReady, Pow2;
    var n := Pow2(order);
    BlockMappable(part, top, m, master, p, n);
    var r := KernelRange(master, master, KVA + p, n);
    forall i: nat | i < |r.tables| ensures r.tables[i] in LinearFrames(master, top, p, n) {
      assert r.tables[i] == KernelTable(master, Slot(KVA + p) + i) && Slot(KVA + p) + i <= Slot(KVA + top);
    }
    forall w: nat | w < |m| && w / SLOTS !in LinearFrames(master, top, p, n) ensures m'[w] == m[w] {
      assert w / SLOTS !in r.tables[..Spanned(r)];
      assert built[w] == m[w];
    }
  }
}
