/** The calls of alloc_user_page as they interleave: the steps of the allocator on any number of
    CPUs, the single writes that map a table or a page, and stores of anyone in between. A call
    may be anywhere on every CPU, with frames in its hands that are neither tables nor pages yet. */
module UserInterleaved {
  import opened Dyadic
  import opened Partition
  import opened BuddyMem
  import opened PageTables
  import opened PageByPage
  import opened KernelMap
  import opened UserPages
  import opened UserTheorems
  import opened UserRuns
  import T = BuddyTheorems
  import B = BuddyConcurrent
  import C = ConcurrentTheorems
  import L = LazyDirectory

  /** What an allocated frame is for: in the hands of kernel code that got it on CPU cpu, the table
      of a user slot, or the frame of a user page. */
  datatype Role = Own(cpu: nat) | Table(cpu: nat, slot: nat) | Backs(page: UserPage)

  /** live are the CPUs whose user halves belong to alloc_user_page. */
  datatype Sys = Sys(a: B.Sys, m: Words, master: nat, live: set<nat>, roles: map<nat, Role>)

  datatype Event =
    /** A step of page_alloc or page_free, or the start of such a call. */
    | Allocator(e: C.Event)
    /** Table t entered in an empty slot of the CPU's user half. */
    | EnterTable(cpu: nat, slot: nat, t: nat, flags: Bits)
    /** Flags added to a slot in use. */
    | AddFlags(cpu: nat, slot: nat, flags: Bits)
    /** The table word of a page written. */
    | PutPage(k: UserPage, f: nat, flags: Bits)
    /** Stores that leave memory m. */
    | Store(m: Words)
    /** A CPU whose user half is zero goes live. */
    | GoLive(cpu: nat)

  predicate IsAllocated(part: Part, f: nat) {
    f in part && part[f].place == Allocated
  }

  function DirWordOf(s: Sys, c: nat, x: nat): nat { Word(CpuDir(s.master, c), x) }

  /** The word of page k in its table. */
  function PageWord(s: Sys, k: UserPage): nat
    requires InUse(s.m, s.master, s.live, k.cpu, Slot(k.page))
  {
    Word(TableIn(s.m, s.master, k.cpu, Slot(k.page)), k.page % SLOTS)
  }

  ghost predicate Enabled(s: Sys, ev: Event) {
    match ev
    case Allocator(e) =>
      C.Enabled(s.a, e)
      && (e.CallFree? ==> forall f :: f in s.a.part && s.a.part[f] == s.a.part[e.p] && f in s.roles ==> s.roles[f].Own?)
    case EnterTable(c, x, t, flags) =>
      c in s.live && c < CPUS && x < KSLOT && DirWordOf(s, c, x) < |s.m| && s.m[DirWordOf(s, c, x)] == ZERO
      && t in s.roles && s.roles[t] == Own(c) && HasLinear(t) && PRESENT <= flags
    case AddFlags(c, x, flags) => InUse(s.m, s.master, s.live, c, x)
    case PutPage(k, f, flags) =>
      k.page < KVA && InUse(s.m, s.master, s.live, k.cpu, Slot(k.page)) && PageWord(s, k) < |s.m|
      && f in s.roles && s.roles[f] == Own(k.cpu) && PRESENT <= flags
    case Store(m) => Spared(s.m, m, s.master, s.live)
    case GoLive(c) => c < CPUS && c !in s.live && UserHalfZero(s.m, s.master, c)
  }

  /** The roles after a step of the allocator on CPU c: what it has just handed out is its own,
      what it takes back has no role. */
  function RolesIn(part: Part, roles: map<nat, Role>, c: nat): map<nat, Role> {
    map f | f in part && part[f].place == Allocated :: if f in roles then roles[f] else Own(c)
  }

  /** The frame that page k had before is nobody's page any more. */
  function RolesPut(s: Sys, k: UserPage, f: nat): map<nat, Role> {
    var before := PageFrame(s.m, s.master, s.live, k);
    (if before.Some? then s.roles[before.value := Own(k.cpu)] else s.roles)[f := Backs(k)]
  }

  ghost function After(s: Sys, ev: Event): Sys
    requires B.Inv(s.a) && Enabled(s, ev)
  {
    match ev
    case Allocator(e) => var a := C.After(s.a, e); s.(a := a, roles := RolesIn(a.part, s.roles, e.c))
    case EnterTable(c, x, t, flags) =>
      s.(m := s.m[DirWordOf(s, c, x) := Entry(t, flags)], roles := s.roles[t := Table(c, x)])
    case AddFlags(c, x, flags) =>
      var e := s.m[DirWordOf(s, c, x)]; s.(m := s.m[DirWordOf(s, c, x) := e.(flags := e.flags + flags)])
    case PutPage(k, f, flags) => s.(m := s.m[PageWord(s, k) := Entry(f, flags)], roles := RolesPut(s, k, f))
    case Store(m) => s.(m := m)
    case GoLive(c) => s.(live := s.live + {c})
  }

  /** The directories are in memory and not managed; managed frames are in memory. */
  ghost predicate Laid(s: Sys) {
    && s.master !in s.a.part && (forall c :: c in s.live ==> c < CPUS)
    && (forall c: nat {:trigger CpuDir(s.master, c)} ::
      c < CPUS ==> InMemory(s.m, CpuDir(s.master, c)) && CpuDir(s.master, c) !in s.a.part)
    && (forall f {:trigger f in s.a.part} :: f in s.a.part ==> InMemory(s.m, f))
  }

  /** Slots and pages agree with the roles: the frame that a slot or a page names has that role,
      and a frame with a role has its slot or page. */
  ghost predicate TablesTrue(s: Sys) {
    forall c: nat, x: nat {:trigger InUse(s.m, s.master, s.live, c, x)} :: InUse(s.m, s.master, s.live, c, x) ==>
      var e := s.m[Word(CpuDir(s.master, c), x)];
        PRESENT <= e.flags && HasLinear(e.frame) && e.frame in s.roles && s.roles[e.frame] == Table(c, x)
  }

  ghost predicate PagesTrue(s: Sys) {
    forall k: UserPage {:trigger PageFrame(s.m, s.master, s.live, k)} :: PageFrame(s.m, s.master, s.live, k).Some? ==>
      var f := PageFrame(s.m, s.master, s.live, k).value; f in s.roles && s.roles[f] == Backs(k)
  }

  ghost predicate RolesTrue(s: Sys) {
    forall f {:trigger s.roles[f]} :: f in s.roles ==>
      match s.roles[f]
      case Own(_) => true
      case Table(c, x) => InUse(s.m, s.master, s.live, c, x) && TableIn(s.m, s.master, c, x) == f
      case Backs(k) => PageFrame(s.m, s.master, s.live, k) == Some(f)
  }

  ghost predicate Inv(s: Sys) {
    && B.Inv(s.a) && Laid(s) && (forall f {:trigger f in s.roles} :: f in s.roles <==> IsAllocated(s.a.part, f))
    && TablesTrue(s) && PagesTrue(s) && RolesTrue(s)
  }

  /** No word of table t is present. */
  predicate ClearTable(m: Words, t: nat) {
    forall x: nat {:trigger Word(t, x)} :: x < SLOTS ==> !(PRESENT <= At(m, Word(t, x)).flags)
  }

  predicate EntersClear(s: Sys, ev: Event) {
    ev.EnterTable? ==> ClearTable(s.m, ev.t)
  }

  /** A step of the allocator leaves allocated blocks alone, but for the block that a free takes. */
  lemma TickKeepsAllocated(a: B.Sys, c: nat, f: nat)
    requires B.Inv(a) && c < |a.cpus| && IsAllocated(a.part, f)
    ensures IsAllocated(B.Next(a, c).part, f)
  {
    hide B.PcOk, B.Core;
    match a.cpus[c]
    case Unchain(p, k, ret) => UnchainKeepsAllocated(a, c, f);
    case PutLink(p, k, ret) => PutKeepsAllocated(a, c, f);
    case Look(req, k) => LookKeepsAllocated(a, c, f);
    case Halve(p, k, req) => HalveKeepsAllocated(a, c, f);
    case _ => MoveKeepsPart(a, c);
  }

  lemma MoveKeepsPart(a: B.Sys, c: nat)
    requires B.Inv(a) && c < |a.cpus| && var pc := a.cpus[c]; !(pc.Unchain? || pc.PutLink? || pc.Look? || pc.Halve?)
    ensures B.Next(a, c).part == a.part
  {
    hide B.PlaceOk, B.FlagOk, B.ListOk, B.LockOk;
    assert B.PcOk(a, c);
  }

  lemma UnchainKeepsAllocated(a: B.Sys, c: nat, f: nat)
    requires B.Inv(a) && c < |a.cpus| && IsAllocated(a.part, f) && a.cpus[c].Unchain?
    ensures IsAllocated(B.Next(a, c).part, f)
  {
    hide B.PlaceOk, B.FlagOk, B.ListOk, B.LockOk;
    assert B.PcOk(a, c);
    JoinHeld(a.part, a.cpus[c].p, a.cpus[c].k, c);
  }

  lemma PutKeepsAllocated(a: B.Sys, c: nat, f: nat)
    requires B.Inv(a) && c < |a.cpus| && IsAllocated(a.part, f) && a.cpus[c].PutLink?
    ensures IsAllocated(B.Next(a, c).part, f)
  {
    hide B.PlaceOk, B.FlagOk, B.ListOk, B.LockOk;
    assert B.PcOk(a, c);
    MoveFrames(a.part, a.cpus[c].p, a.cpus[c].k, Listed);
  }

  lemma LookKeepsAllocated(a: B.Sys, c: nat, f: nat)
    requires B.Inv(a) && c < |a.cpus| && IsAllocated(a.part, f) && a.cpus[c].Look?
    ensures IsAllocated(B.Next(a, c).part, f)
  {
    hide B.PlaceOk, B.FlagOk, B.LockOk, B.ListOk;
    assert B.PcOk(a, c);
    var k := a.cpus[c].k;
    var l := a.mem.lists[k];
    if l != [] {
      var p := l[|l| - 1];
      ListedHead(a, k, p);
      MoveFrames(a.part, p, k, Held(c));
    }
  }

  lemma ListedHead(a: B.Sys, k: nat, p: nat)
    requires B.Inv(a) && k < |a.mem.lists| && p in a.mem.lists[k]
    ensures Has(a.part, p, k, Listed) && FitsAt(a.part, p)
  {
    hide B.PlaceOk, B.FlagOk, B.LockOk, B.PcOk;
    assert B.ListOk(a, k);
  }

  lemma HalveKeepsAllocated(a: B.Sys, c: nat, f: nat)
    requires B.Inv(a) && c < |a.cpus| && IsAllocated(a.part, f) && a.cpus[c].Halve?
    ensures IsAllocated(B.Next(a, c).part, f)
  {
    hide B.PlaceOk, B.FlagOk, B.LockOk, B.ListOk;
    assert B.PcOk(a, c);
    var pc := a.cpus[c];
    if pc.k == pc.req {
      MoveFrames(a.part, pc.p, pc.k, Allocated);
    } else {
      CutFrames(a.part, pc.p, pc.k - 1);
    }
  }

  lemma AllocatorKeeps(s: Sys, e: C.Event)
    requires Inv(s) && Enabled(s, Allocator(e))
    ensures Inv(After(s, Allocator(e)))
  {
    hide TablesTrue, PagesTrue, B.Inv, PageFrame;
    C.EventKeeps(s.a, e);
    var s' := After(s, Allocator(e));
    forall f | f in s.roles && !s.roles[f].Own? ensures f in s'.roles && s'.roles[f] == s.roles[f] {
      AllocatedStays(s, e, f);
    }
    assert TablesTrue(s') && PagesTrue(s') by { SameMemoryTrue(s, s'); }
  }

  lemma AllocatedStays(s: Sys, e: C.Event, f: nat)
    requires Inv(s) && Enabled(s, Allocator(e)) && f in s.roles && !s.roles[f].Own?
    ensures IsAllocated(C.After(s.a, e).part, f)
  {
    hide TablesTrue, PagesTrue, RolesTrue, Laid;
    match e
    case Tick(c) => TickKeepsAllocated(s.a, c, f);
    case CallFree(c, p) => MoveFrames(s.a.part, p, s.a.part[p].order, Held(c));
    case CallAlloc(c, req) =>
  }

  lemma SameMemoryTrue(s: Sys, s': Sys)
    requires TablesTrue(s) && PagesTrue(s) && s'.m == s.m && s'.master == s.master && s'.live == s.live
    requires forall f :: f in s.roles && !s.roles[f].Own? ==> f in s'.roles && s'.roles[f] == s.roles[f]
    ensures TablesTrue(s') && PagesTrue(s')
  {
    hide PageFrame;
  }

  /** Stores that spare the directories' user halves and the tables change nothing here. */
  lemma StoreKeeps(s: Sys, m: Words)
    requires Inv(s) && Enabled(s, Store(m))
    ensures Inv(After(s, Store(m)))
  {
    hide B.Inv, PageFrame, Spared;
    StoresKeepTranslations(s.m, m, s.master, s.live);
    SameTables(s.m, m, s.master, s.live);
    assert |m| == |s.m| by { SparedLength(s.m, m, s.master, s.live); }
  }

  lemma SparedLength(m: Words, m': Words, master: nat, live: set<nat>)
    requires Spared(m, m', master, live)
    ensures |m'| == |m|
  {
  }

  /** A CPU that goes live has no tables and no pages. */
  lemma GoLiveKeeps(s: Sys, c: nat)
    requires Inv(s) && Enabled(s, Event.GoLive(c))
    ensures Inv(After(s, Event.GoLive(c)))
  {
    hide B.Inv, PageFrame, UserHalfZero;
    NewlyLive(s.m, s.master, s.live, c);
  }

  /** A page whose directory word and table word are as before is mapped as before. */
  lemma SamePage(m: Words, m': Words, master: nat, live: set<nat>, k: UserPage)
    requires var dir := CpuDir(master, k.cpu); Pde(m', dir, k.page) == Pde(m, dir, k.page)
    requires var e := Pde(m, CpuDir(master, k.cpu), k.page);
      e != ZERO ==> At(m', Word(e.frame, k.page % SLOTS)) == At(m, Word(e.frame, k.page % SLOTS))
    ensures PageFrame(m', master, live, k) == PageFrame(m, master, live, k)
  {
    assert 0 !in ZERO.flags;
  }

  /** A write to word x of CPU c's directory changes no other directory word and no word of a
      managed frame. */
  lemma OneDirWord(s: Sys, c: nat, x: nat, e: Entry)
    requires Laid(s) && c < CPUS && x < KSLOT
    ensures DirWordOf(s, c, x) < |s.m|
    ensures var m' := s.m[DirWordOf(s, c, x) := e];
      && (forall d: nat, y: nat {:trigger Word(CpuDir(s.master, d), y)} ::
        d < CPUS && y < SLOTS && !(d == c && y == x) ==>
            Word(CpuDir(s.master, d), y) < |s.m|
              && m'[Word(CpuDir(s.master, d), y)] == s.m[Word(CpuDir(s.master, d), y)])
      && (forall f: nat, y: nat {:trigger Word(f, y)} ::
        f in s.a.part && y < SLOTS ==> At(m', Word(f, y)) == At(s.m, Word(f, y)))
  {
    assert InMemory(s.m, CpuDir(s.master, c));
    forall d: nat, y: nat | d < CPUS && y < SLOTS && !(d == c && y == x)
      ensures Word(CpuDir(s.master, d), y) < |s.m| && Word(CpuDir(s.master, d), y) != DirWordOf(s, c, x)
    {
      assert InMemory(s.m, CpuDir(s.master, d));
    }
  }

  /** The table of a slot in use is a managed frame. */
  lemma TableManaged(s: Sys, c: nat, x: nat)
    requires Inv(s) && InUse(s.m, s.master, s.live, c, x)
    ensures var t := TableIn(s.m, s.master, c, x);
      t in s.roles && s.roles[t] == Table(c, x) && IsAllocated(s.a.part, t) && InMemory(s.m, t)
    ensures PRESENT <= s.m[DirWordOf(s, c, x)].flags
  {
    hide B.Inv, PagesTrue, RolesTrue;
  }

  /** Pages of other slots are mapped as before. */
  lemma OtherSlots(s: Sys, c: nat, x: nat, e: Entry, k: UserPage)
    requires Inv(s) && c < CPUS && x < KSLOT && DirWordOf(s, c, x) < |s.m| && k.cpu in s.live && k.cpu < CPUS
    requires k.page < KVA
    requires !(k.cpu == c && Slot(k.page) == x)
    ensures PageFrame(s.m[DirWordOf(s, c, x) := e], s.master, s.live, k) == PageFrame(s.m, s.master, s.live, k)
  {
    hide B.Inv, TablesTrue, PagesTrue, RolesTrue, PageFrame, Laid;
    InvLaid(s);
    OneDirWord(s, c, x, e);
    var pde := Pde(s.m, CpuDir(s.master, k.cpu), k.page);
    assert Word(CpuDir(s.master, k.cpu), Slot(k.page)) < |s.m|;
    if pde != ZERO {
      assert InUse(s.m, s.master, s.live, k.cpu, Slot(k.page));
      TableManaged(s, k.cpu, Slot(k.page));
    }
    SamePage(s.m, s.m[DirWordOf(s, c, x) := e], s.master, s.live, k);
  }

  lemma InvLaid(s: Sys)
    requires Inv(s)
    ensures Laid(s)
  {
  }

  lemma AddFlagsKeeps(s: Sys, c: nat, x: nat, flags: Bits)
    requires Inv(s) && Enabled(s, AddFlags(c, x, flags))
    ensures Inv(After(s, AddFlags(c, x, flags)))
  {
    hide B.Inv, PageFrame;
    var s' := After(s, AddFlags(c, x, flags));
    var e := s.m[DirWordOf(s, c, x)];
    OneDirWord(s, c, x, e.(flags := e.flags + flags));
    TableManaged(s, c, x);
    forall k: UserPage | k.cpu in s.live && k.cpu < CPUS && k.page < KVA
      ensures PageFrame(s'.m, s.master, s.live, k) == PageFrame(s.m, s.master, s.live, k)
    {
      if k.cpu == c && Slot(k.page) == x {
        MoreFlags(s, k, flags);
      } else {
        OtherSlots(s, c, x, e.(flags := e.flags + flags), k);
      }
    }
    PagesElsewhere(s.m, s'.m, s.master, s.live);
    SlotsAfter(s, s', c, x);
  }

  /** Only pages below the kernel half of existing CPUs have frames. */
  lemma PagesElsewhere(m: Words, m': Words, master: nat, live: set<nat>)
    ensures forall k: UserPage {:trigger PageFrame(m', master, live, k)} ::
      !(k.cpu in live && k.cpu < CPUS && k.page < KVA) ==>
      PageFrame(m', master, live, k) == None && PageFrame(m, master, live, k) == None
  {
    forall k: UserPage | !(k.cpu in live && k.cpu < CPUS && k.page < KVA)
      ensures PageFrame(m', master, live, k) == None && PageFrame(m, master, live, k) == None
    {
    }
  }

  lemma MoreFlags(s: Sys, k: UserPage, flags: Bits)
    requires Inv(s) && Enabled(s, AddFlags(k.cpu, Slot(k.page), flags)) && k.page < KVA
    ensures PageFrame(After(s, AddFlags(k.cpu, Slot(k.page), flags)).m, s.master, s.live, k) ==
      PageFrame(s.m, s.master, s.live, k)
  {
    hide B.Inv, PagesTrue, RolesTrue, TablesTrue, Laid;
    InvLaid(s);
    var c, x := k.cpu, Slot(k.page);
    var e := s.m[DirWordOf(s, c, x)];
    OneDirWord(s, c, x, e.(flags := e.flags + flags));
    TableManaged(s, c, x);
    assert Word(TableIn(s.m, s.master, c, x), k.page % SLOTS) >= 0;
  }

  /** After a write to word x of CPU c's directory all other slots are in use as before. */
  lemma SlotsAfter(s: Sys, s': Sys, c: nat, x: nat)
    requires Laid(s) && c < CPUS && x < KSLOT && s'.master == s.master && |s'.m| == |s.m|
    requires forall d: nat, y: nat {:trigger Word(CpuDir(s.master, d), y)} ::
      d < CPUS && y < SLOTS && !(d == c && y == x) ==>
      Word(CpuDir(s.master, d), y) < |s.m| && s'.m[Word(CpuDir(s.master, d), y)] == s.m[Word(CpuDir(s.master, d), y)]
    ensures forall d: nat, y: nat {:trigger InUse(s'.m, s.master, s.live, d, y)} :: !(d == c && y == x) ==>
      (InUse(s'.m, s.master, s.live, d, y) <==> InUse(s.m, s.master, s.live, d, y))
      && (InUse(s.m, s.master, s.live, d, y) ==>
        s'.m[Word(CpuDir(s.master, d), y)] == s.m[Word(CpuDir(s.master, d), y)])
  {
    forall d: nat, y: nat | !(d == c && y == x)
      ensures InUse(s'.m, s.master, s.live, d, y) <==> InUse(s.m, s.master, s.live, d, y)
      ensures InUse(s.m, s.master, s.live, d, y) ==>
        s'.m[Word(CpuDir(s.master, d), y)] == s.m[Word(CpuDir(s.master, d), y)]
    {
      if d < CPUS && y < KSLOT { assert Word(CpuDir(s.master, d), y) < |s.m|; }
    }
  }

  /** After a table is entered, the pages of its slot are mapped as its words say. */
  lemma EnteredPage(s: Sys, c: nat, x: nat, t: nat, flags: Bits, k: UserPage)
    requires Inv(s) && Enabled(s, EnterTable(c, x, t, flags)) && k.cpu in s.live && k.cpu < CPUS && k.page < KVA
    ensures var e := At(s.m, Word(t, k.page % SLOTS));
      PageFrame(After(s, EnterTable(c, x, t, flags)).m, s.master, s.live, k) ==
        if !(k.cpu == c && Slot(k.page) == x) then PageFrame(s.m, s.master, s.live, k)
        else if PRESENT <= e.flags then Some(e.frame) else None
    ensures k.cpu == c && Slot(k.page) == x ==> PageFrame(s.m, s.master, s.live, k) == None
  {
    hide B.Inv, PagesTrue, RolesTrue, TablesTrue, Laid;
    InvLaid(s);
    assert 0 !in ZERO.flags;
    if k.cpu == c && Slot(k.page) == x {
      OneDirWord(s, c, x, Entry(t, flags));
      assert t in s.roles && IsAllocated(s.a.part, t);
      assert At(After(s, EnterTable(c, x, t, flags)).m, Word(t, k.page % SLOTS)) == At(s.m, Word(t, k.page % SLOTS));
    } else {
      OtherSlots(s, c, x, Entry(t, flags), k);
    }
  }

  /** Entering a table keeps the invariant exactly when no word of the table is present. */
  lemma EnterKeepsIff(s: Sys, c: nat, x: nat, t: nat, flags: Bits)
    requires Inv(s) && Enabled(s, EnterTable(c, x, t, flags))
    ensures Inv(After(s, EnterTable(c, x, t, flags))) <==> ClearTable(s.m, t)
  {
    if ClearTable(s.m, t) { ClearEnterKeeps(s, c, x, t, flags); }
    else {
      var y: nat :| y < SLOTS && PRESENT <= At(s.m, Word(t, y)).flags;
      StaleEnterBreaks(s, c, x, t, flags, y);
    }
  }

  lemma ClearEnterKeeps(s: Sys, c: nat, x: nat, t: nat, flags: Bits)
    requires Inv(s) && Enabled(s, EnterTable(c, x, t, flags)) && ClearTable(s.m, t)
    ensures Inv(After(s, EnterTable(c, x, t, flags)))
  {
    hide B.Inv, PageFrame;
    var s' := After(s, EnterTable(c, x, t, flags));
    OneDirWord(s, c, x, Entry(t, flags));
    forall k: UserPage | k.cpu in s.live && k.cpu < CPUS && k.page < KVA
      ensures PageFrame(s'.m, s.master, s.live, k) == PageFrame(s.m, s.master, s.live, k)
    {
      EnteredPage(s, c, x, t, flags, k);
      assert !(PRESENT <= At(s.m, Word(t, k.page % SLOTS)).flags);
    }
    PagesElsewhere(s.m, s'.m, s.master, s.live);
    SlotsAfter(s, s', c, x);
    assert 0 !in ZERO.flags;
  }

  lemma StaleEnterBreaks(s: Sys, c: nat, x: nat, t: nat, flags: Bits, y: nat)
    requires Inv(s) && Enabled(s, EnterTable(c, x, t, flags)) && y < SLOTS && PRESENT <= At(s.m, Word(t, y)).flags
    ensures !Inv(After(s, EnterTable(c, x, t, flags)))
  {
    hide B.Inv, PageFrame, TablesTrue, Laid;
    var k := UserPage(c, Word(x, y));
    assert Slot(k.page) == x && k.page % SLOTS == y && k.page < KVA;
    EnteredPage(s, c, x, t, flags, k);
  }

  /** After a table word is written, its page has the frame given, and all others the frame they had. */
  lemma PutFrames(s: Sys, k: UserPage, f: nat, flags: Bits, l: UserPage)
    requires Inv(s) && Enabled(s, PutPage(k, f, flags)) && l.cpu in s.live && l.cpu < CPUS && l.page < KVA
    ensures PageFrame(After(s, PutPage(k, f, flags)).m, s.master, s.live, l) == if l == k then Some(f)
      else PageFrame(s.m, s.master, s.live, l)
  {
    hide B.Inv, PagesTrue, RolesTrue, TablesTrue, Laid;
    InvLaid(s);
    var s' := After(s, PutPage(k, f, flags));
    TableManaged(s, k.cpu, Slot(k.page));
    DirWordsPut(s, k, f, flags, l.cpu, Slot(l.page));
    if l != k {
      if InUse(s.m, s.master, s.live, l.cpu, Slot(l.page)) { TableManaged(s, l.cpu, Slot(l.page)); }
      SamePage(s.m, s'.m, s.master, s.live, l);
    }
  }

  lemma DirWordsPut(s: Sys, k: UserPage, f: nat, flags: Bits, d: nat, y: nat)
    requires Inv(s) && Enabled(s, PutPage(k, f, flags)) && d < CPUS && y < SLOTS
    ensures Word(CpuDir(s.master, d), y) < |s.m|
    ensures After(s, PutPage(k, f, flags)).m[Word(CpuDir(s.master, d), y)] == s.m[Word(CpuDir(s.master, d), y)]
  {
    hide B.Inv, PagesTrue, RolesTrue, TablesTrue;
    TableManaged(s, k.cpu, Slot(k.page));
    assert InMemory(s.m, CpuDir(s.master, d));
    assert Word(CpuDir(s.master, d), y) / SLOTS == CpuDir(s.master, d);
    assert PageWord(s, k) / SLOTS == TableIn(s.m, s.master, k.cpu, Slot(k.page));
  }

  lemma PutKeeps(s: Sys, k: UserPage, f: nat, flags: Bits)
    requires Inv(s) && Enabled(s, PutPage(k, f, flags))
    ensures Inv(After(s, PutPage(k, f, flags)))
  {
    hide B.Inv, PageFrame;
    var s' := After(s, PutPage(k, f, flags));
    forall l: UserPage | l.cpu in s.live && l.cpu < CPUS && l.page < KVA
      ensures PageFrame(s'.m, s.master, s.live, l) == if l == k then Some(f) else PageFrame(s.m, s.master, s.live, l)
    {
      PutFrames(s, k, f, flags, l);
    }
    PagesElsewhere(s.m, s'.m, s.master, s.live);
    PutSlots(s, k, f, flags);
    RolesPutAt(s, k, f);
    assert k.cpu < CPUS && s'.roles == RolesPut(s, k, f);
    hide After, RolesPut;
    assert TablesTrue(s');
    assert RolesTrue(s');
    assert PagesTrue(s');
  }

  lemma PutSlots(s: Sys, k: UserPage, f: nat, flags: Bits)
    requires Inv(s) && Enabled(s, PutPage(k, f, flags))
    ensures var m' := After(s, PutPage(k, f, flags)).m;
      && (forall d: nat, y: nat {:trigger InUse(m', s.master, s.live, d, y)} :: InUse(m', s.master, s.live, d, y) <==>
        InUse(s.m, s.master, s.live, d, y))
      && (forall d: nat, y: nat {:trigger InUse(m', s.master, s.live, d, y)} :: InUse(m', s.master, s.live, d, y) ==>
            m'[Word(CpuDir(s.master, d), y)] == s.m[Word(CpuDir(s.master, d), y)])
  {
    hide B.Inv, PageFrame, TablesTrue, PagesTrue, RolesTrue, After;
    PutLength(s, k, f, flags);
    forall d: nat, y: nat | d < CPUS && y < SLOTS
      ensures Word(CpuDir(s.master, d), y) < |s.m|
      ensures After(s, PutPage(k, f, flags)).m[Word(CpuDir(s.master, d), y)] == s.m[Word(CpuDir(s.master, d), y)]
    {
      DirWordsPut(s, k, f, flags, d, y);
    }
  }

  lemma PutLength(s: Sys, k: UserPage, f: nat, flags: Bits)
    requires B.Inv(s.a) && Enabled(s, PutPage(k, f, flags))
    ensures |After(s, PutPage(k, f, flags)).m| == |s.m|
  {
  }

  /** The roles after page k is put: f backs k, the frame before it is the kernel's, others keep theirs. */
  lemma RolesPutAt(s: Sys, k: UserPage, f: nat)
    requires PagesTrue(s) && f in s.roles && s.roles[f].Own?
    ensures RolesPut(s, k, f).Keys == s.roles.Keys && RolesPut(s, k, f)[f] == Backs(k)
    ensures forall g {:trigger s.roles[g]} :: g in s.roles && g != f ==>
      RolesPut(s, k, f)[g] == if PageFrame(s.m, s.master, s.live, k) == Some(g) then Own(k.cpu) else s.roles[g]
    ensures PageFrame(s.m, s.master, s.live, k).Some? ==>
      PageFrame(s.m, s.master, s.live, k).value in s.roles
        && s.roles[PageFrame(s.m, s.master, s.live, k).value] == Backs(k)
  {
    hide PageFrame;
  }

  /** Every event keeps the invariant, but for entering a table that is not clear, which does not. */
  lemma EventKeepsIff(s: Sys, ev: Event)
    requires Inv(s) && Enabled(s, ev)
    ensures Inv(After(s, ev)) <==> EntersClear(s, ev)
  {
    hide Inv, After, Enabled, ClearTable;
    match ev
    case Allocator(e) => AllocatorKeeps(s, e);
    case EnterTable(c, x, t, flags) => EnterKeepsIff(s, c, x, t, flags);
    case AddFlags(c, x, flags) => AddFlagsKeeps(s, c, x, flags);
    case PutPage(k, f, flags) => PutKeeps(s, k, f, flags);
    case Store(m) => StoreKeeps(s, m);
    case GoLive(c) => GoLiveKeeps(s, c);
  }

  /** A run, as long as the allocator's own invariant holds to say what comes next. */
  ghost predicate IsRun(ss: seq<Sys>, evs: seq<Event>) {
    |ss| == |evs| + 1 && forall i ::
      0 <= i < |evs| ==> B.Inv(ss[i].a) && Enabled(ss[i], evs[i]) && ss[i + 1] == After(ss[i], evs[i])
  }

  predicate ClearRun(ss: seq<Sys>, evs: seq<Event>, n: nat)
    requires n <= |evs| < |ss|
  {
    forall i :: 0 <= i < n ==> EntersClear(ss[i], evs[i])
  }

  lemma {:induction false} ClearStays(ss: seq<Sys>, evs: seq<Event>, n: nat)
    requires IsRun(ss, evs) && Inv(ss[0]) && n <= |evs| && ClearRun(ss, evs, n)
    ensures Inv(ss[n])
  {
    hide Inv, After, Enabled, EntersClear;
    if n > 0 {
      ClearStays(ss, evs, n - 1);
      EventKeepsIff(ss[n - 1], evs[n - 1]);
    }
  }

  /** No step changes which frames are managed, or where the master directory is. */
  lemma {:induction false} RunKeepsFrames(ss: seq<Sys>, evs: seq<Event>, n: nat)
    requires IsRun(ss, evs) && n <= |evs|
    ensures ss[n].a.part.Keys == ss[0].a.part.Keys && ss[n].master == ss[0].master
  {
    hide B.Inv, Enabled, After;
    if n > 0 {
      RunKeepsFrames(ss, evs, n - 1);
      assert ss[n - 1 + 1] == After(ss[n - 1], evs[n - 1]);
      EventKeepsFrames(ss[n - 1], evs[n - 1]);
    }
  }

  lemma EventKeepsFrames(s: Sys, ev: Event)
    requires B.Inv(s.a) && Enabled(s, ev)
    ensures After(s, ev).a.part.Keys == s.a.part.Keys && After(s, ev).master == s.master
  {
    hide B.Inv, C.After;
    if ev.Allocator? { C.EventKeeps(s.a, ev.e); }
  }

  /** Every state of a run is in order exactly when all tables are clear when they are entered. */
  lemma InterleavedIff(ss: seq<Sys>, evs: seq<Event>)
    requires IsRun(ss, evs) && Inv(ss[0])
    ensures (forall n :: 0 <= n < |ss| ==> Inv(ss[n])) <==> ClearRun(ss, evs, |evs|)
  {
    hide Inv, After, Enabled, EntersClear;
    if ClearRun(ss, evs, |evs|) {
      forall n | 0 <= n < |ss| ensures Inv(ss[n]) { ClearStays(ss, evs, n); }
    } else {
      var i :| 0 <= i < |evs| && !EntersClear(ss[i], evs[i]);
      assert ss[i + 1] == After(ss[i], evs[i]);
      if Inv(ss[i]) { EventKeepsIff(ss[i], evs[i]); }
    }
  }

  /** Whatever the interleaving: a frame that a user page is mapped to is allocated, on no free list,
      in no CPU's hands, no table, and the frame of no other user page. */
  lemma InterleavedExclusive(ss: seq<Sys>, evs: seq<Event>, u: UserPage, v: UserPage)
    requires IsRun(ss, evs) && Inv(ss[0]) && ClearRun(ss, evs, |evs|)
    requires var s := ss[|evs|]; PageFrame(s.m, s.master, s.live, u).Some? && u != v
    ensures var s := ss[|evs|]; var f := PageFrame(s.m, s.master, s.live, u).value;
      && f in s.roles && s.roles[f] == Backs(u) && IsAllocated(s.a.part, f)
        && PageFrame(s.m, s.master, s.live, v) != Some(f)
      && (forall c: nat, x: nat {:trigger InUse(s.m, s.master, s.live, c, x)} ::
        InUse(s.m, s.master, s.live, c, x) ==> TableIn(s.m, s.master, c, x) != f)
      && (forall k: nat, p: nat {:trigger p in s.a.mem.lists[k]} ::
            k < |s.a.mem.lists| && p in s.a.mem.lists[k] ==>
              p in s.a.part && s.a.part[p] != s.a.part[f] && !InBlock(f, p, k))
  {
    ClearStays(ss, evs, |evs|);
    hide PageFrame, Laid;
    NotListed(ss[|evs|].a, PageFrame(ss[|evs|].m, ss[|evs|].master, ss[|evs|].live, u).value);
  }

  function FrameOf(s: Sys, k: UserPage): Option<nat> {
    PageFrame(s.m, s.master, s.live, k)
  }

  /** An event that enters no unclear table changes the frame of a user page only by putting it. */
  lemma EventMaps(s: Sys, ev: Event, k: UserPage)
    requires Inv(s) && Enabled(s, ev) && EntersClear(s, ev)
    ensures FrameOf(After(s, ev), k) == if ev.PutPage? && ev.k == k then Some(ev.f) else FrameOf(s, k)
  {
    hide B.Inv, PageFrame, TablesTrue, PagesTrue, RolesTrue, Laid, UserHalfZero, Spared;
    if !(k.cpu in s.live && k.cpu < CPUS && k.page < KVA) {
      if ev.GoLive? { NewlyLive(s.m, s.master, s.live, ev.cpu); }
      PagesElsewhere(s.m, After(s, ev).m, s.master, s.live);
    } else {
      match ev
      case Allocator(e) =>
      case EnterTable(c, x, t, flags) => EnteredPage(s, c, x, t, flags, k);
      case AddFlags(c, x, flags) =>
        if k.cpu == c && Slot(k.page) == x { MoreFlags(s, k, flags); }
        else {
          var e := s.m[DirWordOf(s, c, x)];
          OtherSlots(s, c, x, e.(flags := e.flags + flags), k);
        }
      case PutPage(l, f, flags) => PutFrames(s, l, f, flags, k);
      case Store(m) => StoresKeepTranslations(s.m, m, s.master, s.live);
      case GoLive(c) => NewlyLive(s.m, s.master, s.live, c);
    }
  }

  /** The frame that page k is last put at, if any. */
  function LastPut(evs: seq<Event>, k: UserPage): Option<nat> {
    if evs == [] then None
    else
      var ev := evs[|evs| - 1];
      if ev.PutPage? && ev.k == k then Some(ev.f) else LastPut(evs[..|evs| - 1], k)
  }

  /** So whatever else runs, a page has the frame it was last put at. */
  lemma {:induction false} FrameIsLastPut(ss: seq<Sys>, evs: seq<Event>, n: nat, k: UserPage)
    requires IsRun(ss, evs) && Inv(ss[0]) && n <= |evs| && ClearRun(ss, evs, n)
    ensures FrameOf(ss[n], k) == if LastPut(evs[..n], k).Some? then LastPut(evs[..n], k) else FrameOf(ss[0], k)
  {
    hide Inv, After, Enabled, EntersClear, FrameOf;
    if n > 0 {
      FrameIsLastPut(ss, evs, n - 1, k);
      ClearStays(ss, evs, n - 1);
      assert ss[n - 1 + 1] == After(ss[n - 1], evs[n - 1]);
      EventMaps(ss[n - 1], evs[n - 1], k);
      assert evs[..n][..n - 1] == evs[..n - 1];
    }
  }

  /** The writes of CPU c's calls of alloc_user_page, in their order. */
  function OwnWrites(evs: seq<Event>, c: nat): seq<Event> {
    if evs == [] then []
    else
      var ev, before := evs[|evs| - 1], OwnWrites(evs[..|evs| - 1], c);
      if ((ev.EnterTable? || ev.AddFlags?) && ev.cpu == c) || (ev.PutPage? && ev.k.cpu == c) then before + [ev]
        else before
  }

  lemma {:induction false} LastOwnPut(evs: seq<Event>, k: UserPage)
    ensures LastPut(evs, k) == LastPut(OwnWrites(evs, k.cpu), k)
  {
    if evs != [] {
      LastOwnPut(evs[..|evs| - 1], k);
      var before := OwnWrites(evs[..|evs| - 1], k.cpu);
      assert (before + [evs[|evs| - 1]])[..|before|] == before;
    }
  }

  /** The writes of the mapping loop of one call, for frames from buf on: a directory write and a
      table write for each page. */
  predicate LoopWrites(own: seq<Event>, c: nat, first: nat, pages: nat, buf: nat) {
    |own| == 2 * pages && forall i: nat :: i < |own| ==>
      if i % 2 == 0
        then (own[i].EnterTable? || own[i].AddFlags?) && own[i].cpu == c && own[i].slot == Slot(first + i / 2)
      else own[i].PutPage? && own[i].k == UserPage(c, first + i / 2) && own[i].f == buf + i / 2
  }

  lemma {:induction false} LoopPuts(own: seq<Event>, c: nat, first: nat, pages: nat, buf: nat, v: nat)
    requires LoopWrites(own, c, first, pages, buf)
    ensures LastPut(own, UserPage(c, v)) == if first <= v < first + pages then Some(buf + (v - first)) else None
    decreases pages
  {
    if pages > 0 {
      var shorter := own[..|own| - 1][..|own| - 2];
      assert shorter == own[..2 * (pages - 1)];
      LoopPuts(shorter, c, first, pages - 1, buf, v);
    }
  }

  /** A whole call among any steps of others: if the writes of CPU c over a run are those of one
      mapping loop, then at its end page i of the request has frame i of the block, and every other
      user page of the CPU has the frame it had at the start. */
  lemma InterleavedCallMaps(ss: seq<Sys>, evs: seq<Event>, c: nat, first: nat, pages: nat, buf: nat, v: nat)
    requires IsRun(ss, evs) && Inv(ss[0]) && ClearRun(ss, evs, |evs|)
    requires LoopWrites(OwnWrites(evs, c), c, first, pages, buf)
    ensures FrameOf(ss[|evs|], UserPage(c, v)) ==
            if first <= v < first + pages then Some(buf + (v - first)) else FrameOf(ss[0], UserPage(c, v))
  {
    hide Inv, IsRun, FrameOf, LoopWrites;
    assert evs[..|evs|] == evs;
    RunLength(ss, evs);
    FrameIsLastPut(ss, evs, |evs|, UserPage(c, v));
    LastOwnPut(evs, UserPage(c, v));
    LoopPuts(OwnWrites(evs, c), c, first, pages, buf, v);
  }

  lemma RunLength(ss: seq<Sys>, evs: seq<Event>)
    requires IsRun(ss, evs)
    ensures |ss| == |evs| + 1
  {
  }

  /** A call that writes nothing, as one that fails, changes no page of its CPU, whatever others do. */
  lemma InterleavedErrorKeeps(ss: seq<Sys>, evs: seq<Event>, k: UserPage)
    requires IsRun(ss, evs) && Inv(ss[0]) && ClearRun(ss, evs, |evs|) && OwnWrites(evs, k.cpu) == []
    ensures FrameOf(ss[|evs|], k) == FrameOf(ss[0], k)
  {
    hide Inv, FrameOf;
    assert evs[..|evs|] == evs;
    FrameIsLastPut(ss, evs, |evs|, k);
    LastOwnPut(evs, k);
  }

  lemma NotListed(a: B.Sys, f: nat)
    requires B.Inv(a) && IsAllocated(a.part, f)
    ensures forall k: nat, p: nat {:trigger p in a.mem.lists[k]} :: k < |a.mem.lists| && p in a.mem.lists[k] ==>
      p in a.part && a.part[p] != a.part[f] && !InBlock(f, p, k)
  {
    hide B.PlaceOk, B.FlagOk, B.LockOk, B.PcOk;
    forall k: nat, p: nat | k < |a.mem.lists| && p in a.mem.lists[k]
      ensures p in a.part && a.part[p] != a.part[f] && !InBlock(f, p, k)
    {
      ListedHead(a, k, p);
    }
  }

  /** Before any CPU is live. */
  lemma InterleavedStart(a: B.Sys, m: Words, master: nat)
    requires B.Inv(a) && Laid(Sys(a, m, master, {}, map[])) && forall f :: f in a.part ==> a.part[f].place != Allocated
    ensures Inv(Sys(a, m, master, {}, map[]))
  {
    hide B.Inv;
  }

  /** One round of alloc_user_page's mapping loop is a table entered, or flags added, and a page put. */
  lemma UserPageIsSteps(s: Sys, k: UserPage, t: nat, f: nat, pteFlags: Bits)
    requires B.Inv(s.a) && Laid(s) && k.cpu < CPUS && k.page < KVA && t in s.a.part
    requires var w := DirWordOf(s, k.cpu, Slot(k.page));
      w < |s.m| && (s.m[w] == ZERO || s.m[w].frame == t)
    requires var w := DirWordOf(s, k.cpu, Slot(k.page));
      var ev := if s.m[w] == ZERO then EnterTable(k.cpu, Slot(k.page), t, UserPde(pteFlags))
        else AddFlags(k.cpu, Slot(k.page), UserPde(pteFlags));
      Enabled(s, ev) && Enabled(After(s, ev), PutPage(k, f, UserPte(pteFlags)))
    ensures var dir, w := CpuDir(s.master, k.cpu), DirWordOf(s, k.cpu, Slot(k.page));
      var ev := if s.m[w] == ZERO then EnterTable(k.cpu, Slot(k.page), t, UserPde(pteFlags))
        else AddFlags(k.cpu, Slot(k.page), UserPde(pteFlags));
      && Word(dir, Slot(k.page)) < |s.m| && Word(t, k.page % SLOTS) < |s.m| && B.Inv(After(s, ev).a)
      && PageBuilt(s.m, dir, t, k.page, Entry(f, UserPte(pteFlags)), UserPde(pteFlags)) ==
        After(After(s, ev), PutPage(k, f, UserPte(pteFlags))).m
  {
    hide B.Inv, PageFrame;
    assert InMemory(s.m, t);
    assert ZERO.flags + UserPde(pteFlags) == UserPde(pteFlags);
  }

  /** Stores of user and kernel code into any frames that are no live directory and no table are steps
      of the machine: into the pages mapped, and into frames that the kernel has for itself. */
  lemma OwnStoresAreSteps(s: Sys, fs: set<nat>, m': Words)
    requires Inv(s) && ChangedIn(s.m, m', fs)
    requires forall f :: f in fs && f in s.roles ==> !s.roles[f].Table?
    requires forall c: nat {:trigger CpuDir(s.master, c)} :: c in s.live && c < CPUS ==> CpuDir(s.master, c) !in fs
    ensures Enabled(s, Store(m'))
  {
    hide B.Inv, PageFrame, PagesTrue, RolesTrue;
    FrameStoresSpare(s.m, m', s.master, s.live, fs);
  }

  lemma UserStoresAreSteps(s: Sys, k: UserPage, m': Words)
    requires Inv(s) && PageFrame(s.m, s.master, s.live, k).Some?
    requires ChangedIn(s.m, m', {PageFrame(s.m, s.master, s.live, k).value})
    ensures Enabled(s, Store(m'))
  {
    hide B.Inv, PageFrame, TablesTrue, RolesTrue;
    forall c: nat | c < CPUS ensures CpuDir(s.master, c) !in s.a.part { assert InMemory(s.m, CpuDir(s.master, c)); }
    OwnStoresAreSteps(s, {PageFrame(s.m, s.master, s.live, k).value}, m');
  }

  /** So are the writes of the kernel outside alloc_user_page, and the linear mappings within it,
      except exactly when they hit a user table. */
  lemma DirectoryStepsAreStepsIff(s: Sys, copied: seq<nat>, ev: L.Event)
    requires Inv(s) && KernelWrite(ev, s.live)
    requires var d := L.Sys(s.m, s.master, copied); L.MasterOk(d) && L.Enabled(d, ev)
    ensures var d := L.Sys(s.m, s.master, copied); Enabled(s, Store(L.After(d, ev).m)) <==>
      !HitsUserTable(d, ev, s.live)
  {
    hide B.Inv, PageFrame, PagesTrue, RolesTrue, L.After, L.Enabled, Spared, HitsUserTable;
    forall c: nat, x: nat | InUse(s.m, s.master, s.live, c, x)
      ensures !(s.master <= TableIn(s.m, s.master, c, x) <= s.master + CPUS)
    {
      NoDirectory(s, TableIn(s.m, s.master, c, x));
    }
    DirectoryStepsSpareIff(L.Sys(s.m, s.master, copied), ev, s.live);
  }

  /** smp.c's first copies are a step as long as no CPU but CPU 0 is live. */
  lemma FirstCopiesAreStep(s: Sys, m': Words)
    requires Inv(s) && (forall c :: c in s.live ==> c == 0)
    requires InMemory(s.m, s.master + CPUS) && L.FirstCopies(s.m, m', s.master)
    ensures Enabled(s, Store(m'))
  {
    hide B.Inv, PageFrame, PagesTrue, RolesTrue, Spared, L.FirstCopies;
    forall c: nat, x: nat | InUse(s.m, s.master, s.live, c, x)
      ensures !(s.master <= TableIn(s.m, s.master, c, x) <= s.master + CPUS)
    {
      NoDirectory(s, TableIn(s.m, s.master, c, x));
    }
    FirstCopiesSpare(s.m, m', s.master, s.live);
  }

  /** A CPU that has made its copy and clears its user half can then go live. */
  lemma ClearingIsSteps(s: Sys, copied: seq<nat>, c: nat)
    requires Inv(s) && c !in s.live
    requires var d := L.Sys(s.m, s.master, copied); L.MasterOk(d) && L.SetUp(d, c) && L.LocalOk(d, c)
    ensures var m' := L.After(L.Sys(s.m, s.master, copied), L.Wipe(c)).m;
      && Enabled(s, Store(m')) && Enabled(s.(m := m'), Event.GoLive(c))
  {
    hide B.Inv, PageFrame, PagesTrue, RolesTrue, TablesTrue, Spared, HitsUserTable, UserHalfZero, L.LocalOk;
    var d := L.Sys(s.m, s.master, copied);
    DirectoryStepsAreStepsIff(s, copied, L.Wipe(c));
    WipeHitsNothing(d, c, s.live);
    WipedReady(d, c);
  }

  lemma NoDirectory(s: Sys, f: nat)
    requires Laid(s) && f in s.a.part
    ensures !(s.master <= f <= s.master + CPUS)
  {
    if s.master < f { assert CpuDir(s.master, f - s.master - 1) == f; }
  }

  /** The mapped pages and their frames. */
  function PagesOf(s: Sys): map<UserPage, nat> {
    map k | k in (set f | f in s.roles && s.roles[f].Backs? :: s.roles[f].page) ::
      var f := PageFrame(s.m, s.master, s.live, k); if f.Some? then f.value else 0
  }

  /** Whenever no CPU is inside the allocator, the state is one between whole calls: good for the
      allocator, and with exclusive frames. */
  lemma IdleExclusive(s: Sys)
    requires Inv(s) && (forall c: nat :: c < |s.a.cpus| ==> s.a.cpus[c] == B.Idle)
    requires FramesLaid(s.a.part, Top(s.a.part.Keys), s.m, s.master) && AllNameTables(s.m, s.master, s.live)
    ensures Exclusive(Space(T.World(s.a.mem, s.a.part, s.a.last), s.m, s.live, PagesOf(s)), s.master)
  {
    hide B.Inv, PageFrame, NamesTables, T.Good, FramesLaid, Top;
    C.QuiescentGood(s.a);
    RolesTablesApart(s);
    assert Recorded(s.m, s.master, s.live, PagesOf(s));
    forall k | k in PagesOf(s) ensures PageOk(s.a.part, s.m, s.master, s.live, k, PagesOf(s)[k]) { RolesPageOk(s, k); }
    forall c: nat | c in s.live ensures UserReady(s.a.part, Top(s.a.part.Keys), s.m, s.master, c) {
      assert CpuDir(s.master, c) >= 0;
      ApartIsOwned(s.a.part, s.m, s.master, s.live, c);
    }
  }

  lemma RolesTablesApart(s: Sys)
    requires Inv(s)
    ensures TablesApart(s.a.part, s.m, s.master, s.live) && TablesShown(s.m, s.master, s.live)
  {
    hide B.Inv, PageFrame, PagesTrue, RolesTrue;
  }

  lemma RolesPageOk(s: Sys, k: UserPage)
    requires Inv(s) && k in PagesOf(s)
    ensures PagesOf(s)[k] in s.roles && PageOk(s.a.part, s.m, s.master, s.live, k, PagesOf(s)[k])
    ensures s.roles[PagesOf(s)[k]] == Backs(k)
  {
    hide B.Inv, Translate;
    var f :| f in s.roles && s.roles[f].Backs? && s.roles[f].page == k;
    assert PageFrame(s.m, s.master, s.live, k) == Some(f);
  }
}
