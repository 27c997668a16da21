/** alloc_user_page of page32.c: frames from the page allocator, page tables found or allocated,
    and the mapping, table by table through the kernel's linear mapping. */
module UserPages {
  import opened Dyadic
  import opened Partition
  import opened BuddyMem
  import opened BuddyTheorems
  import opened PageTables
  import opened PageByPage
  import opened KernelMap
  import opened Holdings
  import opened TableDemand

  /** The highest managed frame that has a linear address; 0 if there is none. */
  ghost function Top(managed: set<nat>): (top: nat)
    ensures HasLinear(top) && (top == 0 || top in managed)
    ensures forall f: nat :: f in managed && HasLinear(f) ==> f <= top
  {
    Highest(managed, KVA - 2)
  }

  ghost function Highest(managed: set<nat>, n: nat): (top: nat)
    ensures top <= n && (top == 0 || top in managed)
    ensures forall f: nat :: f in managed && f <= n ==> f <= top
  {
    if n == 0 || n in managed then n else Highest(managed, n - 1)
  }

  /** The tables of a user half are allocated frames with a linear address, each in one slot. */
  ghost predicate TablesOwned(part: Part, m: Words, dir: nat)
    requires InMemory(m, dir)
  {
    && (forall s: nat {:trigger Word(dir, s)} :: s < KSLOT && m[Word(dir, s)] != ZERO ==>
          m[Word(dir, s)].frame in part && part[m[Word(dir, s)].frame].place == Allocated
          && HasLinear(m[Word(dir, s)].frame))
    && (forall s: nat, t: nat {:trigger Word(dir, s), Word(dir, t)} ::
      s < t < KSLOT && m[Word(dir, s)] != ZERO && m[Word(dir, t)] != ZERO ==>
          m[Word(dir, s)].frame != m[Word(dir, t)].frame)
  }

  /** The managed frames are in memory, and none of them is a directory or a kernel table that
      maps a managed frame. */
  ghost predicate FramesLaid(part: Part, top: nat, m: Words, master: nat) {
    && HasLinear(top) && InMemory(m, KernelTable(master, Slot(KVA + top)))
    && (forall f ::
      f in part ==> f < FRAMES && InMemory(m, f) && !KernelFrame(master, top, f) && (HasLinear(f) ==> f <= top))
  }

  lemma StaysLaid(part: Part, part': Part, top: nat, m: Words, m': Words, master: nat)
    requires FramesLaid(part, top, m, master) && part'.Keys == part.Keys && |m'| == |m|
    ensures FramesLaid(part', top, m', master) && InMemory(m', KernelTable(master, Slot(KVA + top)))
  {
  }

  lemma LaidDirectories(part: Part, top: nat, m: Words, master: nat)
    requires FramesLaid(part, top, m, master)
    ensures forall c: nat {:trigger CpuDir(master, c)} :: c < CPUS ==> InMemory(m, CpuDir(master, c))
  {
  }

  /** What alloc_user_page relies on: frames laid out, directories in order. */
  ghost predicate UserReady(part: Part, top: nat, m: Words, master: nat, cpu: nat) {
    && FramesLaid(part, top, m, master) && cpu < CPUS
    && NamesTables(m, master, CpuDir(master, cpu)) && TablesOwned(part, m, CpuDir(master, cpu))
  }

  /** The kernel half of the directory, and the kernel tables. */
  predicate Noise(master: nat, top: nat, dir: nat, w: nat) {
    Word(dir, KSLOT) <= w < Word(dir, SLOTS) || master + 1 + CPUS <= w / SLOTS <= KernelTable(master, Slot(KVA + top))
  }

  /** The memories agree but for what the linear mapping of tables writes. */
  ghost predicate SameOff(master: nat, top: nat, dir: nat, a: Words, b: Words) {
    |a| == |b| && forall w: nat {:trigger b[w]} :: w < |a| && !Noise(master, top, dir, w) ==> b[w] == a[w]
  }

  /** The table of the i-th slot from slot on: the one in place, or the next frame from q on. */
  function TableFor(m: Words, dir: nat, slot: nat, q: nat, i: nat): nat {
    var e := At(m, Word(dir, slot + i));
    if e == ZERO then q + Missing(m, dir, slot, i) else e.frame
  }

  function UserTables(m: Words, dir: nat, slot: nat, n: nat, q: nat): (r: seq<nat>)
    ensures |r| == n
  {
    seq<nat>(n, (i: nat) => TableFor(m, dir, slot, q, i))
  }

  function UserRange(m: Words, dir: nat, first: nat, pages: nat, q: nat): (r: Range)
    requires pages > 0
    ensures Spanned(r) == |r.tables| && r.start == first && r.pages == pages && r.dir == dir
  {
    Range(dir, UserTables(m, dir, Slot(first), Straddled(first, pages), q), first, pages)
  }

  /** The flags of the directory and table entries of a user page. */
  function UserPde(pteFlags: Bits): Bits {
    PRESENT + USER + if WRITE <= pteFlags then WRITE else {}
  }

  function UserPte(pteFlags: Bits): Bits {
    PRESENT + USER + pteFlags
  }

  /** Frames from q on are free and have a linear address, as many as there are slots without a table. */
  ghost predicate SpareTables(part: Part, m: Words, dir: nat, first: nat, pages: nat, q: nat)
    requires pages > 0
  {
    forall f: nat ::
      q <= f < q + Missing(m, dir, Slot(first), Straddled(first, pages)) ==>
        f in part && part[f].place == Listed && HasLinear(f)
  }

  lemma UserTable(part: Part, top: nat, m: Words, master: nat, cpu: nat, first: nat, pages: nat, q: nat, i: nat)
    requires UserReady(part, top, m, master, cpu) && pages > 0 && first + pages < KVA && i < Straddled(first, pages)
    requires SpareTables(part, m, CpuDir(master, cpu), first, pages, q)
    ensures var dir := CpuDir(master, cpu); var r := UserRange(m, dir, first, pages, q);
      var e := At(m, Word(dir, Slot(first) + i));
      && DirWord(r, i) == Word(dir, Slot(first) + i) < |m| && r.tables[i] in part && r.tables[i] <= top
      && InMemory(m, r.tables[i])
        && !KernelFrame(master, top, r.tables[i])
      && (e == ZERO ==> part[r.tables[i]].place == Listed && r.tables[i] == q + Missing(m, dir, Slot(first), i))
      && (e != ZERO ==> part[r.tables[i]].place == Allocated && r.tables[i] == e.frame)
  {
    var dir := CpuDir(master, cpu);
    MissingGrows(m, dir, Slot(first), i, Straddled(first, pages));
  }

  lemma UserReadyToBuild(part: Part, top: nat, m: Words, master: nat, cpu: nat, first: nat, pages: nat, q: nat)
    requires UserReady(part, top, m, master, cpu) && pages > 0 && first + pages < KVA
    requires SpareTables(part, m, CpuDir(master, cpu), first, pages, q)
    ensures BuildReady(m, UserRange(m, CpuDir(master, cpu), first, pages, q))
  {
    var dir := CpuDir(master, cpu);
    var r := UserRange(m, dir, first, pages, q);
    forall i: nat | i < Spanned(r)
      ensures TableFits(m, r, i) && (m[DirWord(r, i)] == ZERO || m[DirWord(r, i)].frame == r.tables[i])
    {
      UserTable(part, top, m, master, cpu, first, pages, q, i);
    }
    forall i: nat, j: nat | i < j < Spanned(r) ensures r.tables[i] != r.tables[j] {
      UserTable(part, top, m, master, cpu, first, pages, q, i);
      UserTable(part, top, m, master, cpu, first, pages, q, j);
      MissingGrows(m, dir, Slot(first), i, j);
    }
  }

  /** The linear mapping of a table writes only the kernel half and the kernel tables. */
  lemma LinearMapNoise(m: Words, m': Words, master: nat, top: nat, dir: nat, t: nat, phys: nat, pteFlags: Bits)
    requires t <= top && HasLinear(top) && KernelReady(m, master, dir, KVA + t, 1)
    requires KernelMapped(m, m', KernelRange(master, dir, KVA + t, 1), phys, pteFlags, 1)
    ensures SameOff(master, top, dir, m, m') && NamesTables(m', master, dir)
  {
    var r := KernelRange(master, dir, KVA + t, 1);
    assert r.tables == [KernelTable(master, Slot(KVA + t))];
    assert DirWord(r, 0) == Word(dir, Slot(KVA + t));
    forall w: nat | w < |m| && !Noise(master, top, dir, w) ensures m'[w] == m[w] {
      if w / SLOTS == dir { assert w == Word(r.dir, w % SLOTS); }
    }
    forall s: nat | KSLOT <= s < SLOTS && Word(dir, s) < |m'|
      ensures m'[Word(dir, s)] == ZERO || m'[Word(dir, s)].frame == KernelTable(master, s)
    {
      assert Word(r.dir, s) < |m|;
    }
  }

  lemma LinearUnmapNoise(m: Words, m': Words, master: nat, top: nat, dir: nat, t: nat)
    requires t <= top && HasLinear(top) && KernelUnmapReady(m, master, dir, KVA + t, 1)
    requires var r := KernelRange(master, dir, KVA + t, 1); TablesAgree(m, r) && UnmappedTo(m, m', r, Below(End(r)))
    ensures SameOff(master, top, dir, m, m') && NamesTables(m', master, dir)
  {
    var r := KernelRange(master, dir, KVA + t, 1);
    assert r.tables == [KernelTable(master, Slot(KVA + t))];
    forall w: nat | w < |m| && w / SLOTS != KernelTable(master, Slot(KVA + t)) ensures m'[w] == m[w] {
      assert forall i: nat :: i < Spanned(r) ==> r.tables[i] == KernelTable(master, Slot(KVA + t));
    }
    forall s: nat | KSLOT <= s < SLOTS && Word(dir, s) < |m'| ensures m'[Word(dir, s)] == m[Word(dir, s)] {
      assert Word(dir, s) / SLOTS == dir;
    }
  }

  /** The state of the mapping loop: but for noise, the memory is what one build would have
      written by page j. */
  ghost predicate UserMapped(m: Words, built: Words, cur: Words, master: nat, top: nat, r: Range, buf: nat,
                             pteFlags: Bits, j: nat) {
    && BuildReady(m, r) && j <= r.pages
      && BuiltTo(m, built, r, buf, UserPde(pteFlags), UserPte(pteFlags), Entered(r, j), j)
    && SameOff(master, top, r.dir, built, cur) && NamesTables(cur, master, r.dir)
  }

  /** More noise changes nothing. */
  lemma NoiseKeeps(m: Words, built: Words, cur: Words, cur': Words, master: nat, top: nat, r: Range, buf: nat,
                   pteFlags: Bits, j: nat)
    requires UserMapped(m, built, cur, master, top, r, buf, pteFlags, j)
    requires SameOff(master, top, r.dir, cur, cur') && NamesTables(cur', master, r.dir)
    ensures UserMapped(m, built, cur', master, top, r, buf, pteFlags, j)
  {
    hide BuiltTo, BuildReady;
  }

  /** The directory word and the table of page v of the range, seen in memory cur. */
  predicate SeenAt(cur: Words, master: nat, top: nat, r: Range, v: nat, t: nat) {
    && InMemory(cur, r.dir) && Word(r.dir, Slot(v)) < |cur| && InMemory(cur, t) && Word(t, v % SLOTS) < |cur|
    && KernelFrame(master, top, r.dir) && r.dir <= master + CPUS && !KernelFrame(master, top, t) && t <= top
      && v < KVA
    && (cur[Word(r.dir, Slot(v))] == ZERO || cur[Word(r.dir, Slot(v))].frame == t)
  }

  lemma PdePresent(pteFlags: Bits)
    ensures 0 in UserPde(pteFlags) && 0 in UserPte(pteFlags)
  {
  }

  lemma SeenEntry(m: Words, built: Words, cur: Words, master: nat, top: nat, r: Range, buf: nat, pteFlags: Bits,
                  j: nat)
    requires UserMapped(m, built, cur, master, top, r, buf, pteFlags, j) && j < r.pages && End(r) < KVA
    requires master <= r.dir <= master + CPUS
    ensures var v := r.start + j; var i := Slot(v) - Slot(r.start); var w := Word(r.dir, Slot(v));
      && DirWord(r, i) == w < |cur| == |built| == |m| && i < Spanned(r) <= |r.tables| && InMemory(cur, r.dir)
        && Entered(r, j + 1) == i + 1
      && (cur[w] == ZERO || cur[w].frame == r.tables[i])
      && (cur[w] == ZERO ==> i == Entered(r, j))
      && (i == Entered(r, j) ==> cur[w] == m[w]) && (i == Entered(r, j) || i + 1 == Entered(r, j))
  {
    hide BuiltTo, BuildReady, NamesTables, UserPde, UserPte;
    var w := Word(r.dir, Slot(r.start + j));
    PdePresent(pteFlags);
    SlotSeen(m, built, r, buf, UserPde(pteFlags), UserPte(pteFlags), j);
    assert cur[w] == built[w];
  }

  /** What the mapping loop finds in the directory for page j: a table in place, or an empty slot
      whose table is the next frame of the block for tables. */
  lemma UserPageSeen(part: Part, m: Words, built: Words, cur: Words, master: nat, top: nat, cpu: nat, first: nat,
                     pages: nat, q: nat,
                     buf: nat, pteFlags: Bits, j: nat)
    requires UserReady(part, top, m, master, cpu) && pages > 0 && first + pages < KVA && j < pages
    requires SpareTables(part, m, CpuDir(master, cpu), first, pages, q)
    requires UserMapped(m, built, cur, master, top, UserRange(m, CpuDir(master, cpu), first, pages, q), buf, pteFlags,
      j)
    ensures var dir, v := CpuDir(master, cpu), first + j; var r := UserRange(m, dir, first, pages, q);
      var t := TableAt(r, v);
      && SeenAt(cur, master, top, r, v, t) && t in part
      && var e := cur[Word(dir, Slot(v))];
      && (e == ZERO ==> t == q + Missing(m, dir, Slot(first), Entered(r, j)))
      && Missing(m, dir, Slot(first), Entered(r, j + 1)) == Missing(m, dir, Slot(first), Entered(r, j)) + if e == ZERO
        then 1 else 0
  {
    hide BuiltTo, BuildReady, UserTables, SpareTables, SameOff, UserMapped, UserReady, Missing;
    ReadyDirectory(part, top, m, master, cpu);
    var dir, v := CpuDir(master, cpu), first + j;
    var r := UserRange(m, dir, first, pages, q);
    var i := Slot(v) - Slot(first);
    UserTable(part, top, m, master, cpu, first, pages, q, i);
    SeenEntry(m, built, cur, master, top, r, buf, pteFlags, j);
    NextMissing(m, dir, Slot(first), i);
  }

  lemma NextMissing(m: Words, dir: nat, slot: nat, i: nat)
    ensures Missing(m, dir, slot, i + 1) == Missing(m, dir, slot, i) + if At(m, Word(dir, slot + i)) == ZERO then 1
      else 0
  {
  }

  lemma ReadyDirectory(part: Part, top: nat, m: Words, master: nat, cpu: nat)
    requires UserReady(part, top, m, master, cpu)
    ensures cpu < CPUS && InMemory(m, CpuDir(master, cpu)) && KernelFrame(master, top, CpuDir(master, cpu))
  {
  }

  /** Building the page, on the memory and on what one build would have written. */
  lemma UserPageBuilt(m: Words, built: Words, cur: Words, master: nat, top: nat, r: Range, buf: nat, pteFlags: Bits,
                      j: nat, v: nat, t: nat)
    requires UserMapped(m, built, cur, master, top, r, buf, pteFlags, j) && j < r.pages && v == r.start + j
    requires SeenAt(cur, master, top, r, v, t) && Spanned(r) <= |r.tables| && t == TableAt(r, v)
    ensures var e := Entry((buf + j) % FRAMES, UserPte(pteFlags));
      && |built| == |cur| && BuildReady(cur, OnePage(r.dir, t, v))
      && UserMapped(m, PageBuilt(built, r.dir, t, v, e, UserPde(pteFlags)),
        PageBuilt(cur, r.dir, t, v, e, UserPde(pteFlags)),
                    master, top, r, buf, pteFlags, j + 1)
  {
    hide BuiltTo, BuildReady, NamesTables, SameOff, UserPde, UserPte, Noise, PageBuilt;
    PdePresent(pteFlags);
    NextPageBuilt(m, built, r, buf, UserPde(pteFlags), UserPte(pteFlags), j);
    OnePageReady(cur, r.dir, t, v);
    BuiltOffNoise(built, cur, master, top, r.dir, t, v, Entry((buf + j) % FRAMES, UserPte(pteFlags)),
      UserPde(pteFlags));
  }

  lemma BuiltOffNoise(built: Words, cur: Words, master: nat, top: nat, dir: nat, t: nat, v: nat, e: Entry, f: Bits)
    requires SameOff(master, top, dir, built, cur) && NamesTables(cur, master, dir)
    requires KernelFrame(master, top, dir) && dir <= master + CPUS && !KernelFrame(master, top, t) && v < KVA
    requires Word(dir, Slot(v)) < |cur| && Word(t, v % SLOTS) < |cur|
    ensures SameOff(master, top, dir, PageBuilt(built, dir, t, v, e, f), PageBuilt(cur, dir, t, v, e, f))
    ensures NamesTables(PageBuilt(cur, dir, t, v, e, f), master, dir)
  {
    assert !Noise(master, top, dir, Word(dir, Slot(v)));
    var cur' := PageBuilt(cur, dir, t, v, e, f);
    forall s: nat | KSLOT <= s < SLOTS && Word(dir, s) < |cur'| ensures cur'[Word(dir, s)] == cur[Word(dir, s)] {
      assert Word(dir, s) / SLOTS == dir && Word(t, v % SLOTS) / SLOTS == t;
    }
  }

  /** The linear kernel address of frame t is one page, in a slot whose table is in memory. */
  lemma LinearReady(cur: Words, master: nat, top: nat, dir: nat, t: nat)
    requires NamesTables(cur, master, dir) && t <= top && HasLinear(top) && master <= dir <= master + CPUS
    requires InMemory(cur, KernelTable(master, Slot(KVA + top)))
    ensures KernelReady(cur, master, dir, KVA + t, 1)
    ensures NoWrap((KVA + t) * PAGE_SIZE, PAGE_SIZE) && First((KVA + t) * PAGE_SIZE) == KVA + t
    ensures Covered((KVA + t) * PAGE_SIZE, PAGE_SIZE) == 1 && (t * PAGE_SIZE) / PAGE_SIZE == t
    ensures !Refused((KVA + t) * PAGE_SIZE, MapFlags(false, true))
  {
  }

  /** Building a user page leaves the slot of the linear address in use, so that it can be unmapped. */
  lemma BuiltCanUnmap(cur: Words, master: nat, dir: nat, l: nat, t: nat, v: nat, e: Entry, f: Bits)
    requires KernelUnmapReady(cur, master, dir, l, 1) && v < KVA && t != dir
    requires Word(dir, Slot(v)) < |cur| && Word(t, v % SLOTS) < |cur|
    ensures KernelUnmapReady(PageBuilt(cur, dir, t, v, e, f), master, dir, l, 1)
  {
    var cur' := PageBuilt(cur, dir, t, v, e, f);
    forall s: nat | KSLOT <= s < SLOTS && Word(dir, s) < |cur'| ensures cur'[Word(dir, s)] == cur[Word(dir, s)] {
      assert Word(dir, s) / SLOTS == dir && Word(t, v % SLOTS) / SLOTS == t;
    }
    assert Word(dir, SLOTS - 1) < |cur|;
  }

  lemma SeenKept(cur: Words, cur': Words, master: nat, top: nat, r: Range, v: nat, t: nat)
    requires SeenAt(cur, master, top, r, v, t) && SameOff(master, top, r.dir, cur, cur')
    ensures SeenAt(cur', master, top, r, v, t)
  {
    assert !Noise(master, top, r.dir, Word(r.dir, Slot(v)));
  }
}
