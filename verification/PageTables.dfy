/** Two-level 32-bit paging as page32.c writes it. A paging word is its 20-bit frame and the
    set of its 12 flag bits that are one, by position; the memory of directories and tables is an
    array of such words, 1024 to a frame. Addresses enter in units of pages. */
module PageTables {
  import opened BuddyMem

  const SLOTS: nat := 1024
  const FRAMES: nat := 0x10_0000
  type Bits = set<nat>

  const PRESENT: Bits := {0}
  const WRITE: Bits := {1}
  const USER: Bits := {2}

  datatype Entry = Entry(frame: nat, flags: Bits)

  const ZERO: Entry := Entry(0, {})

  type Words = seq<Entry>

  /** Index of word x of frame f. */
  function Word(f: nat, x: nat): nat {
    f * SLOTS + x
  }

  predicate InMemory(m: Words, f: nat) {
    Word(f, SLOTS) <= |m|
  }

  /** Directory slot of page v. */
  function Slot(v: nat): nat { v / SLOTS }

  /** A directory entry after ORing pgd_flags in, or after installing table t in an empty slot. */
  function PdeAfter(e: Entry, t: nat, pgdFlags: Bits): Entry {
    Entry(if e == ZERO then t else e.frame, e.flags + pgdFlags)
  }

  /** The arguments of build_pagetable and unmap_pagetable: the directory's frame, the frames of
      the tables behind pgtable[0], pgtable[1], ..., the first page, and the number of pages. */
  datatype Range = Range(dir: nat, tables: seq<nat>, start: nat, pages: nat)

  function End(r: Range): nat { r.start + r.pages }

  /** How many directory slots the range meets; the first is looked at even for no pages. */
  function Spanned(r: Range): nat {
    if r.pages == 0 then 1 else Slot(End(r) - 1) - Slot(r.start) + 1
  }

  /** The page that word x of table i maps. */
  function PageOf(r: Range, i: nat, x: nat): nat {
    Word(Slot(r.start) + i, x)
  }

  predicate InRange(r: Range, v: nat) {
    r.start <= v < End(r)
  }

  /** The directory word of table i. */
  function DirWord(r: Range, i: nat): nat {
    Word(r.dir, Slot(r.start) + i)
  }

  /** Table i is in memory and is not the directory. */
  predicate TableFits(m: Words, r: Range, i: nat)
    requires i < |r.tables|
  {
    InMemory(m, r.tables[i]) && r.tables[i] != r.dir
  }

  predicate DirFits(m: Words, r: Range) {
    InMemory(m, r.dir) && r.start < FRAMES && End(r) <= FRAMES && Spanned(r) <= |r.tables|
  }

  /** What build_pagetable relies on: the tables it is given are distinct frames, and a slot
      that is in use names the table given for it. */
  ghost predicate BuildReady(m: Words, r: Range) {
    && DirFits(m, r)
    && (forall i :: 0 <= i < Spanned(r) ==> TableFits(m, r, i))
    && (forall i, j :: 0 <= i < j < Spanned(r) ==> r.tables[i] != r.tables[j])
    && (forall i {:trigger DirWord(r, i)} ::
      0 <= i < Spanned(r) ==> m[DirWord(r, i)] == ZERO || m[DirWord(r, i)].frame == r.tables[i])
  }

  /** The directory words once the first s slots of the range are entered. */
  ghost predicate DirBuilt(m: Words, m': Words, r: Range, pgdFlags: Bits, s: nat)
    requires DirFits(m, r) && s <= Spanned(r) && |m'| == |m|
  {
    && (forall i: nat {:trigger DirWord(r, i)} ::
      i < s ==> m'[DirWord(r, i)] == PdeAfter(m[DirWord(r, i)], r.tables[i], pgdFlags))
    && (forall x: nat {:trigger Word(r.dir, x)} :: x < SLOTS && !(Slot(r.start) <= x < Slot(r.start) + s) ==>
          m'[Word(r.dir, x)] == m[Word(r.dir, x)])
  }

  /** The words of the range's tables once its first j pages map to frames from phys on. */
  ghost predicate TablesBuilt(m: Words, m': Words, r: Range, phys: nat, pteFlags: Bits, j: nat)
    requires DirFits(m, r) && |m'| == |m|
  {
    forall i: nat, x: nat {:trigger Word(r.tables[i], x)} ::
      i < Spanned(r) && x < SLOTS && Word(r.tables[i], x) < |m| ==>
      m'[Word(r.tables[i], x)] ==
        if r.start <= PageOf(r, i, x) < r.start + j
        then Entry((phys + PageOf(r, i, x) - r.start) % FRAMES, pteFlags) else m[Word(r.tables[i], x)]
  }

  /** Words of other frames are as they were. */
  ghost predicate RestKept(m: Words, m': Words, r: Range)
    requires DirFits(m, r) && |m'| == |m|
  {
    forall w: nat {:trigger m'[w]} ::
      w < |m| && w / SLOTS != r.dir && w / SLOTS !in r.tables[..Spanned(r)] ==> m'[w] == m[w]
  }

  /** The memory after mapping the first j pages of the range to frames from phys on, having
      entered the first s slots: every word of the directory, of each table, and of the rest. */
  ghost predicate BuiltTo(m: Words, m': Words, r: Range, phys: nat, pgdFlags: Bits, pteFlags: Bits, s: nat, j: nat)
    requires DirFits(m, r) && s <= Spanned(r)
  {
    |m'| == |m| && DirBuilt(m, m', r, pgdFlags, s) && TablesBuilt(m, m', r, phys, pteFlags, j) && RestKept(m, m', r)
  }

  lemma EnteredEntry(e: Entry, t: nat, f: Bits)
    ensures e == ZERO ==> PdeAfter(e, t, f) == Entry(t, f)
    ensures e != ZERO && e.flags == f ==> PdeAfter(e, t, f) == e
    ensures e != ZERO ==> PdeAfter(e, t, f) == e.(flags := e.flags + f)
  {
  }

  /** Entering the next slot. */
  lemma EnterBuilds(m: Words, m1: Words, r: Range, phys: nat, pgdFlags: Bits, pteFlags: Bits, s: nat, j: nat)
    requires BuildReady(m, r) && s < Spanned(r) && BuiltTo(m, m1, r, phys, pgdFlags, pteFlags, s, j)
    ensures DirWord(r, s) < |m| && m1[DirWord(r, s)] == m[DirWord(r, s)]
    ensures BuiltTo(m, m1[DirWord(r, s) := PdeAfter(m1[DirWord(r, s)], r.tables[s], pgdFlags)], r, phys, pgdFlags,
      pteFlags, s + 1, j)
  {
    EnterKeepsTables(m, m1, r, phys, pteFlags, s, j, PdeAfter(m1[DirWord(r, s)], r.tables[s], pgdFlags));
    hide TablesBuilt;
    assert DirWord(r, s) == Word(r.dir, Slot(r.start) + s) && DirWord(r, s) / SLOTS == r.dir;
  }

  lemma EnterKeepsTables(m: Words, m1: Words, r: Range, phys: nat, pteFlags: Bits, s: nat, j: nat, e: Entry)
    requires BuildReady(m, r) && s < Spanned(r) && |m1| == |m| && TablesBuilt(m, m1, r, phys, pteFlags, j)
    ensures DirWord(r, s) < |m| && TablesBuilt(m, m1[DirWord(r, s) := e], r, phys, pteFlags, j)
  {
    forall i: nat, x: nat | i < Spanned(r) && x < SLOTS ensures Word(r.tables[i], x) != DirWord(r, s) {
      assert TableFits(m, r, i);
    }
  }

  /** Writing the next page's entry. */
  lemma StoreBuilds(m: Words, m1: Words, r: Range, phys: nat, pgdFlags: Bits, pteFlags: Bits, s: nat, j: nat, i: nat)
    requires BuildReady(m, r) && s <= Spanned(r) && BuiltTo(m, m1, r, phys, pgdFlags, pteFlags, s, j) && j < r.pages
    requires i < Spanned(r) && i == Slot(r.start + j) - Slot(r.start)
    ensures Word(r.tables[i], (r.start + j) % SLOTS) < |m| == |m1|
    ensures BuiltTo(m, m1[Word(r.tables[i], (r.start + j) % SLOTS) := Entry((phys + j) % FRAMES, pteFlags)], r, phys,
      pgdFlags, pteFlags, s, j + 1)
  {
    assert TableFits(m, r, i);
    StoreTables(m, m1, r, phys, pteFlags, j, i);
    var w := Word(r.tables[i], (r.start + j) % SLOTS);
    assert w / SLOTS == r.tables[i] && r.tables[i] in r.tables[..Spanned(r)];
    assert forall x: nat :: x < SLOTS ==> Word(r.dir, x) != w;
    hide TablesBuilt, PageOf;
  }

  lemma StoreTables(m: Words, m1: Words, r: Range, phys: nat, pteFlags: Bits, j: nat, i: nat)
    requires BuildReady(m, r) && |m1| == |m| && TablesBuilt(m, m1, r, phys, pteFlags, j) && j < r.pages
    requires i < Spanned(r) && i == Slot(r.start + j) - Slot(r.start)
    ensures Word(r.tables[i], (r.start + j) % SLOTS) < |m|
    ensures TablesBuilt(m, m1[Word(r.tables[i], (r.start + j) % SLOTS) := Entry((phys + j) % FRAMES, pteFlags)], r,
      phys, pteFlags, j + 1)
  {
    assert TableFits(m, r, i);
    var x0 := (r.start + j) % SLOTS;
    assert PageOf(r, i, x0) == r.start + j;
    var m2 := m1[Word(r.tables[i], x0) := Entry((phys + j) % FRAMES, pteFlags)];
    forall i': nat, x: nat | i' < Spanned(r) && x < SLOTS && Word(r.tables[i'], x) < |m|
      ensures m2[Word(r.tables[i'], x)] ==
            if r.start <= PageOf(r, i', x) < r.start + (j + 1)
            then Entry((phys + PageOf(r, i', x) - r.start) % FRAMES, pteFlags) else m[Word(r.tables[i'], x)]
    {
      SameWord(r, i, x0, i', x);
    }
  }

  /** Words of distinct tables are distinct, and so are the pages they map. */
  lemma SameWord(r: Range, i: nat, x: nat, i': nat, x': nat)
    requires i < |r.tables| && i' < |r.tables| && x < SLOTS && x' < SLOTS && (i != i' ==> r.tables[i] != r.tables[i'])
    ensures Word(r.tables[i], x) == Word(r.tables[i'], x') <==> i == i' && x == x'
    ensures PageOf(r, i, x) == PageOf(r, i', x') <==> i == i' && x == x'
  {
  }

  /** The table index, the address and the PTE pointer are in step: the last is the word of
      page start, or the end of the table just before it. */
  predicate AtPage(r: Range, idx: nat, start: nat, pte: nat, lastPte: nat) {
    && r.start <= start <= End(r) && idx < Spanned(r) <= |r.tables| && lastPte == Word(r.tables[idx], SLOTS)
    && if pte == lastPte then Slot(r.start) + idx + 1 == Slot(start) && start % SLOTS == 0
       else Slot(r.start) + idx == Slot(start) && pte == Word(r.tables[idx], start % SLOTS)
  }

  /** What build_pagetable is to write: frames from phys on, and the flags. */
  datatype Job = Job(phys: nat, pgdFlags: Bits, pteFlags: Bits)

  /** The state of the mapping loop: pages below start are mapped, slots up to idx entered. */
  ghost predicate Building(m: Words, cur: Words, r: Range, job: Job, idx: nat, start: nat, pte: nat, lastPte: nat) {
    && BuildReady(m, r) && AtPage(r, idx, start, pte, lastPte) && DirWord(r, idx) < |m|
    && BuiltTo(m, cur, r, job.phys, job.pgdFlags, job.pteFlags, idx + 1, start - r.start)
  }

  lemma FirstSlot(m: Words, r: Range, job: Job)
    requires BuildReady(m, r)
    ensures DirWord(r, 0) < |m|
    ensures Building(m, m[DirWord(r, 0) := PdeAfter(m[DirWord(r, 0)], r.tables[0], job.pgdFlags)], r, job, 0, r.start,
                     Word(r.tables[0], r.start % SLOTS), Word(r.tables[0], SLOTS))
  {
    EnterBuilds(m, m, r, job.phys, job.pgdFlags, job.pteFlags, 0, 0);
  }

  lemma AllSlots(m: Words, cur: Words, r: Range, job: Job, idx: nat, start: nat, pte: nat, lastPte: nat)
    requires Building(m, cur, r, job, idx, start, pte, lastPte)
    ensures DirFits(m, r)
    ensures start >= End(r) ==> BuiltTo(m, cur, r, job.phys, job.pgdFlags, job.pteFlags, Spanned(r), r.pages)
    ensures idx == 0 && start == r.start ==> BuiltTo(m, cur, r, job.phys, job.pgdFlags, job.pteFlags, 1, 0)
  {
    assert start >= End(r) ==> idx + 1 == Spanned(r) && start - r.start == r.pages;
  }

  lemma NextSlot(m: Words, cur: Words, r: Range, job: Job, idx: nat, start: nat, pte: nat, lastPte: nat)
    requires Building(m, cur, r, job, idx, start, pte, lastPte) && pte == lastPte && start < End(r)
    ensures idx + 1 < Spanned(r) && DirWord(r, idx + 1) == DirWord(r, idx) + 1 < |cur|
    ensures Building(m, cur[DirWord(r, idx + 1) := PdeAfter(cur[DirWord(r, idx + 1)], r.tables[idx + 1], job.pgdFlags)],
                     r, job, idx + 1, start, Word(r.tables[idx + 1], 0), Word(r.tables[idx + 1], SLOTS))
  {
    NextTable(r, idx, start, pte, lastPte);
    EnterBuilds(m, cur, r, job.phys, job.pgdFlags, job.pteFlags, idx + 1, start - r.start);
  }

  lemma StorePage(m: Words, cur: Words, r: Range, job: Job, idx: nat, start: nat, pte: nat, lastPte: nat)
    requires Building(m, cur, r, job, idx, start, pte, lastPte) && pte != lastPte && start < End(r)
    ensures pte < |cur|
    ensures Building(m, cur[pte := Entry((job.phys + (start - r.start)) % FRAMES, job.pteFlags)], r, job, idx,
      start + 1, pte + 1, lastPte)
    ensures ((job.phys + (start - r.start)) % FRAMES + 1) % FRAMES == (job.phys + (start + 1 - r.start)) % FRAMES
  {
    hide BuiltTo, BuildReady;
    NextPage(r, idx, start, pte, lastPte);
    NextFrame(job.phys, start - r.start);
    StoreBuilds(m, cur, r, job.phys, job.pgdFlags, job.pteFlags, idx + 1, start - r.start, idx);
  }

  /** As AtPage, but a skip over an absent table may have gone past the end of the range. */
  predicate AtOrPast(r: Range, idx: nat, start: nat, pte: nat, lastPte: nat) {
    start >= End(r) || AtPage(r, idx, start, pte, lastPte)
  }

  /** The slots in use name the tables given for them, which are distinct. Tables given for
      absent slots are not looked into. */
  ghost predicate TablesAgree(m: Words, r: Range) {
    && DirFits(m, r)
    && (forall i {:trigger DirWord(r, i)} :: 0 <= i < Spanned(r) && m[DirWord(r, i)] != ZERO ==>
          TableFits(m, r, i) && m[DirWord(r, i)].frame == r.tables[i])
    && (forall i, j {:trigger DirWord(r, i), DirWord(r, j)} ::
      0 <= i < j < Spanned(r) && m[DirWord(r, i)] != ZERO && m[DirWord(r, j)] != ZERO ==>
          r.tables[i] != r.tables[j])
  }

  /** What unmap_pagetable relies on. Skipping the topmost slot takes the 32-bit address to 0, so
      that slot must be in use if the loop gets to it; it does not for a range that ends at the
      top of the address space, since the end address is 0 then. */
  ghost predicate UnmapReady(m: Words, r: Range) {
    && TablesAgree(m, r)
    && (End(r) < FRAMES && Slot(r.start) + Spanned(r) == SLOTS ==> m[DirWord(r, Spanned(r) - 1)] != ZERO)
  }

  /** The end of what a call clears. */
  function ClearedEnd(r: Range): nat {
    if End(r) == FRAMES then r.start else End(r)
  }

  /** The skip over an absent slot, from page start on, goes back to address 0 exactly in the
      topmost slot; the loop would then go on behind the directory. UnmapReady excludes that. */
  lemma TopSlotSkipWraps(m: Words, r: Range, start: nat, i: nat)
    requires TablesAgree(m, r) && End(r) < FRAMES && i < Spanned(r) && r.start <= start
    requires Slot(start) == Slot(r.start) + i && m[DirWord(r, i)] == ZERO
    ensures (start + (SLOTS - start % SLOTS)) % FRAMES < start <==> Slot(start) == SLOTS - 1
    ensures Slot(start) == SLOTS - 1 ==>
      !UnmapReady(m, r) && (start + (SLOTS - start % SLOTS)) % FRAMES == 0 && DirWord(r, i) + 1 == Word(r.dir, SLOTS)
  {
  }

  /** Table i of the range is present. */
  predicate Present(m: Words, r: Range, i: nat) {
    DirWord(r, i) < |m| && m[DirWord(r, i)] != ZERO
  }

  /** The memory after clearing the pages of the range below upTo: those of present tables are
      zero words now, and every other word is as it was. */
  ghost predicate UnmappedTo(m: Words, m': Words, r: Range, upTo: nat)
    requires DirFits(m, r)
  {
    && |m'| == |m|
    && (forall i: nat, x: nat {:trigger Word(r.tables[i], x)} ::
          i < Spanned(r) && Present(m, r, i) && x < SLOTS && Word(r.tables[i], x) < |m| ==>
          m'[Word(r.tables[i], x)] == if r.start <= PageOf(r, i, x) < upTo then ZERO else m[Word(r.tables[i], x)])
    && (forall w: nat {:trigger m'[w]} ::
          w < |m| && (forall i: nat :: i < Spanned(r) && Present(m, r, i) ==> w / SLOTS != r.tables[i]) ==>
            m'[w] == m[w])
  }

  /** Clearing page upTo of a present table. */
  lemma ClearUnmaps(m: Words, m1: Words, r: Range, upTo: nat, i: nat)
    requires TablesAgree(m, r) && UnmappedTo(m, m1, r, upTo) && r.start <= upTo < End(r)
    requires i < Spanned(r) && i == Slot(upTo) - Slot(r.start) && Present(m, r, i)
    ensures Word(r.tables[i], upTo % SLOTS) < |m|
    ensures UnmappedTo(m, m1[Word(r.tables[i], upTo % SLOTS) := ZERO], r, upTo + 1)
  {
    var x0 := upTo % SLOTS;
    var w := Word(r.tables[i], x0);
    assert DirWord(r, i) < |m| && PageOf(r, i, x0) == upTo && w / SLOTS == r.tables[i];
    forall i': nat, x: nat | i' < Spanned(r) && Present(m, r, i') && x < SLOTS
      ensures Word(r.tables[i'], x) == w <==> i' == i && x == x0
      ensures PageOf(r, i', x) == upTo <==> i' == i && x == x0
    {
      assert DirWord(r, i') < |m|;
      SameWord(r, i, x0, i', x);
    }
  }

  /** Skipping the rest of an absent table. */
  lemma SkipUnmaps(m: Words, m1: Words, r: Range, from: nat, to: nat, i: nat)
    requires TablesAgree(m, r) && UnmappedTo(m, m1, r, from) && r.start <= from <= to && from <= End(r)
    requires i < Spanned(r) && !Present(m, r, i) && DirWord(r, i) < |m|
    requires Word(Slot(r.start) + i, 0) <= from && to <= Word(Slot(r.start) + i, SLOTS)
    ensures UnmappedTo(m, m1, r, Upto(r, to))
  {
    forall i': nat, x: nat | i' < Spanned(r) && Present(m, r, i') && x < SLOTS
      ensures PageOf(r, i', x) < from <==> PageOf(r, i', x) < Upto(r, to)
    {
      assert i' != i;
    }
  }

  /** The address, but no further than the end of the range. */
  function Upto(r: Range, start: nat): nat {
    if start < End(r) then start else End(r)
  }

  /** Unmapping does not touch the directory. */
  lemma DirKept(m: Words, m1: Words, r: Range, upTo: nat, i: nat)
    requires TablesAgree(m, r) && UnmappedTo(m, m1, r, upTo) && i < Spanned(r)
    ensures DirWord(r, i) < |m| == |m1| && m1[DirWord(r, i)] == m[DirWord(r, i)]
  {
  }

  /** The state of the unmapping loop. */
  ghost predicate Unmapping(m: Words, cur: Words, r: Range, idx: nat, start: nat, pte: nat, lastPte: nat) {
    && UnmapReady(m, r) && r.start <= start && AtOrPast(r, idx, start, pte, lastPte)
    && (start < End(r) && pte != lastPte ==> Present(m, r, idx))
    && UnmappedTo(m, cur, r, Upto(r, start))
  }

  lemma StartUnmap(m: Words, r: Range)
    requires UnmapReady(m, r) && DirWord(r, 0) < |m|
    ensures m[DirWord(r, 0)] == ZERO && End(r) < FRAMES ==> r.start + (SLOTS - r.start % SLOTS) < FRAMES
    ensures if m[DirWord(r, 0)] == ZERO
            then Unmapping(m, m, r, 0, r.start + (SLOTS - r.start % SLOTS), Word(r.tables[0], SLOTS),
              Word(r.tables[0], SLOTS))
            else Unmapping(m, m, r, 0, r.start, Word(r.tables[0], r.start % SLOTS), Word(r.tables[0], SLOTS))
  {
    assert UnmappedTo(m, m, r, r.start);
    if m[DirWord(r, 0)] == ZERO { SkipUnmaps(m, m, r, r.start, r.start + (SLOTS - r.start % SLOTS), 0); }
  }

  /** Moving to the next table, present or not. */
  lemma NextUnmap(m: Words, cur: Words, r: Range, idx: nat, start: nat, pte: nat, lastPte: nat)
    requires Unmapping(m, cur, r, idx, start, pte, lastPte) && pte == lastPte && start < End(r)
    ensures idx + 1 < |r.tables| && DirWord(r, idx + 1) == DirWord(r, idx) + 1 < |cur|
    ensures cur[DirWord(r, idx + 1)] == ZERO && End(r) < FRAMES ==> start + SLOTS < FRAMES
    ensures if cur[DirWord(r, idx + 1)] == ZERO
            then Unmapping(m, cur, r, idx + 1, start + SLOTS, Word(r.tables[idx + 1], SLOTS),
              Word(r.tables[idx + 1], SLOTS))
            else Unmapping(m, cur, r, idx + 1, start, Word(r.tables[idx + 1], 0), Word(r.tables[idx + 1], SLOTS))
  {
    NextTable(r, idx, start, pte, lastPte);
    DirKept(m, cur, r, start, idx + 1);
    if cur[DirWord(r, idx + 1)] == ZERO { SkipUnmaps(m, cur, r, start, start + SLOTS, idx + 1); }
  }

  lemma ClearPage(m: Words, cur: Words, r: Range, idx: nat, start: nat, pte: nat, lastPte: nat)
    requires Unmapping(m, cur, r, idx, start, pte, lastPte) && pte != lastPte && start < End(r)
    ensures pte < |cur| && Unmapping(m, cur[pte := ZERO], r, idx, start + 1, pte + 1, lastPte)
  {
    NextPage(r, idx, start, pte, lastPte);
    ClearUnmaps(m, cur, r, start, idx);
  }

  lemma AllUnmapped(m: Words, cur: Words, r: Range, idx: nat, start: nat, pte: nat, lastPte: nat)
    requires Unmapping(m, cur, r, idx, start, pte, lastPte) && start >= End(r)
    ensures DirFits(m, r) && UnmappedTo(m, cur, r, End(r))
  {
  }

  lemma BuildFits(m: Words, r: Range)
    requires BuildReady(m, r)
    ensures End(r) <= FRAMES
  {
  }

  lemma UnmapFits(m: Words, r: Range)
    requires UnmapReady(m, r)
    ensures DirFits(m, r) && End(r) <= FRAMES && |r.tables| > 0 && DirWord(r, 0) < |m| && UnmappedTo(m, m, r, r.start)
  {
  }

  lemma NextFrame(phys: nat, j: nat)
    ensures ((phys + j) % FRAMES + 1) % FRAMES == (phys + (j + 1)) % FRAMES
  {
  }

  lemma NextTable(r: Range, idx: nat, start: nat, pte: nat, lastPte: nat)
    requires AtPage(r, idx, start, pte, lastPte) && pte == lastPte && start < End(r)
    ensures idx + 1 < Spanned(r) && DirWord(r, idx + 1) == DirWord(r, idx) + 1
    ensures AtPage(r, idx + 1, start, Word(r.tables[idx + 1], 0), Word(r.tables[idx + 1], SLOTS))
  {
  }

  lemma NextPage(r: Range, idx: nat, start: nat, pte: nat, lastPte: nat)
    requires AtPage(r, idx, start, pte, lastPte) && pte != lastPte && start < End(r)
    ensures pte == Word(r.tables[idx], start % SLOTS) && idx == Slot(start) - Slot(r.start)
    ensures AtPage(r, idx, start + 1, pte + 1, lastPte)
  {
  }

  /** The rights that both levels must grant. */
  const RIGHTS: Bits := WRITE + USER

  function At(m: Words, w: nat): Entry {
    if w < |m| then m[w] else ZERO
  }

  /** What the processor makes of a directory entry and a table entry: nothing unless both are
      present, else the frame, with a right only where both grant it. */
  function Combine(pde: Entry, pte: Entry): Option<Entry> {
    if PRESENT <= pde.flags && PRESENT <= pte.flags
    then Some(Entry(pte.frame, pte.flags - (RIGHTS - pde.flags))) else None
  }

  function Pde(m: Words, dir: nat, v: nat): Entry {
    At(m, Word(dir, Slot(v)))
  }

  /** The flat map that directory dir stands for: the translation of page v. */
  function Translate(m: Words, dir: nat, v: nat): Option<Entry> {
    Combine(Pde(m, dir, v), At(m, Word(Pde(m, dir, v).frame, v % SLOTS)))
  }

  /** Page v belongs to a slot that the range meets. */
  predicate Met(r: Range, v: nat) {
    Slot(r.start) <= Slot(v) < Slot(r.start) + Spanned(r)
  }

  /** The table given for the slot of page v. */
  function TableOf(r: Range, v: nat): nat
    requires Met(r, v) && Spanned(r) <= |r.tables|
  {
    r.tables[Slot(v) - Slot(r.start)]
  }

  /** A slot in use that the range does not meet has a table of its own: not one the range is
      given, and not the directory. */
  predicate OwnTable(m: Words, r: Range, v: nat)
    requires Spanned(r) <= |r.tables|
  {
    Met(r, v) || Pde(m, r.dir, v) == ZERO
      || (Pde(m, r.dir, v).frame !in r.tables[..Spanned(r)] && Pde(m, r.dir, v).frame != r.dir)
  }

  /** The directory and the table word of page v once the first j pages are mapped. */
  lemma BuiltWords(m: Words, m': Words, r: Range, phys: nat, pgdFlags: Bits, pteFlags: Bits, j: nat, v: nat)
    requires BuildReady(m, r) && BuiltTo(m, m', r, phys, pgdFlags, pteFlags, Spanned(r), j)
    requires v < FRAMES && Met(r, v)
    ensures Pde(m', r.dir, v) == PdeAfter(Pde(m, r.dir, v), TableOf(r, v), pgdFlags)
    ensures Pde(m', r.dir, v).frame == TableOf(r, v)
    ensures At(m', Word(TableOf(r, v), v % SLOTS)) ==
            if r.start <= v < r.start + j then Entry((phys + (v - r.start)) % FRAMES, pteFlags)
              else At(m, Word(TableOf(r, v), v % SLOTS))
  {
    var i := Slot(v) - Slot(r.start);
    assert DirWord(r, i) == Word(r.dir, Slot(v)) && PageOf(r, i, v % SLOTS) == v && TableFits(m, r, i);
  }

  /** Pages of other slots are not moved by the build. */
  lemma BuiltElsewhere(m: Words, m': Words, r: Range, phys: nat, pgdFlags: Bits, pteFlags: Bits, j: nat, v: nat)
    requires BuildReady(m, r) && BuiltTo(m, m', r, phys, pgdFlags, pteFlags, Spanned(r), j)
    requires v < FRAMES && !Met(r, v) && OwnTable(m, r, v)
    ensures Translate(m', r.dir, v) == Translate(m, r.dir, v)
  {
    assert Word(r.dir, Slot(v)) < |m| && Pde(m', r.dir, v) == Pde(m, r.dir, v) && 0 !in ZERO.flags;
    var w := Word(Pde(m, r.dir, v).frame, v % SLOTS);
    assert w / SLOTS == Pde(m, r.dir, v).frame;
  }

  /** build_pagetable on the flat map, page by page and whatever was in the slots before: the
      first j pages translate to the frames from phys on; another page of a slot that is met
      keeps its table word, under the directory entry as the call left it; no other page changes. */
  lemma BuildTranslates(m: Words, m': Words, r: Range, phys: nat, pgdFlags: Bits, pteFlags: Bits, j: nat, v: nat)
    requires BuildReady(m, r) && BuiltTo(m, m', r, phys, pgdFlags, pteFlags, Spanned(r), j)
    requires v < FRAMES && OwnTable(m, r, v) && j <= r.pages
    ensures Translate(m', r.dir, v) ==
            if r.start <= v < r.start + j
            then Combine(PdeAfter(Pde(m, r.dir, v), TableOf(r, v), pgdFlags),
              Entry((phys + (v - r.start)) % FRAMES, pteFlags))
            else if Met(r, v)
              then Combine(PdeAfter(Pde(m, r.dir, v), TableOf(r, v), pgdFlags), At(m, Word(TableOf(r, v), v % SLOTS)))
            else Translate(m, r.dir, v)
  {
    if Met(r, v) { BuiltWords(m, m', r, phys, pgdFlags, pteFlags, j, v); }
    else { BuiltElsewhere(m, m', r, phys, pgdFlags, pteFlags, j, v); }
  }

  /** Entering a slot whose entry was e with flags f does not show at a page whose table word is
      pte: the word is not present, or the entry was and lacks no right that f brings to the page. */
  predicate Unmoved(e: Entry, pte: Entry, f: Bits) {
    !(PRESENT <= pte.flags) || (PRESENT <= e.flags && pte.flags * RIGHTS * f <= e.flags)
  }

  /** A page beside the range, in a slot that is met, translates as before exactly when it is
      unmoved; in an empty slot, that is, when the table entered there does not map it already:
      the build does not clear tables. */
  lemma BesideUnchangedIff(m: Words, m': Words, r: Range, phys: nat, pgdFlags: Bits, pteFlags: Bits, v: nat)
    requires BuildReady(m, r) && BuiltTo(m, m', r, phys, pgdFlags, pteFlags, Spanned(r), r.pages)
    requires v < FRAMES && Met(r, v) && !InRange(r, v) && PRESENT <= pgdFlags
    ensures Translate(m', r.dir, v) == Translate(m, r.dir, v) <==>
            Unmoved(Pde(m, r.dir, v), At(m, Word(TableOf(r, v), v % SLOTS)), pgdFlags)
  {
    BuiltWords(m, m', r, phys, pgdFlags, pteFlags, r.pages, v);
    assert DirWord(r, Slot(v) - Slot(r.start)) == Word(r.dir, Slot(v));
    UnmovedIff(Pde(m, r.dir, v), TableOf(r, v), At(m, Word(TableOf(r, v), v % SLOTS)), pgdFlags);
    assert 0 !in ZERO.flags;
  }

  lemma UnmovedIff(e: Entry, t: nat, pte: Entry, f: Bits)
    requires PRESENT <= f
    ensures Combine(PdeAfter(e, t, f), pte) == Combine(e, pte) <==> Unmoved(e, pte, f)
  {
    var e' := PdeAfter(e, t, f);
    if PRESENT <= e.flags && PRESENT <= pte.flags {
      if pte.flags * RIGHTS * f <= e.flags {
        assert pte.flags - (RIGHTS - e'.flags) == pte.flags - (RIGHTS - e.flags);
      } else {
        var x :| x in pte.flags * RIGHTS * f && x !in e.flags;
        assert x in pte.flags - (RIGHTS - e'.flags) && x !in pte.flags - (RIGHTS - e.flags);
      }
    }
  }

  /** Where the pages beside the range are unmoved, build_pagetable is the update of the flat map
      by the range. */
  lemma BuildIsFlatUpdate(m: Words, m': Words, r: Range, phys: nat, pgdFlags: Bits, pteFlags: Bits, v: nat)
    requires BuildReady(m, r) && BuiltTo(m, m', r, phys, pgdFlags, pteFlags, Spanned(r), r.pages)
    requires v < FRAMES && OwnTable(m, r, v)
    requires PRESENT <= pgdFlags && PRESENT <= pteFlags && pteFlags * RIGHTS <= pgdFlags
    requires Met(r, v) && !InRange(r, v) ==> Unmoved(Pde(m, r.dir, v), At(m, Word(TableOf(r, v), v % SLOTS)), pgdFlags)
    ensures Translate(m', r.dir, v) ==
            if InRange(r, v) then Some(Entry((phys + (v - r.start)) % FRAMES, pteFlags)) else Translate(m, r.dir, v)
  {
    BuildTranslates(m, m', r, phys, pgdFlags, pteFlags, r.pages, v);
    if InRange(r, v) {
      var f := PdeAfter(Pde(m, r.dir, v), TableOf(r, v), pgdFlags).flags;
      assert pteFlags - (RIGHTS - f) == pteFlags;
    } else if Met(r, v) {
      BesideUnchangedIff(m, m', r, phys, pgdFlags, pteFlags, v);
    }
  }

  /** unmap_pagetable on the flat map: exactly the pages of the range below upTo are gone,
      whichever slots were empty and however many tables the range crosses. */
  lemma UnmapIsFlatDelete(m: Words, m': Words, r: Range, upTo: nat, v: nat)
    requires TablesAgree(m, r) && UnmappedTo(m, m', r, upTo) && upTo <= End(r)
    requires v < FRAMES && OwnTable(m, r, v)
    ensures Translate(m', r.dir, v) == if r.start <= v < upTo then None else Translate(m, r.dir, v)
  {
    DirectoryKept(m, m', r, upTo, v);
    var e := Pde(m, r.dir, v);
    var w := Word(e.frame, v % SLOTS);
    assert w / SLOTS == e.frame && 0 !in ZERO.flags;
    if Met(r, v) {
      var i := Slot(v) - Slot(r.start);
      assert DirWord(r, i) == Word(r.dir, Slot(v)) && PageOf(r, i, v % SLOTS) == v;
      assert Present(m, r, i) <==> e != ZERO;
      assert Present(m, r, i) ==> w == Word(r.tables[i], v % SLOTS);
    } else if e != ZERO && w < |m| {
      assert m'[w] == m[w];
    }
  }

  /** Unmapping leaves every word of the directory alone. */
  lemma DirectoryKept(m: Words, m': Words, r: Range, upTo: nat, v: nat)
    requires TablesAgree(m, r) && UnmappedTo(m, m', r, upTo) && v < FRAMES
    ensures Pde(m', r.dir, v) == Pde(m, r.dir, v)
  {
    var w := Word(r.dir, Slot(v));
    assert w / SLOTS == r.dir && w < |m|;
    forall i: nat | i < Spanned(r) && Present(m, r, i) ensures w / SLOTS != r.tables[i] {
      assert TableFits(m, r, i);
    }
  }

  /** The paging memory; words are reached through the kernel's linear mapping. */
  class PageMemory {
    const mem: array<Entry>

    constructor (frames: nat)
      ensures mem.Length == frames * SLOTS && fresh(mem)
      ensures forall w :: 0 <= w < mem.Length ==> mem[w] == ZERO
    {
      mem := new Entry[frames * SLOTS](w => ZERO);
    }

    /** Install table t in the slot at word pgd, or OR the flags into what is there. The test on
        the 13 low bits of the word also sees the lowest bit of its frame. */
    method EnterSlot(pgd: nat, t: nat, pgdFlags: Bits)
      requires pgd < mem.Length
      modifies mem
      ensures mem[..] == old(mem[..])[pgd := PdeAfter(old(mem[pgd]), t, pgdFlags)]
    {
      ghost var e := mem[pgd];
      EnteredEntry(e, t, pgdFlags);
      if mem[pgd] == ZERO {
        mem[pgd] := Entry(t, pgdFlags);
      } else if mem[pgd].frame % 2 == 1 || mem[pgd].flags != pgdFlags {
        mem[pgd] := mem[pgd].(flags := mem[pgd].flags + pgdFlags);
      }
    }

    /** The end of the table that holds word pte. */
    method TableEnd(pte: nat, ghost t: nat) returns (lastPte: nat)
      requires Word(t, 0) <= pte < Word(t, SLOTS)
      ensures lastPte == Word(t, SLOTS)
    {
      lastPte := (pte / SLOTS + 1) * SLOTS;
    }

    /** build_pagetable. The end address has 32 bits, so a range up to the top of the address
        space ends at 0: its first slot is entered and none of its pages is mapped. */
    method BuildPagetable(r: Range, phys: nat, pgdFlags: Bits, pteFlags: Bits)
      requires BuildReady(mem[..], r)
      modifies mem
      ensures End(r) < FRAMES ==> BuiltTo(old(mem[..]), mem[..], r, phys, pgdFlags, pteFlags, Spanned(r), r.pages)
      ensures End(r) == FRAMES ==> BuiltTo(old(mem[..]), mem[..], r, phys, pgdFlags, pteFlags, 1, 0)
    {
      hide Building, BuildReady, BuiltTo, DirFits;
      ghost var m := mem[..];
      var job := Job(phys, pgdFlags, pteFlags);
      var idx: nat, start: nat, frame := 0, r.start, phys % FRAMES;
      BuildFits(m, r);
      var end := EndAddress(r);
      var pgd: nat, pte: nat, lastPte: nat := OpenFirstSlot(m, r, job);
      while start < end
        invariant Building(m, mem[..], r, job, idx, start, pte, lastPte)
        invariant pgd == DirWord(r, idx) && frame == (phys + (start - r.start)) % FRAMES
        invariant end == 0 ==> idx == 0 && start == r.start
      {
        if pte == lastPte {
          pgd, pte, lastPte := OpenSlot(m, r, job, idx, start, pgd, pte, lastPte);
          idx := idx + 1;
        }
        frame := MapPage(m, r, job, idx, start, pte, lastPte, frame);
        pte := pte + 1;
        start := start + 1;
      }
      AllSlots(m, mem[..], r, job, idx, start, pte, lastPte);
    }

    /** start + length in 32 bits, in pages. */
    method EndAddress(r: Range) returns (end: nat)
      requires End(r) <= FRAMES
      ensures (End(r) < FRAMES && end == End(r)) || (End(r) == FRAMES && end == 0)
    {
      end := End(r) % FRAMES;
    }

    /** Enter the first table of the range in its slot. */
    method OpenFirstSlot(ghost m: Words, r: Range, job: Job) returns (pgd: nat, pte: nat, lastPte: nat)
      requires m == mem[..] && BuildReady(m, r)
      modifies mem
      ensures Building(m, mem[..], r, job, 0, r.start, pte, lastPte) && pgd == DirWord(r, 0)
    {
      FirstSlot(m, r, job);
      pgd := Word(r.dir, Slot(r.start));
      pte := Word(r.tables[0], r.start % SLOTS);
      lastPte := TableEnd(pte, r.tables[0]);
      EnterSlot(pgd, r.tables[0], job.pgdFlags);
    }

    /** Step to the next table of the range and enter it in its slot. */
    method OpenSlot(ghost m: Words, r: Range, job: Job, idx: nat, start: nat, pgd: nat, pte: nat, lastPte: nat)
      returns (pgd': nat, pte': nat, lastPte': nat)
      requires Building(m, mem[..], r, job, idx, start, pte, lastPte) && pte == lastPte && start < End(r)
      requires pgd == DirWord(r, idx)
      modifies mem
      ensures Building(m, mem[..], r, job, idx + 1, start, pte', lastPte') && pte' != lastPte'
      ensures pgd' == DirWord(r, idx + 1)
    {
      NextSlot(m, mem[..], r, job, idx, start, pte, lastPte);
      pte' := Word(r.tables[idx + 1], 0);
      lastPte' := TableEnd(pte', r.tables[idx + 1]);
      pgd' := pgd + 1;
      EnterSlot(pgd', r.tables[idx + 1], job.pgdFlags);
    }

    /** Write the entry of one page. */
    method MapPage(ghost m: Words, r: Range, job: Job, idx: nat, start: nat, pte: nat, lastPte: nat,
                   frame: nat) returns (frame': nat)
      requires Building(m, mem[..], r, job, idx, start, pte, lastPte) && pte != lastPte && start < End(r)
      requires frame == (job.phys + (start - r.start)) % FRAMES
      modifies mem
      ensures Building(m, mem[..], r, job, idx, start + 1, pte + 1, lastPte)
      ensures frame' == (job.phys + (start + 1 - r.start)) % FRAMES
    {
      ghost var cur := mem[..];
      StorePage(m, cur, r, job, idx, start, pte, lastPte);
      mem[pte] := Entry(frame, job.pteFlags);
      assert mem[..] == cur[pte := Entry((job.phys + (start - r.start)) % FRAMES, job.pteFlags)];
      frame' := (frame + 1) % FRAMES;
    }

    /** unmap_pagetable, with addresses of 32 bits. */
    method UnmapPagetable(r: Range)
      requires UnmapReady(mem[..], r)
      modifies mem
      ensures UnmappedTo(old(mem[..]), mem[..], r, ClearedEnd(r))
    {
      hide Unmapping, UnmappedTo, UnmapReady, TablesAgree, DirFits;
      ghost var m := mem[..];
      UnmapFits(m, r);
      var end := EndAddress(r);
      var idx: nat, pgd := 0, DirWord(r, 0);
      var start: nat, pte: nat, lastPte: nat := FirstTable(m, r);
      while start < end
        invariant end == 0 ==> mem[..] == m
        invariant end > 0 ==> Unmapping(m, mem[..], r, idx, start, pte, lastPte) && pgd == DirWord(r, idx)
        decreases End(r) - start
      {
        if pte == lastPte {
          NextUnmap(m, mem[..], r, idx, start, pte, lastPte);
          idx := idx + 1;
          pte := Word(r.tables[idx], 0);
          lastPte := TableEnd(pte, r.tables[idx]);
          pgd := pgd + 1;
          if mem[pgd] == ZERO {
            pte := lastPte;
            start := (start + SLOTS) % FRAMES;
            continue;
          }
        }
        UnmapPage(m, r, idx, start, pte, lastPte);
        pte := pte + 1;
        start := (start + 1) % FRAMES;
      }
      if end > 0 { AllUnmapped(m, mem[..], r, idx, start, pte, lastPte); }
    }

    /** The first table: past its rest when it is absent. */
    method FirstTable(ghost m: Words, r: Range) returns (start: nat, pte: nat, lastPte: nat)
      requires m == mem[..] && UnmapReady(m, r)
      ensures 0 < End(r) < FRAMES ==> Unmapping(m, mem[..], r, 0, start, pte, lastPte)
    {
      hide Unmapping, UnmapReady, UnmappedTo, DirFits;
      UnmapFits(m, r);
      StartUnmap(m, r);
      start := r.start;
      var pgd := Word(r.dir, Slot(start));
      pte := Word(r.tables[0], start % SLOTS);
      lastPte := TableEnd(pte, r.tables[0]);
      if mem[pgd] == ZERO {
        start := (start + (lastPte - pte)) % FRAMES;
        pte := lastPte;
      }
    }

    /** Clear the entry of one page. */
    method UnmapPage(ghost m: Words, r: Range, idx: nat, start: nat, pte: nat, ghost lastPte: nat)
      requires Unmapping(m, mem[..], r, idx, start, pte, lastPte) && pte != lastPte && start < End(r)
      modifies mem
      ensures Unmapping(m, mem[..], r, idx, start + 1, pte + 1, lastPte)
    {
      ghost var cur := mem[..];
      ClearPage(m, cur, r, idx, start, pte, lastPte);
      mem[pte] := ZERO;
      assert mem[..] == cur[pte := ZERO];
    }
  }
}
