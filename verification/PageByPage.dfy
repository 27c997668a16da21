/** build_pagetable and unmap_pagetable called for one page at a time, as their callers in
    page32.c do, against one call over the whole range. */
module PageByPage {
  import opened PageTables

  /** One page, one table: what a call of build_pagetable writes. */
  function OnePage(dir: nat, t: nat, v: nat): Range {
    Range(dir, [t], v, 1)
  }

  function PageBuilt(cur: Words, dir: nat, t: nat, v: nat, e: Entry, pgdFlags: Bits): (r: Words)
    requires Word(dir, Slot(v)) < |cur| && Word(t, v % SLOTS) < |cur|
    ensures |r| == |cur|
  {
    var entered := cur[Word(dir, Slot(v)) := PdeAfter(cur[Word(dir, Slot(v))], t, pgdFlags)];
    if v + 1 == FRAMES then entered else entered[Word(t, v % SLOTS) := e]
  }

  lemma OnePageBuilds(cur: Words, cur': Words, dir: nat, t: nat, v: nat, phys: nat, pgdFlags: Bits, pteFlags: Bits)
    requires BuildReady(cur, OnePage(dir, t, v))
    requires BuiltTo(cur, cur', OnePage(dir, t, v), phys, pgdFlags, pteFlags, 1, if v + 1 == FRAMES then 0 else 1)
    ensures Word(dir, Slot(v)) < |cur| && Word(t, v % SLOTS) < |cur|
    ensures cur' == PageBuilt(cur, dir, t, v, Entry(phys % FRAMES, pteFlags), pgdFlags)
  {
    var r := OnePage(dir, t, v);
    assert TableFits(cur, r, 0) && DirWord(r, 0) == Word(dir, Slot(v)) && r.tables[0] == t;
    var goal := PageBuilt(cur, dir, t, v, Entry(phys % FRAMES, pteFlags), pgdFlags);
    forall w: nat | w < |cur| ensures cur'[w] == goal[w] {
      var f, x := w / SLOTS, w % SLOTS;
      assert w == Word(f, x);
      if f == dir {
        assert w == Word(r.dir, x);
      } else if f == t {
        assert w == Word(r.tables[0], x);
        assert PageOf(r, 0, x) == v <==> x == v % SLOTS;
      }
    }
  }

  lemma OnePageReady(cur: Words, dir: nat, t: nat, v: nat)
    requires v < FRAMES && InMemory(cur, t) && InMemory(cur, dir) && t != dir
    requires cur[Word(dir, Slot(v))] == ZERO || cur[Word(dir, Slot(v))].frame == t
    ensures Word(t, v % SLOTS) < |cur| && BuildReady(cur, OnePage(dir, t, v))
  {
    var r := OnePage(dir, t, v);
    assert TableFits(cur, r, 0) && DirWord(r, 0) == Word(dir, Slot(v));
  }

  /** How many slots the first j pages of the range meet. */
  function Entered(r: Range, j: nat): nat
    requires j <= r.pages
  {
    if j == 0 then 0 else Slot(r.start + j - 1) - Slot(r.start) + 1
  }

  /** The table of page v of the range. */
  function TableAt(r: Range, v: nat): nat
    requires InRange(r, v) && Spanned(r) <= |r.tables|
  {
    r.tables[Slot(v) - Slot(r.start)]
  }

  /** The directory entry that page j meets: empty or naming the page's table, and complete
      already when an earlier page was in the same slot. */
  lemma SlotSeen(m: Words, cur: Words, r: Range, phys: nat, pgdFlags: Bits, pteFlags: Bits, j: nat)
    requires BuildReady(m, r) && j < r.pages && pgdFlags != {}
    requires BuiltTo(m, cur, r, phys, pgdFlags, pteFlags, Entered(r, j), j)
    ensures DirFits(m, r)
    ensures var i := Slot(r.start + j) - Slot(r.start); var e := cur[DirWord(r, i)];
      && i < Spanned(r) && DirWord(r, i) == Word(r.dir, Slot(r.start + j)) < |cur| == |m|
      && r.tables[i] != r.dir && InMemory(cur, r.tables[i]) && InMemory(cur, r.dir)
      && (i == Entered(r, j) || i + 1 == Entered(r, j))
      && (e == ZERO || e.frame == r.tables[i])
      && (i < Entered(r, j) ==> e != ZERO && PdeAfter(e, r.tables[i], pgdFlags) == e)
      && (i == Entered(r, j) ==> e == m[DirWord(r, i)])
  {
    var i := Slot(r.start + j) - Slot(r.start);
    assert TableFits(m, r, i) && DirWord(r, i) == Word(r.dir, Slot(r.start) + i);
    var e := m[DirWord(r, i)];
    var f :| f in pgdFlags;
    assert f !in ZERO.flags && e.flags + pgdFlags + pgdFlags == e.flags + pgdFlags;
  }

  /** One more call of build_pagetable carries the build one page further. */
  lemma NextPageBuilt(m: Words, cur: Words, r: Range, phys: nat, pgdFlags: Bits, pteFlags: Bits, j: nat)
    requires BuildReady(m, r) && j < r.pages && pgdFlags != {}
    requires BuiltTo(m, cur, r, phys, pgdFlags, pteFlags, Entered(r, j), j)
    ensures var v := r.start + j; var t := TableAt(r, v);
      && Word(r.dir, Slot(v)) < |cur| && Word(t, v % SLOTS) < |cur|
      && BuildReady(cur, OnePage(r.dir, t, v))
      && BuiltTo(m, PageBuilt(cur, r.dir, t, v, Entry((phys + j) % FRAMES, pteFlags), pgdFlags), r, phys, pgdFlags,
        pteFlags,
                 Entered(r, j + 1), if v + 1 == FRAMES then j else j + 1)
  {
    hide BuiltTo, BuildReady;
    SlotSeen(m, cur, r, phys, pgdFlags, pteFlags, j);
    var i, s := Slot(r.start + j) - Slot(r.start), Entered(r, j);
    OnePageReady(cur, r.dir, r.tables[i], r.start + j);
    var entered := cur[DirWord(r, i) := PdeAfter(cur[DirWord(r, i)], r.tables[i], pgdFlags)];
    if i == s {
      EnterBuilds(m, cur, r, phys, pgdFlags, pteFlags, s, j);
    } else {
      assert entered == cur;
    }
    assert Entered(r, j + 1) == i + 1 && (r.start + j) % SLOTS < SLOTS;
    StoreBuilds(m, entered, r, phys, pgdFlags, pteFlags, i + 1, j, i);
  }

  /** What a call of unmap_pagetable for one page leaves; its end address is 0 for the topmost page. */
  function PageUnmapped(cur: Words, dir: nat, t: nat, v: nat): (r: Words)
    requires Word(dir, Slot(v)) < |cur| && Word(t, v % SLOTS) < |cur|
    ensures |r| == |cur|
  {
    if cur[Word(dir, Slot(v))] == ZERO || v + 1 == FRAMES then cur else cur[Word(t, v % SLOTS) := ZERO]
  }

  lemma OnePageUnmaps(cur: Words, cur': Words, dir: nat, t: nat, v: nat)
    requires UnmapReady(cur, OnePage(dir, t, v))
    requires UnmappedTo(cur, cur', OnePage(dir, t, v), ClearedEnd(OnePage(dir, t, v)))
    requires Word(dir, Slot(v)) < |cur| && Word(t, v % SLOTS) < |cur|
    ensures cur' == PageUnmapped(cur, dir, t, v)
  {
    var r := OnePage(dir, t, v);
    assert DirWord(r, 0) == Word(dir, Slot(v)) && r.tables[0] == t;
    assert Present(cur, r, 0) <==> cur[Word(dir, Slot(v))] != ZERO;
    var goal := PageUnmapped(cur, dir, t, v);
    forall w: nat | w < |cur| ensures cur'[w] == goal[w] {
      assert w == Word(w / SLOTS, w % SLOTS);
      if w / SLOTS == t {
        assert w == Word(r.tables[0], w % SLOTS);
        assert PageOf(r, 0, w % SLOTS) == v <==> w % SLOTS == v % SLOTS;
      }
    }
  }

  lemma OnePageUnmapReady(cur: Words, dir: nat, t: nat, v: nat)
    requires v < FRAMES && InMemory(cur, t) && InMemory(cur, dir) && t != dir
    requires FRAMES - SLOTS <= v < FRAMES - 1 ==> cur[Word(dir, Slot(v))] != ZERO
    requires cur[Word(dir, Slot(v))] == ZERO || cur[Word(dir, Slot(v))].frame == t
    ensures Word(t, v % SLOTS) < |cur| && UnmapReady(cur, OnePage(dir, t, v))
  {
    var r := OnePage(dir, t, v);
    assert TableFits(cur, r, 0) && DirWord(r, 0) == Word(dir, Slot(v));
  }
}
