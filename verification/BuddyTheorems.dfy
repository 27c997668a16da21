/** What clients of the allocator may rely on, over single calls and over whole runs. */
module BuddyTheorems {
  import opened Dyadic
  import opened Partition
  import opened BuddyMem
  import opened BuddySteps

  /** The allocator's memory, the partition it realises, and the last kpage. */
  datatype World = World(mem: Mem, part: Part, last: nat)

  /** Between calls: lists and partition agree, nothing is half-done, buddies are merged. */
  ghost predicate Good(w: World) {
    && Tracks(w.mem, w.part) && Coalesced(w.part) && w.last < |w.mem.pages|
    && (forall f :: f in w.part ==> f <= w.last)
    && (forall f :: f in w.part ==> !w.part[f].place.Held?)
  }

  /** p heads an allocated block, the only thing a client may free. */
  predicate Owned(w: World, p: nat) {
    p in w.part && w.part[p].pfn == p && w.part[p].place == Allocated
  }

  ghost function Alloc(w: World, req: nat): (r: (Option<nat>, World))
    requires Good(w)
  {
    TracksListable(w.mem, w.part);
    var (got, m) := PageAlloc(w.mem, req, w.last);
    if got.None? then (None, w.(mem := m))
    else
      var k := FirstStocked(w.mem, req).value;
      var p := got.value;
      assert p in w.mem.lists[k] && Has(w.part, p, k, Listed);
      (got, w.(mem := m, part := SplitPart(Paint(w.part, p, k, Held(0)), p, k, req, 0)))
  }

  ghost function Free(w: World, p: nat): (r: World)
    requires Good(w) && Owned(w, p)
  {
    var k := w.mem.pages[p].order;
    w.(mem := AddToSlot(w.mem, p, k, w.last),
       part := SlotPart(w.mem, Paint(w.part, p, k, Held(0)), p, k, w.last, 0))
  }

  /** Some aligned run of 2^req managed frames is wholly free. */
  ghost predicate SomeFreeRun(part: Part, req: nat) {
    exists p: nat :: FreeRun(part, p, req)
  }

  lemma StockedIffFreeRun(w: World, req: nat)
    requires Good(w) && req <= MAX_ALLOC_ORDER
    ensures FirstStocked(w.mem, req).Some? <==> SomeFreeRun(w.part, req)
  {
    var s := FirstStocked(w.mem, req);
    if s.Some? {
      var p := w.mem.lists[s.value][0];
      assert p in w.mem.lists[s.value] && Has(w.part, p, s.value, Listed);
      ListedRun(w.part, p, s.value, req);
    } else if SomeFreeRun(w.part, req) {
      var p: nat :| FreeRun(w.part, p, req);
      RunInOneBlock(w.part, p, req);
    }
  }

  /** The first 2^j frames of a listed block are a free run. */
  lemma ListedRun(part: Part, p: nat, k: nat, j: nat)
    requires Whole(part) && Has(part, p, k, Listed) && j <= k
    ensures FreeRun(part, p, j)
  {
    assert FitsAt(part, p);
    AlignedDown(p, j, k);
    forall f: nat | InBlock(f, p, j) ensures f in part && part[f].place == Listed { ShrNest(f, p, j, k); }
  }

  /** page_alloc is complete and exact: it fails exactly when no aligned run of the size is
      wholly free, and otherwise hands out such a run as one block, all other blocks in use
      staying as they are and all other free frames staying free. */
  lemma AllocExact(w: World, req: nat)
    requires Good(w)
    ensures var (got, w') := Alloc(w, req);
      && Good(w') && w'.part.Keys == w.part.Keys && w'.last == w.last
      && (got.None? <==> req > MAX_ALLOC_ORDER || !SomeFreeRun(w.part, req))
      && (got.None? ==> w' == w)
      && (got.Some? ==>
            && FreeRun(w.part, got.value, req)
            && (forall f :: f in w.part ==>
                  if InBlock(f, got.value, req) then w'.part[f] == Piece(got.value, req, Allocated)
                  else if w.part[f].place == Listed then w'.part[f].place == Listed
                  else w'.part[f] == w.part[f]))
  {
    TracksListable(w.mem, w.part);
    var s := FirstStocked(w.mem, req);
    if req <= MAX_ALLOC_ORDER { StockedIffFreeRun(w, req); }
    if s.Some? { AllocSome(w, req, s.value, w.mem.lists[s.value][|w.mem.lists[s.value]| - 1]); }
  }

  lemma AllocSome(w: World, req: nat, k: nat, p: nat)
    requires Good(w) && req <= k <= MAX_ALLOC_ORDER && p in w.mem.lists[k] && Aligned(p, k)
    requires p + Pow2(k) <= |w.mem.pages|
    ensures Has(w.part, p, k, Listed) && FreeRun(w.part, p, req)
    ensures var part' := SplitPart(Paint(w.part, p, k, Held(0)), p, k, req, 0);
      && Good(World(Split(Take(w.mem, k, p, req), p, k, req, w.last), part', w.last))
      && part'.Keys == w.part.Keys
      && (forall f :: f in w.part ==>
            if InBlock(f, p, req) then part'[f] == Piece(p, req, Allocated)
            else if w.part[f].place == Listed then part'[f].place == Listed
            else part'[f] == w.part[f])
  {
    hide *;
    AllocTaken(w, req, k, p);
    var m1, part1 := Take(w.mem, k, p, req), Paint(w.part, p, k, Held(0));
    SplitTracks(m1, part1, p, k, req, w.last, 0);
    SplitGood(w, Split(m1, p, k, req, w.last), SplitPart(part1, p, k, req, 0), p, k, req);
  }

  lemma SplitGood(w: World, m2: Mem, part2: Part, p: nat, k: nat, req: nat)
    requires Good(w) && Tracks(m2, part2) && Coalesced(part2) && part2.Keys == w.part.Keys
    requires |m2.pages| == |w.mem.pages| && req <= k
    requires forall f :: f in w.part ==> if InBlock(f, p, k) then w.part[f].place == Listed else true
    requires forall f :: f in w.part ==> if InBlock(f, p, req) then part2[f] == Piece(p, req, Allocated)
                                         else if InBlock(f, p, k) then part2[f].place == Listed
                                           else part2[f] == w.part[f]
    ensures Good(World(m2, part2, w.last))
    ensures forall f :: f in w.part ==> if InBlock(f, p, req) then part2[f] == Piece(p, req, Allocated)
                                        else if w.part[f].place == Listed then part2[f].place == Listed
                                        else part2[f] == w.part[f]
  {
    forall f | f in w.part && InBlock(f, p, req) ensures InBlock(f, p, k) { ShrNest(f, p, req, k); }
  }

  lemma AllocTaken(w: World, req: nat, k: nat, p: nat)
    requires Good(w) && req <= k <= MAX_ALLOC_ORDER && p in w.mem.lists[k] && Aligned(p, k)
    requires p + Pow2(k) <= |w.mem.pages|
    ensures Shape(w.mem) && w.last < |w.mem.pages| && p in w.part && p < |w.mem.pages|
    ensures Has(w.part, p, k, Listed) && FreeRun(w.part, p, req)
    ensures var m1, part1 := Take(w.mem, k, p, req), Paint(w.part, p, k, Held(0));
      && Tracks(m1, part1) && Coalesced(part1) && Has(part1, p, k, Held(0)) && m1.pages[p].order == req
      && part1.Keys == w.part.Keys
      && forall f :: f in w.part ==> if InBlock(f, p, k) then w.part[f].place == Listed else part1[f] == w.part[f]
  {
    assert Has(w.part, p, k, Listed);
    ListedRun(w.part, p, k, req);
    TakeTracks(w.mem, w.part, k, p, req, 0);
  }

  /** page_alloc takes from the smallest order that has a block, and there the block that
      was put on the list last. */
  lemma AllocSmallestNewest(w: World, req: nat)
    requires Good(w) && Alloc(w, req).0.Some?
    ensures exists k: nat :: req <= k <= MAX_ALLOC_ORDER && w.mem.lists[k] != []
              && Alloc(w, req).0.value == w.mem.lists[k][|w.mem.lists[k]| - 1]
              && forall j :: req <= j < k ==> w.mem.lists[j] == []
  {
    assert FirstStocked(w.mem, req).Some?;
  }

  /** Freeing makes exactly the frames of the block free and keeps every other block in use. */
  lemma FreeExact(w: World, p: nat)
    requires Good(w) && Owned(w, p)
    ensures var w' := Free(w, p);
      && Good(w') && w'.part.Keys == w.part.Keys && w'.last == w.last
      && (forall f :: f in w.part ==>
            if w.part[f] == w.part[p] || w.part[f].place == Listed then w'.part[f].place == Listed
            else w'.part[f] == w.part[f])
  {
    HoldOwned(w, p);
    HeldOnly(w, p);
    var k := w.part[p].order;
    var part1 := Paint(w.part, p, k, Held(0));
    hide *;
    SlotTracks(w.mem, part1, p, k, w.last, 0);
    FreedGood(w, AddToSlot(w.mem, p, k, w.last), SlotPart(w.mem, part1, p, k, w.last, 0), p);
  }

  lemma HeldOnly(w: World, p: nat)
    requires Good(w) && Owned(w, p)
    ensures Shape(w.mem) && w.last < |w.mem.pages| && p < |w.mem.pages| && w.mem.pages[p].order == w.part[p].order
    ensures forall f :: f in w.part ==> f <= w.last
    ensures var k := w.part[p].order; var part1 := Paint(w.part, p, k, Held(0));
      && Free(w, p) == World(AddToSlot(w.mem, p, k, w.last), SlotPart(w.mem, part1, p, k, w.last, 0), w.last)
      && (forall f :: f in w.part ==> f in part1 && (InBlock(f, p, k) <==> w.part[f] == w.part[p]))
      && (forall f :: f in w.part && w.part[f] != w.part[p] ==> part1[f] == w.part[f])
  {
    HoldOwned(w, p);
  }

  lemma FreedGood(w: World, m2: Mem, part2: Part, p: nat)
    requires Good(w) && Owned(w, p) && Tracks(m2, part2) && Coalesced(part2) && part2.Keys == w.part.Keys
    requires |m2.pages| == |w.mem.pages|
    requires forall f ::
      f in w.part ==> if w.part[f] == w.part[p] || w.part[f].place == Listed then part2[f].place == Listed
                                         else part2[f] == w.part[f]
    ensures Good(World(m2, part2, w.last))
  {
  }

  /** A block being freed is in the hands of the CPU. */
  lemma HoldOwned(w: World, p: nat)
    requires Good(w) && Owned(w, p)
    ensures w.mem.pages[p].order == w.part[p].order
    ensures var part1 := Paint(w.part, p, w.part[p].order, Held(0));
            Tracks(w.mem, part1) && Coalesced(part1) && Has(part1, p, w.part[p].order, Held(0))
              && part1.Keys == w.part.Keys
    ensures forall f: nat :: InBlock(f, p, w.part[p].order) <==> f in w.part && w.part[f] == w.part[p]
  {
    var k := w.part[p].order;
    assert FitsAt(w.part, p);
    MoveWhole(w.part, p, Held(0));
    var part1 := Paint(w.part, p, k, Held(0));
    forall j: nat, x: nat | j <= MAX_ALLOC_ORDER ensures x in w.mem.lists[j] <==> Has(part1, x, j, Listed) {
      assert x in w.mem.lists[j] <==> Has(w.part, x, j, Listed);
      assert InBlock(x, p, k) <==> x in w.part && w.part[x] == w.part[p];
    }
    assert forall x: nat, j: nat :: Has(part1, x, j, Listed) ==> Has(w.part, x, j, Listed);
  }

  /** The two worlds have the same blocks on every list, in some order. */
  ghost predicate SameBlocks(a: World, b: World)
    requires Shape(a.mem) && Shape(b.mem)
  {
    forall k: nat, p: nat :: k <= MAX_ALLOC_ORDER ==> (p in a.mem.lists[k] <==> p in b.mem.lists[k])
  }

  /** Canonical form: the blocks on the lists are a function of the free frames alone. */
  lemma FreeFramesFixLists(a: World, b: World)
    requires Good(a) && Good(b) && FreeFrames(a.part) == FreeFrames(b.part)
    ensures SameBlocks(a, b)
  {
    FreeFramesDetermineBlocks(a.part, b.part);
    forall k: nat, p: nat | k <= MAX_ALLOC_ORDER ensures p in a.mem.lists[k] <==> p in b.mem.lists[k] {
      assert p in a.mem.lists[k] <==> Has(a.part, p, k, Listed);
      assert p in b.mem.lists[k] <==> Has(b.part, p, k, Listed);
    }
  }

  /** Freeing what was just allocated restores every list as a set. */
  lemma AllocThenFreeRestores(w: World, req: nat)
    requires Good(w) && Alloc(w, req).0.Some?
    ensures Good(Alloc(w, req).1) && Owned(Alloc(w, req).1, Alloc(w, req).0.value)
    ensures SameBlocks(w, Free(Alloc(w, req).1, Alloc(w, req).0.value))
  {
    AllocExact(w, req);
    var (got, w1) := Alloc(w, req);
    assert InBlock(got.value, got.value, req);
    FreeExact(w1, got.value);
    RestoredFrames(w, w1, Free(w1, got.value), got.value, req);
    FreeFramesFixLists(w, Free(w1, got.value));
  }

  lemma RestoredFrames(w: World, w1: World, w2: World, p: nat, k: nat)
    requires w1.part.Keys == w.part.Keys && w2.part.Keys == w.part.Keys && Whole(w1.part)
    requires Has(w1.part, p, k, Allocated)
    requires FreeRun(w.part, p, k)
    requires forall f ::
      f in w.part && !InBlock(f, p, k) ==> (w1.part[f].place == Listed <==> w.part[f].place == Listed)
    requires forall f ::
      f in w.part ==> (w2.part[f].place == Listed <==> w1.part[f] == w1.part[p] || w1.part[f].place == Listed)
    ensures FreeFrames(w.part) == FreeFrames(w2.part)
  {
    forall f | f in w.part ensures w.part[f].place == Listed <==> w2.part[f].place == Listed {
      assert FitsAt(w1.part, f) && FitsAt(w1.part, p);
      assert InBlock(f, p, k) <==> w1.part[f] == w1.part[p];
    }
  }

  /** Last in, first out: a block that is freed without merging is the next of its order to be
      handed out. */
  lemma FreeThenAllocReturnsIt(w: World, p: nat)
    requires Good(w) && Owned(w, p)
    requires p < |w.mem.pages| && !BuddyTest(w.mem, p, w.mem.pages[p].order, w.last)
    ensures Good(Free(w, p)) && Alloc(Free(w, p), w.mem.pages[p].order).0 == Some(p)
  {
    var k := w.mem.pages[p].order;
    HoldOwned(w, p);
    FreeExact(w, p);
    assert FitsAt(w.part, p);
    assert Free(w, p).mem == Insert(w.mem, p, k);
    assert Insert(w.mem, p, k).lists[k] == w.mem.lists[k] + [p];
    TracksListable(Free(w, p).mem, Free(w, p).part);
  }

  /** Every block in ps is owned, and no block is named twice. */
  ghost predicate AllOwned(w: World, ps: seq<nat>) {
    Distinct(ps) && forall i :: 0 <= i < |ps| ==> Owned(w, ps[i])
  }

  ghost function FreeAll(w: World, ps: seq<nat>): World
    requires Good(w) && AllOwned(w, ps)
    decreases |ps|
  {
    if ps == [] then w else FreeOneKeepsOwned(w, ps); FreeAll(Free(w, ps[0]), ps[1..])
  }

  lemma FreeOneKeepsOwned(w: World, ps: seq<nat>)
    requires Good(w) && AllOwned(w, ps) && ps != []
    ensures Good(Free(w, ps[0])) && AllOwned(Free(w, ps[0]), ps[1..])
  {
    FreeExact(w, ps[0]);
    forall i | 0 <= i < |ps[1..]| ensures Owned(Free(w, ps[0]), ps[1..][i]) {
      assert ps[1..][i] == ps[i + 1] != ps[0];
    }
  }

  lemma FreedFrames(w: World, w1: World, ps: seq<nat>)
    requires ps != [] && Owned(w, ps[0]) && w1.part.Keys == w.part.Keys
    requires forall f ::
      f in w.part ==> (w.part[f].pfn == ps[0] && w.part[f].place == Allocated <==> w.part[f] == w.part[ps[0]])
    requires forall f :: f in w.part ==> if w.part[f] == w.part[ps[0]] then w1.part[f].place == Listed
                                         else if w.part[f].place == Listed then w1.part[f].place == Listed
                                           else w1.part[f] == w.part[f]
    ensures FreeFrames(w1.part) + (set f | f in w1.part && w1.part[f].place == Allocated
      && w1.part[f].pfn in ps[1..]) ==
            FreeFrames(w.part) + (set f | f in w.part && w.part[f].place == Allocated && w.part[f].pfn in ps)
  {
    assert forall x :: x in ps <==> x == ps[0] || x in ps[1..];
  }

  lemma {:induction false} FreeAllFrames(w: World, ps: seq<nat>)
    requires Good(w) && AllOwned(w, ps)
    ensures Good(FreeAll(w, ps))
    ensures FreeFrames(FreeAll(w, ps).part) ==
            FreeFrames(w.part) + set f | f in w.part && w.part[f].place == Allocated && w.part[f].pfn in ps
    decreases |ps|
  {
    if ps != [] {
      FreeOneKeepsOwned(w, ps);
      FreeExact(w, ps[0]);
      var w1 := Free(w, ps[0]);
      FreeAllFrames(w1, ps[1..]);
      forall f | f in w.part
        ensures w.part[f].pfn == ps[0] && w.part[f].place == Allocated <==> w.part[f] == w.part[ps[0]]
      {
        HeadInPart(w.part, f);
      }
      FreedFrames(w, w1, ps);
    }
  }

  /** Freeing a set of allocated blocks in any order gives the same blocks on every list. */
  lemma FreeOrderIrrelevant(w: World, ps: seq<nat>, qs: seq<nat>)
    requires Good(w) && AllOwned(w, ps) && AllOwned(w, qs) && forall x :: x in ps <==> x in qs
    ensures Good(FreeAll(w, ps)) && Good(FreeAll(w, qs)) && SameBlocks(FreeAll(w, ps), FreeAll(w, qs))
  {
    FreeAllFrames(w, ps);
    FreeAllFrames(w, qs);
    FreeFramesFixLists(FreeAll(w, ps), FreeAll(w, qs));
  }

  datatype Op = AllocOp(req: nat) | FreeOp(pfn: nat)

  ghost predicate Legal(w: World, op: Op) {
    op.FreeOp? ==> Owned(w, op.pfn)
  }

  ghost function Step(w: World, op: Op): World
    requires Good(w) && Legal(w, op)
  {
    match op
    case AllocOp(req) => Alloc(w, req).1
    case FreeOp(p) => Free(w, p)
  }

  lemma StepGood(w: World, op: Op)
    requires Good(w) && Legal(w, op)
    ensures Good(Step(w, op)) && Step(w, op).part.Keys == w.part.Keys && Step(w, op).last == w.last
  {
    match op
    case AllocOp(req) => AllocExact(w, req);
    case FreeOp(p) => FreeExact(w, p);
  }

  /** Every operation of the run is legal when its turn comes. */
  ghost predicate LegalRun(w: World, ops: seq<Op>)
    requires Good(w)
    decreases |ops|
  {
    ops == [] || (Legal(w, ops[0]) && (StepGood(w, ops[0]); LegalRun(Step(w, ops[0]), ops[1..])))
  }

  ghost function Run(w: World, ops: seq<Op>): World
    requires Good(w) && LegalRun(w, ops)
    decreases |ops|
  {
    if ops == [] then w else StepGood(w, ops[0]); Run(Step(w, ops[0]), ops[1..])
  }

  /** Over every run of allocations and frees the managed frames stay the same and stay
      divided into aligned blocks, with no two free buddies. */
  lemma {:induction false} RunGood(w: World, ops: seq<Op>)
    requires Good(w) && LegalRun(w, ops)
    ensures Good(Run(w, ops)) && Run(w, ops).part.Keys == w.part.Keys
    decreases |ops|
  {
    if ops != [] {
      StepGood(w, ops[0]);
      RunGood(Step(w, ops[0]), ops[1..]);
    }
  }

  /** How many allocations of the run were served from list k. */
  ghost function Served(w: World, ops: seq<Op>, k: nat): nat
    requires Good(w) && LegalRun(w, ops)
    decreases |ops|
  {
    if ops == [] then 0
    else
      StepGood(w, ops[0]);
      (if ops[0].AllocOp? && FirstStocked(w.mem, ops[0].req) == Some(k) then 1 else 0)
        + Served(Step(w, ops[0]), ops[1..], k)
  }

  /** free_pages_count minus the true length of list k. */
  function Drift(m: Mem, k: nat): int
    requires Shape(m) && k <= MAX_ALLOC_ORDER
  {
    m.counts[k] - |m.lists[k]|
  }

  /** Freeing keeps every drift: merges and insertions count what they do. */
  lemma {:induction false} SlotDrift(m: Mem, p: nat, k: nat, end: nat, j: nat)
    requires Linked(m) && p < |m.pages| && end < |m.pages| && !m.pages[p].flags.buddy && j <= MAX_ALLOC_ORDER
    ensures Drift(AddToSlot(m, p, k, end), j) == Drift(m, j)
    decreases ORDERS - k
  {
    if k <= MAX_ALLOC_ORDER && BuddyTest(m, p, k, end) {
      MergeLinked(m, p, k);
      UnlinkMembers(m.lists[k], Buddy(p, k));
      SlotDrift(Merge(m, p, k), Min(p, Buddy(p, k)), k + 1, end, j);
    }
  }

  lemma {:induction false} SplitDrift(m: Mem, part: Part, p: nat, k: nat, req: nat, last: nat, cpu: nat, j: nat)
    requires Tracks(m, part) && Coalesced(part) && last < |m.pages| && req <= k && j <= MAX_ALLOC_ORDER
    requires Has(part, p, k, Held(cpu)) && p + Pow2(k) <= |m.pages| && Aligned(p, k)
    ensures Drift(Split(m, p, k, req, last), j) == Drift(m, j)
    decreases k
  {
    if k > req {
      var m2, part2 := SplitRound(m, p, k - 1, last),
        Paint(Cut(part, p, k - 1, Held(cpu)), Buddy(p, k - 1), k - 1, Listed);
      SplitOnceDrift(m, part, p, k - 1, last, cpu, j);
      SplitDrift(m2, part2, p, k - 1, req, last, cpu, j);
    }
  }

  lemma SplitOnceDrift(m: Mem, part: Part, p: nat, k: nat, last: nat, cpu: nat, j: nat)
    requires Tracks(m, part) && Coalesced(part) && last < |m.pages| && j <= MAX_ALLOC_ORDER
    requires Has(part, p, k + 1, Held(cpu)) && p + Pow2(k + 1) <= |m.pages|
    ensures Aligned(p, k) && Buddy(p, k) < |m.pages|
    ensures var m2, part2 := SplitRound(m, p, k, last), Paint(Cut(part, p, k, Held(cpu)), Buddy(p, k), k, Listed);
            Tracks(m2, part2) && Coalesced(part2) && Has(part2, p, k, Held(cpu)) && Drift(m2, j) == Drift(m, j)
  {
    SplitOnce(m, part, p, k, last, cpu);
    assert FitsAt(part, p);
    RoundDrift(m, p, k, last, j);
  }

  lemma RoundDrift(m: Mem, p: nat, k: nat, last: nat, j: nat)
    requires Shape(m) && Buddy(p, k) < |m.pages| && last < |m.pages| && k <= MAX_ALLOC_ORDER && j <= MAX_ALLOC_ORDER
    requires SplitRound(m, p, k, last) == Insert(OwnHalf(m, Buddy(p, k), k), Buddy(p, k), k)
    ensures Drift(SplitRound(m, p, k, last), j) == Drift(m, j)
  {
  }

  /** One call adds to the drift of list k exactly when it is an allocation served from k. */
  lemma StepDrift(w: World, op: Op, k: nat)
    requires Good(w) && Legal(w, op) && k <= MAX_ALLOC_ORDER
    ensures Shape(Step(w, op).mem)
    ensures Drift(Step(w, op).mem, k) - Drift(w.mem, k) ==
            if op.AllocOp? && FirstStocked(w.mem, op.req) == Some(k) then 1 else 0
  {
    match op
    case AllocOp(req) => AllocDrift(w, req, k);
    case FreeOp(p) =>
      HoldOwned(w, p);
      HeldNotFlagged(w.mem, w.part, p);
      SlotDrift(w.mem, p, w.part[p].order, w.last, k);
  }

  lemma AllocDrift(w: World, req: nat, k: nat)
    requires Good(w) && k <= MAX_ALLOC_ORDER
    ensures Shape(Alloc(w, req).1.mem)
    ensures Drift(Alloc(w, req).1.mem, k) - Drift(w.mem, k) == if FirstStocked(w.mem, req) == Some(k) then 1 else 0
  {
    TracksListable(w.mem, w.part);
    var s := FirstStocked(w.mem, req);
    if s.Some? {
      var l := w.mem.lists[s.value];
      var p := l[|l| - 1];
      assert p in l && Has(w.part, p, s.value, Listed);
      UnlinkMembers(l, p);
      TakeTracks(w.mem, w.part, s.value, p, req, 0);
      SplitDrift(Take(w.mem, s.value, p, req), Paint(w.part, p, s.value, Held(0)), p, s.value, req, w.last, 0, k);
    }
  }

  /** The drift law: free_pages_count[k] exceeds the length of list k by the number of
      allocations served from k, over every run that starts with exact counts. */
  lemma {:induction false} DriftLaw(w: World, ops: seq<Op>, k: nat)
    requires Good(w) && LegalRun(w, ops) && k <= MAX_ALLOC_ORDER
    ensures Shape(Run(w, ops).mem) && Drift(Run(w, ops).mem, k) == Drift(w.mem, k) + Served(w, ops, k)
    decreases |ops|
  {
    if ops != [] {
      StepGood(w, ops[0]);
      StepDrift(w, ops[0], k);
      DriftLaw(Step(w, ops[0]), ops[1..], k);
    }
  }
}
