/** What one critical section of the allocator does to the partition of frames. */
module BuddySteps {
  import opened Dyadic
  import opened Partition
  import opened BuddyMem

  /** The partition after freeing the held block (p, k). */
  ghost function SlotPart(m: Mem, part: Part, p: nat, k: nat, end: nat, cpu: nat): Part
    requires Shape(m) && p < |m.pages| && end < |m.pages|
    decreases ORDERS - k
  {
    if k > MAX_ALLOC_ORDER then part
    else if BuddyTest(m, p, k, end) then
      var lo := Min(p, Buddy(p, k));
      SlotPart(Merge(m, p, k), Paint(part, lo, k + 1, Held(cpu)), lo, k + 1, end, cpu)
    else Paint(part, p, k, Listed)
  }

  /** A frame that heads a held block is on no list. */
  lemma HeldNotFlagged(m: Mem, part: Part, p: nat)
    requires Tracks(m, part) && p in part && part[p].pfn == p && part[p].place != Listed
    ensures !m.pages[p].flags.buddy
    ensures forall k: nat :: k <= MAX_ALLOC_ORDER ==> p !in m.lists[k]
  {
    assert forall k: nat :: k <= MAX_ALLOC_ORDER ==> (p in m.lists[k] <==> Has(part, p, k, Listed));
  }

  /** Merging moves the listed buddy into the held block. */
  lemma MergeTracks(m: Mem, part: Part, p: nat, k: nat, end: nat, cpu: nat)
    requires Tracks(m, part) && Coalesced(part) && end < |m.pages| && Has(part, p, k, Held(cpu))
    requires BuddyTest(m, p, k, end)
    ensures Has(part, Buddy(p, k), k, Listed)
    ensures var lo := Min(p, Buddy(p, k)); var part' := Paint(part, lo, k + 1, Held(cpu));
            Tracks(Merge(m, p, k), part') && Coalesced(part') && Has(part', lo, k + 1, Held(cpu))
              && part'.Keys == part.Keys
    ensures var lo := Min(p, Buddy(p, k)); forall f: nat ::
              InBlock(f, lo, k + 1) <==> f in part && (part[f] == part[p] || part[f] == part[Buddy(p, k)])
  {
    var q := Buddy(p, k);
    var lo := Min(p, q);
    var m', part' := Merge(m, p, k), Paint(part, lo, k + 1, Held(cpu));
    assert q in m.lists[k];
    JoinWhole(part, p, k, Held(cpu));
    HeldNotFlagged(m, part, p);
    MergeLinked(m, p, k);
    forall j: nat, x: nat | j <= MAX_ALLOC_ORDER ensures x in m'.lists[j] <==> Has(part', x, j, Listed) {
      assert x in m.lists[j] <==> Has(part, x, j, Listed);
      assert InBlock(x, lo, k + 1) <==> x in part && (part[x] == part[p] || part[x] == part[q]);
    }
    assert forall x: nat, j: nat :: Has(part', x, j, Listed) ==> Has(part, x, j, Listed);
  }

  lemma MergeLinked(m: Mem, p: nat, k: nat)
    requires Linked(m) && k <= MAX_ALLOC_ORDER && p < |m.pages| && !m.pages[p].flags.buddy && Buddy(p, k) in m.lists[k]
    ensures Linked(Merge(m, p, k))
    ensures forall j: nat, x: nat :: j <= MAX_ALLOC_ORDER ==>
              (x in Merge(m, p, k).lists[j] <==> x in m.lists[j] && x != Buddy(p, k))
    ensures forall x :: 0 <= x < |m.pages| ==> Merge(m, p, k).pages[x].order == m.pages[x].order
  {
    UnlinkMembers(m.lists[k], Buddy(p, k));
    assert forall j: nat :: j <= MAX_ALLOC_ORDER && Buddy(p, k) in m.lists[j] ==> j == k;
  }

  /** Inserting a block whose buddy is not listed keeps the lists coalesced. */
  lemma InsertTracks(m: Mem, part: Part, p: nat, k: nat, cpu: nat)
    requires Tracks(m, part) && Coalesced(part) && Has(part, p, k, Held(cpu))
    requires k < MAX_ALLOC_ORDER ==> !Has(part, Buddy(p, k), k, Listed)
    ensures var part' := Paint(part, p, k, Listed);
            Tracks(Insert(m, p, k), part') && Coalesced(part') && part'.Keys == part.Keys && Has(part', p, k, Listed) &&
            forall f :: f in part ==> part'[f] == if InBlock(f, p, k) then Piece(p, k, Listed) else part[f]
    ensures forall f: nat :: InBlock(f, p, k) <==> f in part && part[f] == part[p]
  {
    var m', part' := Insert(m, p, k), Paint(part, p, k, Listed);
    MoveWhole(part, p, Listed);
    assert FitsAt(part, p);
    InsertLists(m, part, p, k, cpu);
    hide Insert, Linked, Shr, Pow2;
    forall x: nat, j: nat | j < MAX_ALLOC_ORDER && Has(part', x, j, Listed)
      ensures !Has(part', Buddy(x, j), j, Listed)
    {
      InsertCoalesced(part, p, k, x, j);
    }
  }

  lemma InsertLists(m: Mem, part: Part, p: nat, k: nat, cpu: nat)
    requires Tracks(m, part) && Has(part, p, k, Held(cpu)) && k <= MAX_ALLOC_ORDER
    ensures p < |m.pages| && Linked(Insert(m, p, k))
    ensures forall x :: x in part && x != p ==> Insert(m, p, k).pages[x].order == m.pages[x].order
    ensures forall j: nat, x: nat
      {:trigger x in Insert(m, p, k).lists[j]} {:trigger Has(Paint(part, p, k, Listed), x, j, Listed)} ::
              j <= MAX_ALLOC_ORDER ==> (x in Insert(m, p, k).lists[j] <==> Has(Paint(part, p, k, Listed), x, j, Listed))
  {
    var m', part' := Insert(m, p, k), Paint(part, p, k, Listed);
    MoveWhole(part, p, Listed);
    HeldNotFlagged(m, part, p);
    assert forall y :: y in m.lists[k] + [p] <==> y in m.lists[k] || y == p;
    forall j: nat, x: nat | j <= MAX_ALLOC_ORDER ensures x in m'.lists[j] <==> Has(part', x, j, Listed) {
      assert x in m.lists[j] <==> Has(part, x, j, Listed);
      assert InBlock(x, p, k) <==> x in part && part[x] == part[p];
    }
  }

  lemma InsertCoalesced(part: Part, p: nat, k: nat, x: nat, j: nat)
    requires Whole(part) && Coalesced(part) && p in part && part[p].pfn == p && part[p].order == k
    requires k < MAX_ALLOC_ORDER ==> !Has(part, Buddy(p, k), k, Listed)
    requires j < MAX_ALLOC_ORDER && Has(Paint(part, p, k, Listed), x, j, Listed)
    ensures !Has(Paint(part, p, k, Listed), Buddy(x, j), j, Listed)
  {
    var part', y := Paint(part, p, k, Listed), Buddy(x, j);
    MoveWhole(part, p, Listed);
    assert FitsAt(part', x) && FitsAt(part, p);
    BuddyHalves(x, j);
    BuddyHalves(p, k);
    assert InBlock(x, p, k) <==> x in part && part[x] == part[p];
    assert InBlock(y, p, k) <==> y in part && part[y] == part[p];
    if x != p { assert Has(part, x, j, Listed) && Buddy(y, j) == x; }
    if y != p { assert Has(part', y, j, Listed) ==> Has(part, y, j, Listed); }
  }

  /** Freeing a held block: the frames of the block become free-listed, nothing else moves
      between free and used, and the lists stay coalesced. */
  lemma {:induction false} SlotTracks(m: Mem, part: Part, p: nat, k: nat, end: nat, cpu: nat)
    requires Tracks(m, part) && Coalesced(part) && end < |m.pages| && Has(part, p, k, Held(cpu))
    requires forall f :: f in part ==> f <= end
    ensures var part' := SlotPart(m, part, p, k, end, cpu);
            Tracks(AddToSlot(m, p, k, end), part') && Coalesced(part') && part'.Keys == part.Keys
    ensures var part' := SlotPart(m, part, p, k, end, cpu); forall f :: f in part ==>
              part'[f].place == (if InBlock(f, p, k) then Listed else part[f].place) &&
              (part[f].place != Listed && !InBlock(f, p, k) ==> part'[f] == part[f])
    decreases ORDERS - k
  {
    hide *;
    SlotUnfolds(m, part, p, k, end, cpu);
    if BuddyTest(m, p, k, end) {
      MergeTracks(m, part, p, k, end, cpu);
      MergeFrames(m, part, p, k, end, cpu);
      SlotTracks(Merge(m, p, k), Paint(part, Min(p, Buddy(p, k)), k + 1, Held(cpu)), Min(p, Buddy(p, k)), k + 1, end,
        cpu);
    } else {
      InsertTracks(m, part, p, k, cpu);
    }
  }

  lemma SlotUnfolds(m: Mem, part: Part, p: nat, k: nat, end: nat, cpu: nat)
    requires Tracks(m, part) && end < |m.pages| && Has(part, p, k, Held(cpu))
    requires forall f :: f in part ==> f <= end
    ensures Shape(m) && p < |m.pages| && k <= MAX_ALLOC_ORDER < ORDERS
    ensures BuddyTest(m, p, k, end) ==> Buddy(p, k) < |m.pages|
    ensures BuddyTest(m, p, k, end) ==>
      AddToSlot(m, p, k, end) == AddToSlot(Merge(m, p, k), Min(p, Buddy(p, k)), k + 1, end)
    ensures BuddyTest(m, p, k, end) ==>
      var lo := Min(p, Buddy(p, k));
      SlotPart(m, part, p, k, end, cpu) ==
        SlotPart(Merge(m, p, k), Paint(part, lo, k + 1, Held(cpu)), lo, k + 1, end, cpu)
    ensures !BuddyTest(m, p, k, end) ==>
      AddToSlot(m, p, k, end) == Insert(m, p, k) && SlotPart(m, part, p, k, end, cpu) == Paint(part, p, k, Listed)
    ensures !BuddyTest(m, p, k, end) && k < MAX_ALLOC_ORDER ==> !Has(part, Buddy(p, k), k, Listed)
  {
    assert FitsAt(part, p);
    assert k <= MAX_ALLOC_ORDER ==> (Has(part, Buddy(p, k), k, Listed) <==> Buddy(p, k) in m.lists[k]);
  }

  /** The frames of the merged block: those of the block freed, and of the listed buddy. */
  lemma MergeFrames(m: Mem, part: Part, p: nat, k: nat, end: nat, cpu: nat)
    requires Tracks(m, part) && Coalesced(part) && end < |m.pages| && Has(part, p, k, Held(cpu))
    requires BuddyTest(m, p, k, end)
    ensures var lo := Min(p, Buddy(p, k)); var part1 := Paint(part, lo, k + 1, Held(cpu)); forall f :: f in part ==>
              (InBlock(f, lo, k + 1) ==> InBlock(f, p, k) || part[f].place == Listed) &&
              (InBlock(f, p, k) ==> InBlock(f, lo, k + 1)) && (!InBlock(f, lo, k + 1) ==> part1[f] == part[f])
  {
    assert FitsAt(part, p);
    MergeTracks(m, part, p, k, end, cpu);
    BuddyHalves(p, k);
    forall f | f in part
      ensures InBlock(f, Min(p, Buddy(p, k)), k + 1) <==> InBlock(f, p, k) || part[f] == part[Buddy(p, k)]
    {
      assert InBlock(f, p, k) ==> part[f] == part[p];
    }
  }

  /** Taking a listed block off its list for a request of order req. */
  lemma TakeTracks(m: Mem, part: Part, k: nat, p: nat, req: nat, cpu: nat)
    requires Tracks(m, part) && Coalesced(part) && k <= MAX_ALLOC_ORDER && p in m.lists[k]
    ensures var part' := Paint(part, p, k, Held(cpu));
            Tracks(Take(m, k, p, req), part') && Coalesced(part') && Has(part', p, k, Held(cpu))
              && part'.Keys == part.Keys
    ensures forall f: nat :: InBlock(f, p, k) <==> f in part && part[f] == Piece(p, k, Listed)
  {
    var m', part' := Take(m, k, p, req), Paint(part, p, k, Held(cpu));
    assert Has(part, p, k, Listed);
    MoveWhole(part, p, Held(cpu));
    UnlinkMembers(m.lists[k], p);
    forall j: nat, x: nat | j <= MAX_ALLOC_ORDER ensures x in m'.lists[j] <==> Has(part', x, j, Listed) {
      assert x in m.lists[j] <==> Has(part, x, j, Listed);
      assert InBlock(x, p, k) <==> x in part && part[x] == part[p];
    }
  }

  /** The partition after splitting the held block (p, k) down to order req and handing it out. */
  function SplitPart(part: Part, p: nat, k: nat, req: nat, cpu: nat): Part
    requires req <= k && p in part
    decreases k
  {
    if k == req then Paint(part, p, req, Allocated)
    else SplitPart(Paint(Cut(part, p, k - 1, Held(cpu)), Buddy(p, k - 1), k - 1, Listed), p, k - 1, req, cpu)
  }

  /** Writing the order of an upper half makes it a block of its own. */
  lemma CutTracks(m: Mem, part: Part, p: nat, k: nat, cpu: nat)
    requires Tracks(m, part) && Coalesced(part) && Has(part, p, k + 1, Held(cpu))
    ensures Buddy(p, k) < |m.pages| && Buddy(Buddy(p, k), k) == p
    ensures var q := Buddy(p, k); var m' := OwnHalf(m, q, k);
            var part' := Cut(part, p, k, Held(cpu));
            Tracks(m', part') && Coalesced(part') && Has(part', p, k, Held(cpu)) && Has(part', q, k, Held(cpu))
            && part'.Keys == part.Keys && m'.lists == m.lists && m'.pages[p] == m.pages[p]
  {
    var q := Buddy(p, k);
    CutWhole(part, p, k, Held(cpu));
    CutFrames(part, p, k);
    BuddyHalves(p, k);
    var part' := Cut(part, p, k, Held(cpu));
    assert InBlock(q, q, k);
    assert q in part && part[q] == part[p];
    assert forall j: nat :: j <= MAX_ALLOC_ORDER ==> (q in m.lists[j] <==> Has(part, q, j, Listed));
    var m' := OwnHalf(m, q, k);
    forall j: nat, x: nat | j <= MAX_ALLOC_ORDER ensures x in m'.lists[j] <==> Has(part', x, j, Listed) {
      assert x in m.lists[j] <==> Has(part, x, j, Listed);
    }
  }

  /** Splitting never re-merges the halves it makes: each goes straight onto its list. */
  lemma UpperHalfInserted(m: Mem, part: Part, p: nat, k: nat, last: nat, cpu: nat)
    requires Tracks(m, part) && Coalesced(part) && last < |m.pages|
    requires Has(part, p, k, Held(cpu)) && Has(part, Buddy(p, k), k, Held(cpu)) && Buddy(Buddy(p, k), k) == p
    ensures AddToSlot(m, Buddy(p, k), k, last) == Insert(m, Buddy(p, k), k)
  {
    assert FitsAt(part, p);
    HeldNotFlagged(m, part, p);
  }

  /** Splitting the held block (p, k): its first 2^req frames are handed out as one block,
      the rest become free-listed. */
  lemma {:induction false} SplitTracks(m: Mem, part: Part, p: nat, k: nat, req: nat, last: nat, cpu: nat)
    requires Tracks(m, part) && Coalesced(part) && last < |m.pages| && req <= k
    requires Has(part, p, k, Held(cpu)) && m.pages[p].order == req
    requires p + Pow2(k) <= |m.pages| && Aligned(p, k)
    ensures var part' := SplitPart(part, p, k, req, cpu);
            Tracks(Split(m, p, k, req, last), part') && Coalesced(part') && part'.Keys == part.Keys
            && Has(part', p, req, Allocated)
    ensures var part' := SplitPart(part, p, k, req, cpu);
            forall f :: f in part ==> if InBlock(f, p, req) then part'[f] == Piece(p, req, Allocated)
                                      else if InBlock(f, p, k) then part'[f].place == Listed
                                      else part'[f] == part[f]
    decreases k
  {
    hide *;
    SplitUnfolds(m, part, p, k, req, last, cpu);
    if k == req {
      HandOut(m, part, p, req, cpu);
    } else {
      var j := k - 1;
      SplitOnce(m, part, p, j, last, cpu);
      SplitFrame(m, part, p, j, req, cpu);
      var m2, part2 := SplitRound(m, p, j, last), Paint(Cut(part, p, j, Held(cpu)), Buddy(p, j), j, Listed);
      SplitTracks(m2, part2, p, j, req, last, cpu);
    }
  }

  lemma SplitUnfolds(m: Mem, part: Part, p: nat, k: nat, req: nat, last: nat, cpu: nat)
    requires Tracks(m, part) && last < |m.pages| && p + Pow2(k) <= |m.pages| && req <= k && Aligned(p, k)
    requires Has(part, p, k, Held(cpu))
    ensures Shape(m)
    ensures k == req ==>
      Split(m, p, k, req, last) == m && SplitPart(part, p, k, req, cpu) == Paint(part, p, req, Allocated)
    ensures k > req ==> Aligned(p, k - 1) && Buddy(p, k - 1) < |m.pages| && p + Pow2(k - 1) <= |m.pages|
    ensures k > req ==> Split(m, p, k, req, last) == Split(SplitRound(m, p, k - 1, last), p, k - 1, req, last)
    ensures k > req ==>
      var part1 := Paint(Cut(part, p, k - 1, Held(cpu)), Buddy(p, k - 1), k - 1, Listed);
      SplitPart(part, p, k, req, cpu) == SplitPart(part1, p, k - 1, req, cpu)
  {
    if k > req { LowerHalf(p, k - 1); }
  }

  lemma HandOut(m: Mem, part: Part, p: nat, k: nat, cpu: nat)
    requires Tracks(m, part) && Coalesced(part) && Has(part, p, k, Held(cpu)) && m.pages[p].order == k
    ensures var part' := Paint(part, p, k, Allocated);
            Tracks(m, part') && Coalesced(part') && part'.Keys == part.Keys && Has(part', p, k, Allocated) &&
            forall f :: f in part ==> part'[f] == if InBlock(f, p, k) then Piece(p, k, Allocated) else part[f]
  {
    var part' := Paint(part, p, k, Allocated);
    HeldNotFlagged(m, part, p);
    MoveWhole(part, p, Allocated);
    assert FitsAt(part, p);
    forall j: nat, x: nat | j <= MAX_ALLOC_ORDER ensures x in m.lists[j] <==> Has(part', x, j, Listed) {
      assert x in m.lists[j] <==> Has(part, x, j, Listed);
      assert InBlock(x, p, k) <==> x in part && part[x] == part[p];
    }
    assert forall x: nat, j: nat :: Has(part', x, j, Listed) ==> Has(part, x, j, Listed);
  }

  /** One round of the splitting loop. */
  lemma SplitOnce(m: Mem, part: Part, p: nat, j: nat, last: nat, cpu: nat)
    requires Tracks(m, part) && Coalesced(part) && last < |m.pages|
    requires Has(part, p, j + 1, Held(cpu)) && p + Pow2(j + 1) <= |m.pages|
    ensures Aligned(p, j + 1) && Aligned(p, j) && Buddy(p, j) < |m.pages|
    ensures var q := Buddy(p, j);
            var part2 := Paint(Cut(part, p, j, Held(cpu)), q, j, Listed);
            var m2 := SplitRound(m, p, j, last);
            m2 == Insert(OwnHalf(m, q, j), q, j) && Tracks(m2, part2) && Coalesced(part2) && part2.Keys == part.Keys
            && Has(part2, p, j, Held(cpu)) && m2.pages[p] == m.pages[p]
  {
    var q := Buddy(p, j);
    assert FitsAt(part, p);
    LowerHalf(p, j);
    BuddyHalves(p, j);
    CutTracks(m, part, p, j, cpu);
    var m1 := OwnHalf(m, q, j);
    var part1 := Cut(part, p, j, Held(cpu));
    UpperHalfInserted(m1, part1, p, j, last, cpu);
    InsertTracks(m1, part1, q, j, cpu);
  }

  lemma SplitFrame(m: Mem, part: Part, p: nat, j: nat, req: nat, cpu: nat)
    requires Tracks(m, part) && Has(part, p, j + 1, Held(cpu)) && req <= j
    ensures var part2 := Paint(Cut(part, p, j, Held(cpu)), Buddy(p, j), j, Listed);
            forall f :: f in part ==> if InBlock(f, p, j) then part2[f] == Piece(p, j, Held(cpu))
                                      else if InBlock(f, p, j + 1) then part2[f].place == Listed
                                      else part2[f] == part[f]
    ensures forall f: nat :: InBlock(f, p, req) ==> InBlock(f, p, j)
    ensures forall f: nat :: InBlock(f, p, j) ==> InBlock(f, p, j + 1)
  {
    CutFrames(part, p, j);
    BuddyHalves(p, j);
    forall f: nat | InBlock(f, p, req) ensures InBlock(f, p, j) { ShrNest(f, p, req, j); }
  }
}
