/** How the managed frames are divided into aligned blocks, and who has each block.
    A partition maps every managed frame to the one block that holds it, so a frame is
    never in two blocks and, as long as the domain stays the same, never lost. */
module Partition {
  import opened Dyadic

  /** Index of the largest order, ALLOC_ORDER_512MB. */
  const MAX_ALLOC_ORDER: nat := 17

  /** Free-listed, held by a CPU between two critical sections, or allocated. */
  datatype Place = Listed | Held(cpu: nat) | Allocated

  datatype Piece = Piece(pfn: nat, order: nat, place: Place)

  type Part = map<nat, Piece>

  /** Each frame lies in its block, blocks are aligned, and all frames of a block agree. */
  ghost predicate Whole(part: Part) {
    forall f :: f in part ==> FitsAt(part, f)
  }

  /** The block recorded for frame f is aligned, holds f, and all its frames record it. */
  ghost predicate FitsAt(part: Part, f: nat)
    requires f in part
  {
    var b := part[f];
    && Aligned(b.pfn, b.order) && b.order <= MAX_ALLOC_ORDER && InBlock(f, b.pfn, b.order)
    && forall g: nat :: InBlock(g, b.pfn, b.order) ==> g in part && part[g] == b
  }

  /** p heads a block of order k that is at pl. */
  predicate Has(part: Part, p: nat, k: nat, pl: Place) {
    p in part && part[p] == Piece(p, k, pl)
  }

  /** The aligned run of 2^k frames at p is free-listed, every frame of it. */
  ghost predicate FreeRun(part: Part, p: nat, k: nat) {
    Aligned(p, k) && forall f: nat :: InBlock(f, p, k) ==> f in part && part[f].place == Listed
  }

  /** No two buddies of one order below the maximum are both free-listed. */
  ghost predicate Coalesced(part: Part) {
    forall p: nat, k: nat {:trigger Has(part, Buddy(p, k), k, Listed)} ::
      k < MAX_ALLOC_ORDER && Has(part, p, k, Listed) ==> !Has(part, Buddy(p, k), k, Listed)
  }

  /** Make the aligned run at p one block at pl. */
  function Paint(part: Part, p: nat, k: nat, pl: Place): Part {
    map f | f in part :: if InBlock(f, p, k) then Piece(p, k, pl) else part[f]
  }

  lemma HeadInPart(part: Part, f: nat)
    requires Whole(part) && f in part
    ensures Has(part, part[f].pfn, part[f].order, part[f].place)
  {
    assert InBlock(part[f].pfn, part[f].pfn, part[f].order);
  }

  /** Dyadic blocks nest: when a block meets a run of order k, one contains the other. */
  lemma BlocksNest(part: Part, f: nat, p: nat, k: nat)
    requires Whole(part) && f in part && InBlock(f, p, k)
    ensures part[f].order <= k ==> forall g: nat :: InBlock(g, part[f].pfn, part[f].order) ==> InBlock(g, p, k)
    ensures part[f].order >= k ==> forall g: nat :: InBlock(g, p, k) ==> g in part && part[g] == part[f]
  {
    var b := part[f];
    if b.order <= k {
      forall g: nat | InBlock(g, b.pfn, b.order) ensures InBlock(g, p, k) {
        ShrNest(g, f, b.order, k);
      }
    }
    if b.order >= k {
      forall g: nat | InBlock(g, p, k) ensures InBlock(g, b.pfn, b.order) {
        ShrNest(g, f, k, b.order);
      }
    }
  }

  /** The buddy of a block, when managed, heads a block that is no larger. */
  lemma BuddyIsHead(part: Part, p: nat, k: nat)
    requires Whole(part) && p in part && part[p].pfn == p && part[p].order == k
    requires Buddy(p, k) in part
    ensures part[Buddy(p, k)].pfn == Buddy(p, k) && part[Buddy(p, k)].order <= k
  {
    var q := Buddy(p, k);
    BuddyHalves(p, k);
    var b := part[q];
    if b.order > k { ShrNest(p, q, k + 1, b.order); }
    assert b.order > k ==> InBlock(p, b.pfn, b.order);
    AlignedHeads(q, b.pfn, b.order, k);
  }

  /** Repainting a run that is a union of whole blocks keeps the partition whole. */
  lemma PaintWhole(part: Part, p: nat, k: nat, pl: Place)
    requires Whole(part) && Aligned(p, k) && k <= MAX_ALLOC_ORDER
    requires forall f: nat :: InBlock(f, p, k) ==> f in part && part[f].order <= k
    ensures Whole(Paint(part, p, k, pl)) && Paint(part, p, k, pl).Keys == part.Keys
    ensures Has(Paint(part, p, k, pl), p, k, pl)
    ensures forall f :: f in part && !InBlock(f, p, k) ==> Paint(part, p, k, pl)[f] == part[f]
  {
    var part' := Paint(part, p, k, pl);
    assert InBlock(p, p, k);
    forall f | f in part' ensures FitsAt(part', f) { PaintFits(part, p, k, pl, f); }
  }

  lemma PaintFits(part: Part, p: nat, k: nat, pl: Place, f: nat)
    requires Whole(part) && Aligned(p, k) && k <= MAX_ALLOC_ORDER
    requires forall h: nat :: InBlock(h, p, k) ==> h in part && part[h].order <= k
    requires f in part
    ensures FitsAt(Paint(part, p, k, pl), f)
  {
    assert FitsAt(part, f);
    var part' := Paint(part, p, k, pl);
    var b := part[f];
    if !InBlock(f, p, k) {
      forall g: nat | InBlock(g, b.pfn, b.order) ensures g in part' && part'[g] == b {
        if InBlock(g, p, k) { ShrNest(f, g, b.order, k); }
      }
    }
  }

  /** The block of order k + 1 at p cut into its two halves, both at pl. */
  function Cut(part: Part, p: nat, k: nat, pl: Place): Part
    requires p in part
  {
    map f | f in part ::
      if part[f] != part[p] then part[f]
      else if InBlock(f, p, k) then Piece(p, k, pl)
      else Piece(Buddy(p, k), k, pl)
  }

  lemma CutFrames(part: Part, p: nat, k: nat)
    requires Whole(part) && p in part && part[p].pfn == p && part[p].order == k + 1
    ensures Aligned(p, k) && Aligned(Buddy(p, k), k) && Buddy(p, k) > p && !InBlock(Buddy(p, k), p, k)
    ensures forall f: nat :: InBlock(f, p, k + 1) <==> InBlock(f, p, k) || InBlock(f, Buddy(p, k), k)
    ensures forall f: nat :: InBlock(f, p, k + 1) <==> f in part && part[f] == part[p]
  {
    LowerHalf(p, k);
    BuddyHalves(p, k);
    forall f: nat ensures InBlock(f, p, k + 1) <==> InBlock(f, p, k) || InBlock(f, Buddy(p, k), k) {
      HalvesCover(f, p, k);
    }
    forall f: nat ensures InBlock(f, p, k + 1) <==> f in part && part[f] == part[p] {
      assert InBlock(f, part[p].pfn, part[p].order) ==> f in part && part[f] == part[p];
    }
  }

  lemma CutWhole(part: Part, p: nat, k: nat, pl: Place)
    requires Whole(part) && p in part && part[p].pfn == p && part[p].order == k + 1
    ensures Aligned(p, k) && Buddy(p, k) > p
    ensures var part' := Cut(part, p, k, pl);
            Whole(part') && part'.Keys == part.Keys && Has(part', p, k, pl) && Has(part', Buddy(p, k), k, pl)
    ensures forall f :: f in part && part[f] != part[p] ==> Cut(part, p, k, pl)[f] == part[f]
    ensures forall f :: f in part && part[f] == part[p] ==>
              Cut(part, p, k, pl)[f] == Piece(p, k, pl) || Cut(part, p, k, pl)[f] == Piece(Buddy(p, k), k, pl)
  {
    var part' := Cut(part, p, k, pl);
    var q := Buddy(p, k);
    CutFrames(part, p, k);
    forall f | f in part' ensures FitsAt(part', f) { CutFits(part, p, k, pl, f); }
    assert InBlock(p, p, k) && InBlock(q, q, k);
  }

  lemma CutFits(part: Part, p: nat, k: nat, pl: Place, f: nat)
    requires Whole(part) && p in part && part[p].pfn == p && part[p].order == k + 1
    requires f in part
    ensures FitsAt(Cut(part, p, k, pl), f)
  {
    CutFrames(part, p, k);
    assert FitsAt(part, f) && FitsAt(part, p);
    var part' := Cut(part, p, k, pl);
    var q := Buddy(p, k);
    if part[f] == part[p] {
      forall g: nat | InBlock(g, part'[f].pfn, k) ensures g in part' && part'[g] == part'[f] {
        assert InBlock(g, p, k) || InBlock(g, q, k);
        assert InBlock(g, p, k + 1);
      }
    }
  }

  /** Joining a block with its buddy of the same order. */
  lemma JoinWhole(part: Part, p: nat, k: nat, pl: Place)
    requires Whole(part) && k < MAX_ALLOC_ORDER
    requires p in part && part[p].pfn == p && part[p].order == k
    requires var q := Buddy(p, k); q in part && part[q].pfn == q && part[q].order == k
    ensures var m := Min(p, Buddy(p, k)); var part' := Paint(part, m, k + 1, pl);
            Whole(part') && part'.Keys == part.Keys && Has(part', m, k + 1, pl)
    ensures var m := Min(p, Buddy(p, k)); forall f: nat ::
              InBlock(f, m, k + 1) <==> (f in part && (part[f] == part[p] || part[f] == part[Buddy(p, k)]))
  {
    var q := Buddy(p, k);
    var m := Min(p, q);
    BuddyHalves(p, k);
    forall f: nat ensures InBlock(f, m, k + 1) <==> InBlock(f, p, k) || InBlock(f, q, k) { HalvesCover(f, p, k); }
    forall f: nat | InBlock(f, m, k + 1) ensures f in part && (part[f] == part[p] || part[f] == part[q]) {
      if InBlock(f, p, k) {
        assert InBlock(f, part[p].pfn, part[p].order);
      } else {
        assert InBlock(f, part[q].pfn, part[q].order);
      }
    }
    PaintWhole(part, m, k + 1, pl);
  }

  /** Changing the place of one block. */
  lemma MoveWhole(part: Part, p: nat, pl: Place)
    requires Whole(part) && p in part && part[p].pfn == p
    ensures var part' := Paint(part, p, part[p].order, pl);
            Whole(part') && part'.Keys == part.Keys && Has(part', p, part[p].order, pl)
    ensures forall f: nat :: InBlock(f, p, part[p].order) <==> f in part && part[f] == part[p]
  {
    var k := part[p].order;
    forall f: nat | InBlock(f, p, k) ensures f in part && part[f] == part[p] {
      assert InBlock(f, part[p].pfn, part[p].order);
    }
    PaintWhole(part, p, k, pl);
  }

  /** In a coalesced partition every aligned free run, of at most the largest order,
      lies inside one free-listed block: there is no fragmentation inside a run. */
  lemma {:induction false} RunInOneBlock(part: Part, p: nat, k: nat)
    requires Whole(part) && Coalesced(part) && FreeRun(part, p, k) && k <= MAX_ALLOC_ORDER
    decreases k
    ensures p in part && part[p].order >= k && part[p].place == Listed && Has(part, part[p].pfn, part[p].order, Listed)
  {
    assert InBlock(p, p, k);
    HeadInPart(part, p);
    if k > 0 {
      HalvesFree(part, p, k - 1);
      RunInOneBlock(part, p, k - 1);
      RunInOneBlock(part, Buddy(p, k - 1), k - 1);
      NotBothHalves(part, p, k - 1);
    }
  }

  lemma NotBothHalves(part: Part, p: nat, k: nat)
    requires Whole(part) && Coalesced(part) && Aligned(p, k) && k < MAX_ALLOC_ORDER
    requires p in part && part[p].place == Listed
    requires Buddy(p, k) in part && part[Buddy(p, k)].place == Listed && part[Buddy(p, k)].order >= k
    ensures part[p].order != k
  {
    if part[p].order == k {
      HeadUnique(p, part[p].pfn, k);
      BuddyIsHead(part, p, k);
    }
    assert part[p].order == k ==> Has(part, p, k, Listed) && Has(part, Buddy(p, k), k, Listed);
  }

  lemma HalvesFree(part: Part, p: nat, k: nat)
    requires FreeRun(part, p, k + 1)
    ensures FreeRun(part, p, k) && FreeRun(part, Buddy(p, k), k)
  {
    LowerHalf(p, k);
    BuddyHalves(p, k);
    forall f: nat | InBlock(f, p, k) || InBlock(f, Buddy(p, k), k) ensures InBlock(f, p, k + 1) {
      HalvesCover(f, p, k);
    }
  }

  lemma HeadOfRun(part: Part, p: nat, k: nat)
    requires Whole(part) && Aligned(p, k) && p in part
    ensures part[p].order == k ==> part[p].pfn == p
  {
    if part[p].order == k { HeadUnique(p, part[p].pfn, k); }
  }

  /** Canonical form: in a coalesced partition the free-listed blocks are exactly the
      maximal aligned runs of free frames of order at most MAX_ALLOC_ORDER. */
  lemma ListedIffMaximalRun(part: Part, p: nat, k: nat)
    requires Whole(part) && Coalesced(part) && k <= MAX_ALLOC_ORDER
    ensures Has(part, p, k, Listed) <==>
            FreeRun(part, p, k) && (k < MAX_ALLOC_ORDER ==> !FreeRun(part, Min(p, Buddy(p, k)), k + 1))
  {
    if Has(part, p, k, Listed) {
      forall f: nat | InBlock(f, p, k) ensures f in part && part[f].place == Listed {
        assert InBlock(f, part[p].pfn, part[p].order);
      }
      var m := Min(p, Buddy(p, k));
      BuddyHalves(p, k);
      assert InBlock(p, m, k + 1);
      if k < MAX_ALLOC_ORDER && FreeRun(part, m, k + 1) {
        RunInOneBlock(part, m, k + 1);
        BlocksNest(part, m, m, k + 1);
      }
    } else if FreeRun(part, p, k) && (k < MAX_ALLOC_ORDER ==> !FreeRun(part, Min(p, Buddy(p, k)), k + 1)) {
      assert InBlock(p, p, k);
      HeadOfRun(part, p, k);
      RunInOneBlock(part, p, k);
      AlignedDown(part[p].pfn, k, part[p].order);
      BuddyHalves(p, k);
      var m := Min(p, Buddy(p, k));
      forall f: nat | part[p].order > k && InBlock(f, m, k + 1) ensures f in part && part[f].place == Listed {
        ShrNest(f, p, k + 1, part[p].order);
        assert InBlock(f, part[p].pfn, part[p].order);
      }
    }
  }

  /** Free-listed frames of a partition. */
  function FreeFrames(part: Part): set<nat> {
    set f | f in part && part[f].place == Listed
  }

  /** Two coalesced partitions with the same free frames have the same free-listed blocks. */
  lemma FreeFramesDetermineBlocks(a: Part, b: Part)
    requires Whole(a) && Whole(b) && Coalesced(a) && Coalesced(b) && FreeFrames(a) == FreeFrames(b)
    ensures forall p: nat, k: nat :: Has(a, p, k, Listed) <==> Has(b, p, k, Listed)
  {
    forall f: nat ensures (f in a && a[f].place == Listed) <==> (f in b && b[f].place == Listed) {
      assert f in FreeFrames(a) <==> f in FreeFrames(b);
    }
    forall p: nat, k: nat ensures Has(a, p, k, Listed) <==> Has(b, p, k, Listed) {
      if k <= MAX_ALLOC_ORDER {
        assert FreeRun(a, p, k) <==> FreeRun(b, p, k);
        assert FreeRun(a, Min(p, Buddy(p, k)), k + 1) <==> FreeRun(b, Min(p, Buddy(p, k)), k + 1);
        ListedIffMaximalRun(a, p, k);
        ListedIffMaximalRun(b, p, k);
      }
    }
  }

  /** A held block joined with its free-listed buddy, frame by frame and block by block. */
  lemma JoinHeld(part: Part, p: nat, k: nat, cpu: nat)
    requires Whole(part) && Coalesced(part) && k < MAX_ALLOC_ORDER && Has(part, p, k, Held(cpu))
    requires Has(part, Buddy(p, k), k, Listed)
    ensures var q := Buddy(p, k); var part' := Paint(part, Min(p, q), k + 1, Held(cpu));
      && Whole(part') && part'.Keys == part.Keys && Coalesced(part') && Has(part', Min(p, q), k + 1, Held(cpu))
      && (forall f :: f in part ==>
            part'[f] == if part[f] == part[p] || part[f] == part[q] then Piece(Min(p, q), k + 1, Held(cpu))
              else part[f])
    ensures ListedButOne(part, Paint(part, Min(p, Buddy(p, k)), k + 1, Held(cpu)), Buddy(p, k))
  {
    var q := Buddy(p, k);
    var part' := Paint(part, Min(p, q), k + 1, Held(cpu));
    JoinWhole(part, p, k, Held(cpu));
    forall x: nat, j: nat ensures Has(part', x, j, Listed) <==> Has(part, x, j, Listed) && x != q {}
  }

  /** The free-listed blocks of after are those of before except the one at x. */
  ghost predicate ListedButOne(before: Part, after: Part, x: nat) {
    forall y: nat, j: nat {:trigger Has(after, y, j, Listed)} {:trigger Has(before, y, j, Listed)} ::
      Has(after, y, j, Listed) <==> Has(before, y, j, Listed) && y != x
  }

  /** One block moved to another place, frame by frame. */
  lemma MoveFrames(part: Part, p: nat, k: nat, pl: Place)
    requires Whole(part) && p in part && part[p].pfn == p && part[p].order == k
    ensures var part' := Paint(part, p, k, pl);
      && Whole(part') && part'.Keys == part.Keys && Has(part', p, k, pl)
      && forall f :: f in part ==> part'[f] == if part[f] == part[p] then Piece(p, k, pl) else part[f]
    ensures pl != Listed ==> ListedButOne(part, Paint(part, p, k, pl), p)
    ensures pl == Listed && part[p].place != Listed ==> ListedButOne(Paint(part, p, k, pl), part, p)
  {
    MoveWhole(part, p, pl);
    var part' := Paint(part, p, k, pl);
    forall x: nat, j: nat | x != p ensures Has(part', x, j, Listed) <==> Has(part, x, j, Listed) {}
  }

  lemma FewerListedCoalesced(part: Part, part': Part, x: nat)
    requires Coalesced(part) && ListedButOne(part, part', x)
    ensures Coalesced(part')
  {
  }

  /** Cutting a held block changes no free-listed block. */
  lemma CutHeld(part: Part, p: nat, k: nat, cpu: nat)
    requires Whole(part) && Coalesced(part) && Has(part, p, k + 1, Held(cpu))
    ensures var q := Buddy(p, k); var part' := Cut(part, p, k, Held(cpu));
      && q in part && part[q] == part[p] && q != p && Buddy(q, k) == p && Aligned(p, k)
      && Whole(part') && part'.Keys == part.Keys && Coalesced(part') && Has(part', p, k, Held(cpu))
        && Has(part', q, k, Held(cpu))
      && (forall f :: f in part && part[f] != part[p] ==> part'[f] == part[f])
      && (forall f ::
        f in part && part[f] == part[p] ==> part'[f] == Piece(p, k, Held(cpu)) || part'[f] == Piece(q, k, Held(cpu)))
      && (forall x: nat, j: nat {:trigger Has(part', x, j, Listed)} {:trigger Has(part, x, j, Listed)} ::
            Has(part', x, j, Listed) <==> Has(part, x, j, Listed))
  {
    var q := Buddy(p, k);
    CutWhole(part, p, k, Held(cpu));
    CutFrames(part, p, k);
    BuddyHalves(p, k);
    assert InBlock(q, q, k);
    var part' := Cut(part, p, k, Held(cpu));
    forall x: nat, j: nat ensures Has(part', x, j, Listed) <==> Has(part, x, j, Listed) {
      assert x in part && part[x] == part[p] ==> part'[x].place == Held(cpu);
    }
    FewerListedCoalescedSame(part, part');
  }

  lemma FewerListedCoalescedSame(part: Part, part': Part)
    requires Coalesced(part) && forall x: nat, j: nat :: Has(part', x, j, Listed) <==> Has(part, x, j, Listed)
    ensures Coalesced(part')
  {
  }
}
