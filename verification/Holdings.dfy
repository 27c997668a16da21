/** Which blocks a caller has taken from the allocator since some earlier moment. */
module Holdings {
  import opened Dyadic
  import opened Partition
  import opened BuddyMem
  import opened BuddyTheorems

  datatype Block = Block(pfn: nat, order: nat)

  predicate Covers(b: Block, f: nat) {
    InBlock(f, b.pfn, b.order)
  }

  /** From a to b exactly the blocks in taken were handed out: they were free runs and are
      allocated blocks now; every other frame is as free as it was, or in the same block. */
  ghost predicate Took(a: Part, b: Part, taken: set<Block>) {
    && b.Keys == a.Keys
    && (forall k :: k in taken ==> FreeRun(a, k.pfn, k.order))
    && (forall k, f: nat {:trigger Covers(k, f)} ::
      k in taken && Covers(k, f) ==> f in b && b[f] == Piece(k.pfn, k.order, Allocated))
    && (forall f :: f in a && (forall k :: k in taken ==> !Covers(k, f)) ==>
          (b[f].place == Listed <==> a[f].place == Listed) && (a[f].place != Listed ==> b[f] == a[f]))
  }

  lemma TookNothing(a: Part)
    ensures Took(a, a, {})
  {
  }

  /** Handing out the free run k adds a block, disjoint from those taken before. */
  lemma TookMore(a: Part, b: Part, b': Part, taken: set<Block>, k: Block)
    requires Took(a, b, taken) && FreeRun(b, k.pfn, k.order) && b'.Keys == b.Keys
    requires forall f :: f in b ==> if Covers(k, f) then b'[f] == Piece(k.pfn, k.order, Allocated)
                                    else if b[f].place == Listed then b'[f].place == Listed else b'[f] == b[f]
    ensures Took(a, b', taken + {k}) && FreeRun(a, k.pfn, k.order)
    ensures forall f: nat {:trigger Covers(k, f)} :: Covers(k, f) ==> forall t :: t in taken ==> !Covers(t, f)
  {
    forall f: nat | Covers(k, f) ensures f in a && a[f].place == Listed && forall t :: t in taken ==> !Covers(t, f) {
      assert f in b && b[f].place == Listed;
    }
    forall f | f in a && (forall t :: t in taken + {k} ==> !Covers(t, f))
      ensures (b'[f].place == Listed <==> a[f].place == Listed) && (a[f].place != Listed ==> b'[f] == a[f])
    {
      assert k in taken + {k} && !Covers(k, f);
      forall t | t in taken ensures !Covers(t, f) { assert t in taken + {k}; }
    }
  }

  /** Allocating adds a block. */
  lemma TookAlloc(a: Part, w: World, w': World, taken: set<Block>, k: Block)
    requires Good(w) && Took(a, w.part, taken) && Alloc(w, k.order) == (Some(k.pfn), w')
    ensures Good(w') && w'.last == w.last && Took(a, w'.part, taken + {k}) && FreeRun(a, k.pfn, k.order)
    ensures FreeRun(w.part, k.pfn, k.order)
    ensures forall f: nat {:trigger Covers(k, f)} :: Covers(k, f) ==> forall t :: t in taken ==> !Covers(t, f)
  {
    hide Good, Alloc, SomeFreeRun, Took, FreeRun;
    AllocExact(w, k.order);
    TookMore(a, w.part, w'.part, taken, k);
  }

  /** Freeing one of the blocks takes it out of the account again. */
  lemma TookFree(a: Part, w: World, taken: set<Block>, k: Block)
    requires Good(w) && Took(a, w.part, taken) && k in taken
    ensures Owned(w, k.pfn) && Took(a, Free(w, k.pfn).part, taken - {k})
  {
    assert Covers(k, k.pfn);
    FreeExact(w, k.pfn);
    var b := Free(w, k.pfn).part;
    assert FitsAt(w.part, k.pfn);
    forall t, f: nat | t in taken - {k} && Covers(t, f) ensures f in b && b[f] == Piece(t.pfn, t.order, Allocated) {
      assert w.part[f] == Piece(t.pfn, t.order, Allocated);
    }
    forall f | f in a && (forall t :: t in taken - {k} ==> !Covers(t, f))
      ensures (b[f].place == Listed <==> a[f].place == Listed) && (a[f].place != Listed ==> b[f] == a[f])
    {
      FreedFrame(a, w, taken, k, f);
    }
  }

  lemma FreedFrame(a: Part, w: World, taken: set<Block>, k: Block, f: nat)
    requires Good(w) && Took(a, w.part, taken) && k in taken && Owned(w, k.pfn)
    requires w.part[k.pfn] == Piece(k.pfn, k.order, Allocated)
    requires f in a && forall t :: t in taken - {k} ==> !Covers(t, f)
    ensures Covers(k, f) ==> w.part[f] == w.part[k.pfn] && a[f].place == Listed
    ensures !Covers(k, f) ==> w.part[f] != w.part[k.pfn] && (w.part[f].place == Listed <==> a[f].place == Listed)
    ensures !Covers(k, f) && a[f].place != Listed ==> w.part[f] == a[f]
  {
    assert FitsAt(w.part, f);
    if !Covers(k, f) {
      forall t | t in taken ensures !Covers(t, f) { assert t == k || t in taken - {k}; }
    }
  }

  /** With nothing left of what was taken, every list holds the blocks it held at the start. */
  lemma TookNothingRestores(w: World, w': World)
    requires Good(w) && Good(w') && Took(w.part, w'.part, {})
    ensures FreeFrames(w'.part) == FreeFrames(w.part) && SameBlocks(w, w')
  {
    FreeFramesFixLists(w, w');
  }
}
