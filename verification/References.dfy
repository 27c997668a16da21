/** What page_alloc records on the frames it hands out, over sequential runs: reference counts and
    the mark of a frame that was once handed out. */
module References {
  import opened Dyadic
  import opened Partition
  import opened BuddyMem
  import opened BuddySteps
  import opened BuddyTheorems

  /** Count and mark of frame x are the same. */
  predicate SameRecord(m: Mem, m': Mem, x: nat) {
    && |m'.pages| == |m.pages|
    && (x < |m.pages| ==> m'.pages[x].refcount == m.pages[x].refcount
                          && m'.pages[x].flags.handed == m.pages[x].flags.handed)
  }

  lemma {:induction false} SlotRecords(m: Mem, p: nat, k: nat, end: nat, x: nat)
    requires Shape(m) && p < |m.pages| && end < |m.pages|
    ensures SameRecord(m, AddToSlot(m, p, k, end), x)
    decreases ORDERS - k
  {
    if k <= MAX_ALLOC_ORDER && BuddyTest(m, p, k, end) {
      SlotRecords(Merge(m, p, k), Min(p, Buddy(p, k)), k + 1, end, x);
    }
  }

  lemma {:induction false} SplitRecords(m: Mem, p: nat, k: nat, req: nat, last: nat, x: nat)
    requires Shape(m) && last < |m.pages| && p + Pow2(k) <= |m.pages| && req <= k && Aligned(p, k)
    ensures SameRecord(m, Split(m, p, k, req, last), x)
    decreases k
  {
    if k > req {
      LowerHalf(p, k - 1);
      var q := Buddy(p, k - 1);
      SlotRecords(OwnHalf(m, q, k - 1), q, k - 1, last, x);
      SplitRecords(SplitRound(m, p, k - 1, last), p, k - 1, req, last, x);
    }
  }

  /** page_alloc counts one reference, in 32 bits, on the block it returns and marks it; it leaves
      the counts and marks of all other frames alone. */
  lemma AllocRecords(w: World, req: nat, x: nat)
    requires Good(w) && x < |w.mem.pages|
    ensures var (got, w') := Alloc(w, req); var g := w.mem.pages[x];
      && |w'.mem.pages| == |w.mem.pages|
      && w'.mem.pages[x].refcount == (if got == Some(x) then (g.refcount + 1) % 0x1_0000_0000 else g.refcount)
      && w'.mem.pages[x].flags.handed == (g.flags.handed || got == Some(x))
  {
    TracksListable(w.mem, w.part);
    var s := FirstStocked(w.mem, req);
    if s.Some? {
      var k := s.value;
      var p := w.mem.lists[k][|w.mem.lists[k]| - 1];
      hide Good, Split, FirstStocked;
      ListedAligned(w, k, |w.mem.lists[k]| - 1);
      SplitRecords(Take(w.mem, k, p, req), p, k, req, w.last, x);
    }
  }

  lemma ListedAligned(w: World, k: nat, i: nat)
    requires Good(w) && k <= MAX_ALLOC_ORDER && i < |w.mem.lists[k]|
    ensures var p := w.mem.lists[k][i]; Aligned(p, k) && p + Pow2(k) <= |w.mem.pages| && w.last < |w.mem.pages|
  {
    TracksListable(w.mem, w.part);
  }

  /** page_free leaves them all alone. */
  lemma FreeRecords(w: World, p: nat, x: nat)
    requires Good(w) && Owned(w, p)
    ensures SameRecord(w.mem, Free(w, p).mem, x)
  {
    SlotRecords(w.mem, p, w.mem.pages[p].order, w.last, x);
  }

  /** How many calls of the run have returned the block at x. */
  ghost function Returned(w: World, ops: seq<Op>, x: nat): nat
    requires Good(w) && LegalRun(w, ops)
    decreases |ops|
  {
    if ops == [] then 0
    else
      StepGood(w, ops[0]);
      (if ops[0].AllocOp? && Alloc(w, ops[0].req).0 == Some(x) then 1 else 0) + Returned(Step(w, ops[0]), ops[1..], x)
  }

  /** Over every run the reference count of a frame grows by the calls that returned it, in 32 bits,
      and it is marked exactly when it was marked at the start or some call returned it. */
  lemma {:induction false} RecordsOverRuns(w: World, ops: seq<Op>, x: nat)
    requires Good(w) && LegalRun(w, ops) && x < |w.mem.pages| && w.mem.pages[x].refcount < 0x1_0000_0000
    ensures var g, r := w.mem.pages[x], Run(w, ops);
      && x < |r.mem.pages| && r.mem.pages[x].refcount == (g.refcount + Returned(w, ops, x)) % 0x1_0000_0000
      && (r.mem.pages[x].flags.handed <==> g.flags.handed || Returned(w, ops, x) > 0)
    decreases |ops|
  {
    hide Good, Alloc, Free;
    if ops != [] {
      StepGood(w, ops[0]);
      if ops[0].AllocOp? { AllocRecords(w, ops[0].req, x); } else { FreeRecords(w, ops[0].pfn, x); }
      RecordsOverRuns(Step(w, ops[0]), ops[1..], x);
    }
  }
}
