/** The step machine of BuddyConcurrent against the functions of BuddyMem: a CPU that finds the
    locks free and runs alone does in its steps exactly what the sequential function does in one. */
module SoloRun {
  import opened Dyadic
  import opened Partition
  import opened BuddyMem
  import opened BuddyConcurrent
  import C = ConcurrentTheorems

  lemma StepInv(s: Sys, c: nat)
    requires Inv(s) && c < |s.cpus|
    ensures Inv(Next(s, c)) && |Next(s, c).cpus| == |s.cpus|
  {
    hide *;
    StepKeeps(s, c);
    KeepsInv(s, Next(s, c), c);
    KeepsCpus(s, Next(s, c), c);
  }

  lemma KeepsCpus(s: Sys, s': Sys, c: nat)
    requires Inv(s) && Keeps(s, s', c)
    ensures |s'.cpus| == |s.cpus|
  {
  }

  /** The state after n steps of CPU c, nobody else moving. */
  ghost function Alone(s: Sys, c: nat, n: nat): (r: Sys)
    requires Inv(s) && c < |s.cpus|
    decreases n
  {
    if n == 0 then s else StepInv(s, c); Alone(Next(s, c), c, n - 1)
  }

  ghost predicate Reaches(s: Sys, c: nat, s': Sys) {
    Inv(s) && c < |s.cpus| && exists n: nat :: Alone(s, c, n) == s'
  }

  lemma {:induction false} AloneInv(s: Sys, c: nat, n: nat)
    requires Inv(s) && c < |s.cpus|
    ensures Inv(Alone(s, c, n)) && |Alone(s, c, n).cpus| == |s.cpus|
    decreases n
  {
    hide Inv, Next;
    if n > 0 {
      StepInv(s, c);
      AloneInv(Next(s, c), c, n - 1);
    }
  }

  lemma {:induction false} AloneAdds(s: Sys, c: nat, i: nat, j: nat)
    requires Inv(s) && c < |s.cpus|
    ensures Inv(Alone(s, c, i)) && |Alone(s, c, i).cpus| == |s.cpus|
    ensures Alone(s, c, i + j) == Alone(Alone(s, c, i), c, j)
    decreases i
  {
    hide Inv, Next;
    AloneInv(s, c, i);
    if i > 0 {
      StepInv(s, c);
      AloneAdds(Next(s, c), c, i - 1, j);
    }
  }

  lemma ReachesInv(s: Sys, c: nat, s': Sys)
    requires Reaches(s, c, s')
    ensures Inv(s') && |s'.cpus| == |s.cpus|
  {
    hide Inv;
    var n: nat :| Alone(s, c, n) == s';
    AloneInv(s, c, n);
  }

  lemma ReachesHere(s: Sys, c: nat)
    requires Inv(s) && c < |s.cpus|
    ensures Reaches(s, c, s)
  {
    hide Inv;
    assert Alone(s, c, 0) == s;
  }

  /** One step more. */
  lemma ReachesNext(s: Sys, c: nat, s': Sys)
    requires Reaches(s, c, s') && c < |s'.cpus| && Inv(s')
    ensures Reaches(s, c, Next(s', c)) && Inv(Next(s', c)) && |Next(s', c).cpus| == |s.cpus|
  {
    hide Inv, Next;
    ReachesInv(s, c, s');
    StepInv(s', c);
    var n: nat :| Alone(s, c, n) == s';
    AloneAdds(s, c, n, 1);
    assert Alone(Next(s', c), c, 0) == Next(s', c);
    assert Alone(s', c, 1) == Next(s', c);
  }

  lemma ReachesTrans(s: Sys, c: nat, s1: Sys, s2: Sys)
    requires Reaches(s, c, s1) && Reaches(s1, c, s2)
    ensures Reaches(s, c, s2)
  {
    hide Inv;
    var i: nat :| Alone(s, c, i) == s1;
    var j: nat :| Alone(s1, c, j) == s2;
    AloneAdds(s, c, i, j);
  }

  /** Nobody holds a lock. */
  predicate Unlocked(s: Sys) {
    |s.locks| == ORDERS && forall k: nat :: k < ORDERS ==> s.locks[k] == None
  }

  /** s' is s but for the memory, the place of CPU c, and the ghost account of blocks. */
  predicate OnlyMoved(s: Sys, s': Sys, c: nat, mem: Mem, pc: Pc)
  {
    && c < |s.cpus| && s'.mem == mem && s'.locks == s.locks && s'.cpus == s.cpus[c := pc] && s'.last == s.last
  }

  /** The steps of a round that merges, one at a time. */
  lemma NextWant(s: Sys, c: nat, p: nat, k: nat, ret: Ret)
    requires Inv(s) && c < |s.cpus| && s.cpus[c] == WantLock(p, k, ret) && Unlocked(s)
    ensures k < |s.locks| && Next(s, c) == GoTo(s.(locks := s.locks[k := Some(c)]), c, ReadOrder(p, k, ret))
    ensures p < |s.mem.pages| && k <= MAX_ALLOC_ORDER && Sized(s)
  {
    hide FlagOk, PlaceOk, ListOk, LockOk, Whole, Coalesced;
    assert PcOk(s, c);
  }

  lemma NextReadOrder(s: Sys, c: nat, p: nat, k: nat, ret: Ret)
    requires Inv(s) && c < |s.cpus| && s.cpus[c] == ReadOrder(p, k, ret)
    ensures Sized(s) && var q := Buddy(p, k);
      Next(s, c) ==
        GoTo(s, c, if k < MAX_ALLOC_ORDER && q <= s.last && s.mem.pages[q].order == k then ReadFlag(p, k, ret)
          else PutOrder(p, k, ret))
  {
    hide FlagOk, PlaceOk, ListOk, LockOk, Whole, Coalesced, PcOk, Buddy;
  }

  lemma NextReadFlag(s: Sys, c: nat, p: nat, k: nat, ret: Ret)
    requires Inv(s) && c < |s.cpus| && s.cpus[c] == ReadFlag(p, k, ret)
    ensures Buddy(p, k) < |s.mem.pages|
    ensures Next(s, c) ==
      GoTo(s, c, if s.mem.pages[Buddy(p, k)].flags.buddy then ClearFlags(p, k, ret) else PutOrder(p, k, ret))
  {
    hide FlagOk, PlaceOk, ListOk, LockOk, Whole, Coalesced, Buddy;
    assert PcOk(s, c);
  }

  lemma NextUnchain(s: Sys, c: nat, p: nat, k: nat, ret: Ret)
    requires Inv(s) && c < |s.cpus| && s.cpus[c] == Unchain(p, k, ret)
    ensures Sized(s) && k <= MAX_ALLOC_ORDER
    ensures Next(s, c) == GoTo(Joined(s, c, p, k), c, DropMerged(Min(p, Buddy(p, k)), k, ret))
  {
    hide FlagOk, PlaceOk, ListOk, LockOk, Whole, Coalesced, Buddy, Joined;
    assert PcOk(s, c);
  }

  lemma NextDropMerged(s: Sys, c: nat, p: nat, k: nat, ret: Ret)
    requires Inv(s) && c < |s.cpus| && s.cpus[c] == DropMerged(p, k, ret)
    ensures k < |s.locks| && Next(s, c) == Release(s, c, k, WantLock(p, k + 1, ret))
  {
    hide FlagOk, PlaceOk, ListOk, LockOk, Whole, Coalesced;
    assert PcOk(s, c);
  }

  /** A round that merges is six steps: the lock and the two reads, */
  lemma TestPassed(s: Sys, c: nat, p: nat, k: nat, ret: Ret) returns (s': Sys)
    requires Inv(s) && c < |s.cpus| && s.cpus[c] == WantLock(p, k, ret) && Unlocked(s) && Shape(s.mem)
    requires s.last < |s.mem.pages| && p < |s.mem.pages| && BuddyTest(s.mem, p, k, s.last)
    ensures Reaches(s, c, s') && Inv(s') && s'.mem == s.mem && s'.last == s.last && k <= MAX_ALLOC_ORDER
    ensures Buddy(p, k) < |s.mem.pages| && k < |s.locks| && s.locks[k] == None
    ensures s'.locks == s.locks[k := Some(c)] && s'.cpus == s.cpus[c := ClearFlags(p, k, ret)]
  {
    hide Inv, Next, Reaches, Buddy;
    ReachesHere(s, c);
    NextWant(s, c, p, k, ret);
    var s1 := Next(s, c);
    ReachesNext(s, c, s);
    NextReadOrder(s1, c, p, k, ret);
    var s2 := Next(s1, c);
    ReachesNext(s, c, s1);
    NextReadFlag(s2, c, p, k, ret);
    s' := Next(s2, c);
    ReachesNext(s, c, s2);
  }

  /** and three that merge and drop the lock. */
  lemma MergeRound(s: Sys, c: nat, p: nat, k: nat, ret: Ret) returns (s': Sys)
    requires Inv(s) && c < |s.cpus| && s.cpus[c] == WantLock(p, k, ret) && Unlocked(s) && Shape(s.mem)
    requires s.last < |s.mem.pages| && p < |s.mem.pages| && BuddyTest(s.mem, p, k, s.last)
    ensures Reaches(s, c, s') && OnlyMoved(s, s', c, Merge(s.mem, p, k), WantLock(Min(p, Buddy(p, k)), k + 1, ret))
  {
    hide Inv, Next, Reaches, Buddy, Joined, ClearedPages, Unlocked, BuddyTest;
    var s3 := TestPassed(s, c, p, k, ret);
    ClearFlagsNext(s3, c, p, k, ret);
    var s4 := Next(s3, c);
    ReachesNext(s, c, s3);
    ClearedKeeps(s3, p, k);
    NextUnchain(s4, c, p, k, ret);
    var s5 := Next(s4, c);
    ReachesNext(s, c, s4);
    JoinedIsMerge(s, s3, s4, c, p, k);
    NextDropMerged(s5, c, Min(p, Buddy(p, k)), k, ret);
    s' := Next(s5, c);
    ReachesNext(s, c, s5);
    assert s'.locks == s.locks;
    assert s'.cpus == s.cpus[c := WantLock(Min(p, Buddy(p, k)), k + 1, ret)];
  }

  lemma JoinedIsMerge(s: Sys, s3: Sys, s4: Sys, c: nat, p: nat, k: nat)
    requires Sized(s4) && Shape(s.mem) && k <= MAX_ALLOC_ORDER && p < |s.mem.pages| && Buddy(p, k) < |s.mem.pages|
    requires s3.mem == s.mem && s4.mem == ClearedPages(s3, p, k).mem
    ensures Joined(s4, c, p, k).mem == Merge(s.mem, p, k) && Joined(s4, c, p, k).cpus == s4.cpus
    ensures Joined(s4, c, p, k).locks == s4.locks && Joined(s4, c, p, k).last == s4.last
  {
    hide Buddy;
  }

  lemma ClearedKeeps(s: Sys, p: nat, k: nat)
    requires p < |s.mem.pages| && Buddy(p, k) < |s.mem.pages|
    ensures var r := ClearedPages(s, p, k); r.locks == s.locks && r.last == s.last && r.cpus == s.cpus
  {
    hide Buddy;
  }

  lemma NextPut(s: Sys, c: nat, p: nat, k: nat, ret: Ret)
    requires Inv(s) && c < |s.cpus|
    requires (s.cpus[c] == PutOrder(p, k, ret) || s.cpus[c] == PutFlag(p, k, ret) || s.cpus[c] == PutLink(p, k, ret))
    ensures p < |s.mem.pages| && Sized(s) && k <= MAX_ALLOC_ORDER
    ensures s.cpus[c].PutOrder? ==> Next(s, c) == GoTo(Write(s, p, s.mem.pages[p].(order := k)), c, PutFlag(p, k, ret))
    ensures s.cpus[c].PutFlag? ==>
      Next(s, c) ==
        GoTo(Write(s, p, s.mem.pages[p].(flags := s.mem.pages[p].flags.(buddy := true, sub := false))), c,
          PutLink(p, k, ret))
    ensures s.cpus[c].PutLink? ==> Next(s, c) == GoTo(Appended(s, p, k), c, DropPut(k, ret))
  {
    hide FlagOk, PlaceOk, ListOk, LockOk, Whole, Coalesced, Appended, Buddy;
    assert PcOk(s, c);
  }

  lemma NextDropPut(s: Sys, c: nat, k: nat, ret: Ret)
    requires Inv(s) && c < |s.cpus| && s.cpus[c] == DropPut(k, ret)
    ensures k < |s.locks| && Next(s, c) == Release(s, c, k, Return(ret))
  {
    hide FlagOk, PlaceOk, ListOk, LockOk, Whole, Coalesced;
    assert PcOk(s, c);
  }

  /** The writes of the inserting branch. */
  lemma PutSteps(s: Sys, c: nat, p: nat, k: nat, ret: Ret, s1: Sys) returns (s': Sys)
    requires Reaches(s, c, s1) && Inv(s1) && c < |s1.cpus| && s1.cpus[c] == PutOrder(p, k, ret) && p < |s1.mem.pages|
    requires Shape(s1.mem)
    requires k < |s1.locks| && k <= MAX_ALLOC_ORDER
    ensures Reaches(s, c, s') && s'.mem == Insert(s1.mem, p, k) && s'.last == s1.last
    ensures s'.cpus == s1.cpus[c := Return(ret)] && s'.locks == s1.locks[k := None]
  {
    hide Inv, Next, Reaches, Appended, Write;
    NextPut(s1, c, p, k, ret);
    var s2 := Next(s1, c);
    ReachesNext(s, c, s1);
    WriteKeeps(s1, p, s1.mem.pages[p].(order := k));
    NextPut(s2, c, p, k, ret);
    var s3 := Next(s2, c);
    ReachesNext(s, c, s2);
    WriteKeeps(s2, p, s2.mem.pages[p].(flags := s2.mem.pages[p].flags.(buddy := true, sub := false)));
    NextPut(s3, c, p, k, ret);
    var s4 := Next(s3, c);
    ReachesNext(s, c, s3);
    AppendedIsInsert(s1, s3, p, k);
    NextDropPut(s4, c, k, ret);
    s' := Next(s4, c);
    ReachesNext(s, c, s4);
  }

  lemma WriteKeeps(s: Sys, p: nat, page: Page)
    requires p < |s.mem.pages|
    ensures var r := Write(s, p, page);
      r.mem == SetPage(s.mem, p, page) && r.locks == s.locks && r.cpus == s.cpus && r.last == s.last
  {
  }

  lemma AppendedIsInsert(s: Sys, s3: Sys, p: nat, k: nat)
    requires Sized(s3) && Shape(s.mem) && k <= MAX_ALLOC_ORDER && p < |s.mem.pages|
    requires var m2 := SetPage(s.mem, p, s.mem.pages[p].(order := k));
      s3.mem == SetPage(m2, p, m2.pages[p].(flags := m2.pages[p].flags.(buddy := true, sub := false)))
    ensures Appended(s3, p, k).mem == Insert(s.mem, p, k) && Appended(s3, p, k).cpus == s3.cpus
    ensures Appended(s3, p, k).locks == s3.locks && Appended(s3, p, k).last == s3.last
  {
    assert s3.mem.pages == Insert(s.mem, p, k).pages;
  }

  /** A round that inserts. */
  lemma PutRound(s: Sys, c: nat, p: nat, k: nat, ret: Ret) returns (s': Sys)
    requires Inv(s) && c < |s.cpus| && s.cpus[c] == WantLock(p, k, ret) && Unlocked(s) && Shape(s.mem)
    requires s.last < |s.mem.pages| && p < |s.mem.pages| && !BuddyTest(s.mem, p, k, s.last)
    ensures k <= MAX_ALLOC_ORDER && Reaches(s, c, s') && OnlyMoved(s, s', c, Insert(s.mem, p, k), Return(ret))
  {
    hide Inv, Next, Reaches, Buddy, Insert;
    ReachesHere(s, c);
    NextWant(s, c, p, k, ret);
    var s1 := Next(s, c);
    ReachesNext(s, c, s);
    NextReadOrder(s1, c, p, k, ret);
    var s2 := Next(s1, c);
    ReachesNext(s, c, s1);
    if s2.cpus[c].ReadFlag? {
      NextReadFlag(s2, c, p, k, ret);
      var s3 := Next(s2, c);
      ReachesNext(s, c, s2);
      s' := PutSteps(s, c, p, k, ret, s3);
    } else {
      s' := PutSteps(s, c, p, k, ret, s2);
    }
    assert s'.locks == s.locks;
    assert s'.cpus == s.cpus[c := Return(ret)];
  }

  /** page_add_to_slot, run alone from local order k on, is AddToSlot. */
  lemma {:induction false} SlotAlone(s: Sys, c: nat, p: nat, k: nat, ret: Ret) returns (s': Sys)
    requires Inv(s) && c < |s.cpus| && s.cpus[c] == WantLock(p, k, ret) && Unlocked(s) && Shape(s.mem)
    requires s.last < |s.mem.pages| && p < |s.mem.pages|
    ensures Reaches(s, c, s') && OnlyMoved(s, s', c, AddToSlot(s.mem, p, k, s.last), Return(ret))
    decreases ORDERS - k
  {
    hide Inv, Next, Reaches, Buddy, Insert, Merge, BuddyTest;
    WantFits(s, c, p, k, ret);
    if BuddyTest(s.mem, p, k, s.last) {
      var s1 := MergeRound(s, c, p, k, ret);
      ReachesInv(s, c, s1);
      s' := SlotAlone(s1, c, Min(p, Buddy(p, k)), k + 1, ret);
      ReachesTrans(s, c, s1, s');
      assert s'.cpus == s.cpus[c := Return(ret)];
    } else {
      s' := PutRound(s, c, p, k, ret);
    }
  }

  lemma WantFits(s: Sys, c: nat, p: nat, k: nat, ret: Ret)
    requires Inv(s) && c < |s.cpus| && s.cpus[c] == WantLock(p, k, ret)
    ensures k <= MAX_ALLOC_ORDER
  {
    hide FlagOk, ListOk, LockOk, Whole, Coalesced;
    assert PcOk(s, c);
  }

  lemma NextEnter(s: Sys, c: nat, p: nat, ret: Ret)
    requires Inv(s) && c < |s.cpus| && s.cpus[c] == Enter(p, ret)
    ensures p < |s.mem.pages| && Sized(s)
    ensures Next(s, c) == GoTo(s, c, WantLock(p, s.mem.pages[p].order, ret))
  {
    hide FlagOk, PlaceOk, ListOk, LockOk, Whole, Coalesced;
    assert PcOk(s, c);
  }

  /** A CPU that enters page_add_to_slot and runs alone leaves the memory as AddToSlot does. */
  lemma FreeAlone(s: Sys, c: nat, p: nat, ret: Ret) returns (s': Sys)
    requires Inv(s) && c < |s.cpus| && s.cpus[c] == Enter(p, ret) && Unlocked(s)
    ensures p < |s.mem.pages| && Shape(s.mem) && s.last < |s.mem.pages|
    ensures Reaches(s, c, s') && OnlyMoved(s, s', c, AddToSlot(s.mem, p, s.mem.pages[p].order, s.last), Return(ret))
  {
    hide Inv, Next, Reaches, AddToSlot;
    NextEnter(s, c, p, ret);
    ReachesHere(s, c);
    var s1 := Next(s, c);
    ReachesNext(s, c, s);
    s' := SlotAlone(s1, c, p, s.mem.pages[p].order, ret);
    ReachesTrans(s, c, s1, s');
    assert s'.cpus == s.cpus[c := Return(ret)];
  }

  lemma NextHandOut(s: Sys, c: nat, p: nat, k: nat)
    requires Inv(s) && c < |s.cpus| && s.cpus[c] == Halve(p, k, k)
    ensures Next(s, c) == GoTo(s.(part := Paint(s.part, p, k, Allocated)), c, Idle)
  {
    hide FlagOk, PlaceOk, ListOk, LockOk, Whole, Coalesced, Paint;
    assert PcOk(s, c);
  }

  lemma HalveFits(s: Sys, c: nat, p: nat, k: nat, req: nat)
    requires Inv(s) && c < |s.cpus| && s.cpus[c] == Halve(p, k, req)
    ensures Sized(s) && p in s.part && req <= k && p + Pow2(k) <= |s.mem.pages| && Aligned(p, k)
  {
    assert PcOk(s, c);
    hide FlagOk, PlaceOk, ListOk, LockOk, Whole, Coalesced;
    BlockInArray(s, p, k);
  }

  lemma NextHalf(s: Sys, c: nat, p: nat, k: nat, req: nat)
    requires Inv(s) && c < |s.cpus| && s.cpus[c] == Halve(p, k + 1, req) && req <= k
    ensures Sized(s) && p in s.part && Buddy(p, k) < |s.mem.pages|
    ensures Next(s, c) == GoTo(Halved(s, c, p, k), c, Enter(Buddy(p, k), Splitting(p, k, req)))
  {
    hide FlagOk, PlaceOk, ListOk, LockOk, Whole, Coalesced, Halved;
    assert PcOk(s, c);
    HalfInArray(s, p, k + 1);
  }

  lemma BlockInArray(s: Sys, p: nat, k: nat)
    requires Core(s) && p in s.part && s.part[p].pfn == p && s.part[p].order == k
    ensures p + Pow2(k) <= |s.mem.pages| && Aligned(p, k)
  {
    hide FlagOk, ListOk, LockOk, Coalesced;
    assert FitsAt(s.part, p);
    BlockIsInterval(p + Pow2(k) - 1, p, k);
    assert PlaceOk(s, p + Pow2(k) - 1);
  }

  lemma HalvedMem(s: Sys, c: nat, p: nat, k: nat)
    requires Sized(s) && p in s.part && Buddy(p, k) < |s.mem.pages|
    ensures var r := Halved(s, c, p, k);
      r.mem == OwnHalf(s.mem, Buddy(p, k), k) && r.locks == s.locks && r.cpus == s.cpus && r.last == s.last
    ensures OwnHalf(s.mem, Buddy(p, k), k).pages[Buddy(p, k)].order == k
  {
  }

  /** One round of the splitting loop, run alone. */
  lemma SplitRoundAlone(s: Sys, c: nat, p: nat, k: nat, req: nat) returns (s': Sys)
    requires Inv(s) && c < |s.cpus| && s.cpus[c] == Halve(p, k + 1, req) && req <= k && Unlocked(s)
    ensures Shape(s.mem) && s.last < |s.mem.pages| && Buddy(p, k) < |s.mem.pages|
    ensures Reaches(s, c, s') && OnlyMoved(s, s', c, SplitRound(s.mem, p, k, s.last), Halve(p, k, req))
  {
    hide Inv, Next, Reaches, AddToSlot, Halved, OwnHalf;
    NextHalf(s, c, p, k, req);
    HalvedMem(s, c, p, k);
    ReachesHere(s, c);
    var s1 := Next(s, c);
    ReachesNext(s, c, s);
    s' := FreeAlone(s1, c, Buddy(p, k), Splitting(p, k, req));
    ReachesTrans(s, c, s1, s');
    assert s'.cpus == s.cpus[c := Halve(p, k, req)];
  }

  lemma {:induction false} HalveAlone(s: Sys, c: nat, p: nat, k: nat, req: nat) returns (s': Sys)
    requires Inv(s) && c < |s.cpus| && s.cpus[c] == Halve(p, k, req) && Unlocked(s)
    ensures Shape(s.mem) && s.last < |s.mem.pages| && p + Pow2(k) <= |s.mem.pages| && req <= k && Aligned(p, k)
    ensures Reaches(s, c, s') && OnlyMoved(s, s', c, Split(s.mem, p, k, req, s.last), Idle)
    decreases k
  {
    hide Inv, Next, Reaches, SplitRound, Pow2, Aligned, Paint;
    HalveFits(s, c, p, k, req);
    if k == req {
      NextHandOut(s, c, p, k);
      ReachesHere(s, c);
      s' := Next(s, c);
      ReachesNext(s, c, s);
    } else {
      var s1 := SplitRoundAlone(s, c, p, k - 1, req);
      ReachesInv(s, c, s1);
      s' := HalveAlone(s1, c, p, k - 1, req);
      ReachesTrans(s, c, s1, s');
      assert s'.cpus == s.cpus[c := Idle];
    }
  }

  lemma NextSeek(s: Sys, c: nat, req: nat, k: nat)
    requires Inv(s) && c < |s.cpus| && s.cpus[c] == Seek(req, k) && Unlocked(s)
    ensures Sized(s) && req <= k
    ensures k > MAX_ALLOC_ORDER ==> Next(s, c) == GoTo(s, c, Idle)
    ensures k <= MAX_ALLOC_ORDER ==> Next(s, c) == GoTo(s.(locks := s.locks[k := Some(c)]), c, Look(req, k))
  {
    hide FlagOk, PlaceOk, ListOk, LockOk, Whole, Coalesced;
    assert PcOk(s, c);
  }

  lemma NextLook(s: Sys, c: nat, req: nat, k: nat)
    requires Inv(s) && c < |s.cpus| && s.cpus[c] == Look(req, k)
    ensures Sized(s) && k <= MAX_ALLOC_ORDER
    ensures s.mem.lists[k] == [] ==> Next(s, c) == GoTo(s, c, DropEmpty(req, k))
    ensures s.mem.lists[k] != [] ==> var p := s.mem.lists[k][|s.mem.lists[k]| - 1];
      Next(s, c) == GoTo(Taken(s, c, p, k), c, TakeFlag(p, k, req))
  {
    hide FlagOk, PlaceOk, ListOk, LockOk, Whole, Coalesced, Taken;
    assert PcOk(s, c);
  }

  lemma NextDropEmpty(s: Sys, c: nat, req: nat, k: nat)
    requires Inv(s) && c < |s.cpus| && s.cpus[c] == DropEmpty(req, k)
    ensures k < |s.locks| && Next(s, c) == Release(s, c, k, Seek(req, k + 1))
  {
    hide FlagOk, PlaceOk, ListOk, LockOk, Whole, Coalesced;
    assert PcOk(s, c);
  }

  lemma NextTake(s: Sys, c: nat, p: nat, k: nat, req: nat)
    requires Inv(s) && c < |s.cpus|
    requires (s.cpus[c] == TakeFlag(p, k, req) || s.cpus[c] == TakeOrder(p, k, req)
      || s.cpus[c] == DropTaken(p, k, req))
    ensures p < |s.mem.pages| && k < |s.locks|
    ensures s.cpus[c].TakeFlag? ==>
      Next(s, c) ==
        GoTo(Write(s, p, s.mem.pages[p].(flags := s.mem.pages[p].flags.(buddy := false, handed := true))), c,
          TakeOrder(p, k, req))
    ensures s.cpus[c].TakeOrder? ==>
      var page := s.mem.pages[p].(order := req, refcount := (s.mem.pages[p].refcount + 1) % 0x1_0000_0000);
      Next(s, c) == GoTo(Write(s, p, page), c, DropTaken(p, k, req))
    ensures s.cpus[c].DropTaken? ==> Next(s, c) == Release(s, c, k, Halve(p, k, req))
  {
    hide FlagOk, PlaceOk, ListOk, LockOk, Whole, Coalesced;
    assert PcOk(s, c);
  }

  /** The critical section that takes a block, run alone. */
  lemma TakeAlone(s: Sys, c: nat, req: nat, k: nat) returns (s': Sys)
    requires Inv(s) && c < |s.cpus| && s.cpus[c] == Seek(req, k) && Unlocked(s) && k <= MAX_ALLOC_ORDER
    requires Shape(s.mem) && s.mem.lists[k] != []
    ensures s.mem.lists[k][|s.mem.lists[k]| - 1] < |s.mem.pages| && Reaches(s, c, s')
    ensures var p := s.mem.lists[k][|s.mem.lists[k]| - 1]; OnlyMoved(s, s', c, Take(s.mem, k, p, req), Halve(p, k, req))
  {
    hide Inv, Next, Reaches, Taken, Write;
    NextSeek(s, c, req, k);
    ReachesHere(s, c);
    var s1 := Next(s, c);
    ReachesNext(s, c, s);
    NextLook(s1, c, req, k);
    var p := s.mem.lists[k][|s.mem.lists[k]| - 1];
    TakenKeeps(s1, c, p, k);
    var s2 := Next(s1, c);
    ReachesNext(s, c, s1);
    NextTake(s2, c, p, k, req);
    WriteKeeps(s2, p, s2.mem.pages[p].(flags := s2.mem.pages[p].flags.(buddy := false, handed := true)));
    var s3 := Next(s2, c);
    ReachesNext(s, c, s2);
    NextTake(s3, c, p, k, req);
    WriteKeeps(s3, p, s3.mem.pages[p].(order := req, refcount := (s3.mem.pages[p].refcount + 1) % 0x1_0000_0000));
    var s4 := Next(s3, c);
    ReachesNext(s, c, s3);
    NextTake(s4, c, p, k, req);
    s' := Next(s4, c);
    ReachesNext(s, c, s4);
    assert s'.locks == s.locks;
    assert s'.mem.pages == Take(s.mem, k, p, req).pages;
    assert s'.cpus == s.cpus[c := Halve(p, k, req)];
  }

  lemma TakenKeeps(s: Sys, c: nat, p: nat, k: nat)
    requires Sized(s) && k <= MAX_ALLOC_ORDER
    ensures var r := Taken(s, c, p, k);
      r.mem == SetList(s.mem, k, Unlink(s.mem.lists[k], p), s.mem.counts[k]) && r.locks == s.locks && r.cpus == s.cpus
        && r.last == s.last
  {
  }

  lemma EmptyAlone(s: Sys, c: nat, req: nat, k: nat) returns (s': Sys)
    requires Inv(s) && c < |s.cpus| && s.cpus[c] == Seek(req, k) && Unlocked(s) && k <= MAX_ALLOC_ORDER
    requires Shape(s.mem) && s.mem.lists[k] == []
    ensures Reaches(s, c, s') && OnlyMoved(s, s', c, s.mem, Seek(req, k + 1))
  {
    hide Inv, Next, Reaches;
    NextSeek(s, c, req, k);
    ReachesHere(s, c);
    var s1 := Next(s, c);
    ReachesNext(s, c, s);
    NextLook(s1, c, req, k);
    var s2 := Next(s1, c);
    ReachesNext(s, c, s1);
    NextDropEmpty(s2, c, req, k);
    s' := Next(s2, c);
    ReachesNext(s, c, s2);
    assert s'.locks == s.locks;
    assert s'.cpus == s.cpus[c := Seek(req, k + 1)];
  }

  /** page_alloc, run alone: the memory is left as PageAlloc leaves it. */
  lemma {:induction false} SeekAlone(s: Sys, c: nat, req: nat, k: nat) returns (s': Sys)
    requires Inv(s) && c < |s.cpus| && s.cpus[c] == Seek(req, k) && Unlocked(s) && Listable(s.mem)
    requires s.last < |s.mem.pages|
    requires FirstStocked(s.mem, req) == FirstStocked(s.mem, k)
    ensures Reaches(s, c, s') && OnlyMoved(s, s', c, PageAlloc(s.mem, req, s.last).1, Idle)
    decreases ORDERS - k
  {
    hide Inv, Next, Reaches, Take, Split, Pow2, Aligned;
    NextSeek(s, c, req, k);
    if k > MAX_ALLOC_ORDER {
      ReachesHere(s, c);
      s' := Next(s, c);
      ReachesNext(s, c, s);
    } else if s.mem.lists[k] == [] {
      var s1 := EmptyAlone(s, c, req, k);
      ReachesInv(s, c, s1);
      s' := SeekAlone(s1, c, req, k + 1);
      ReachesTrans(s, c, s1, s');
      assert s'.cpus == s.cpus[c := Idle];
    } else {
      var s1 := TakeAlone(s, c, req, k);
      ReachesInv(s, c, s1);
      s' := HalveAlone(s1, c, s.mem.lists[k][|s.mem.lists[k]| - 1], k, req);
      ReachesTrans(s, c, s1, s');
      assert s'.cpus == s.cpus[c := Idle];
    }
  }

  /** Between calls, with the locks free, a call of page_alloc that runs alone is PageAlloc. */
  lemma AllocAlone(s: Sys, c: nat, req: nat) returns (s': Sys)
    requires Inv(s) && c < |s.cpus| && s.cpus[c] == Seek(req, req) && Unlocked(s)
    ensures Listable(s.mem) && s.last < |s.mem.pages|
    ensures Reaches(s, c, s') && OnlyMoved(s, s', c, PageAlloc(s.mem, req, s.last).1, Idle)
  {
    InvListable(s);
    s' := SeekAlone(s, c, req, req);
  }

  lemma InvListable(s: Sys)
    requires Core(s)
    ensures Listable(s.mem) && s.last < |s.mem.pages|
  {
    hide FlagOk, LockOk, Coalesced;
    forall k: nat, i: nat | k <= MAX_ALLOC_ORDER && i < |s.mem.lists[k]|
      ensures Aligned(s.mem.lists[k][i], k) && s.mem.lists[k][i] + Pow2(k) <= |s.mem.pages|
    {
      var p := s.mem.lists[k][i];
      assert ListOk(s, k) && p in s.mem.lists[k] && Has(s.part, p, k, Listed);
      BlockInArray(s, p, k);
    }
  }

  /** So a whole call of page_alloc, from the event that makes it. */
  lemma AllocCallAlone(s: Sys, c: nat, req: nat) returns (s': Sys)
    requires Inv(s) && C.Enabled(s, C.CallAlloc(c, req)) && Unlocked(s)
    ensures var s1 := C.After(s, C.CallAlloc(c, req));
      Listable(s.mem) && s.last < |s.mem.pages|
      && Reaches(s1, c, s') && OnlyMoved(s1, s', c, PageAlloc(s.mem, req, s.last).1, Idle)
  {
    C.EventKeeps(s, C.CallAlloc(c, req));
    hide Inv, Reaches, OnlyMoved, Listable;
    s' := AllocAlone(C.After(s, C.CallAlloc(c, req)), c, req);
  }

  /** And of page_free. */
  lemma FreeCallAlone(s: Sys, c: nat, p: nat) returns (s': Sys)
    requires Inv(s) && C.Enabled(s, C.CallFree(c, p)) && Unlocked(s)
    ensures var s1 := C.After(s, C.CallFree(c, p));
      p < |s.mem.pages| && Shape(s.mem) && s.last < |s.mem.pages|
      && Reaches(s1, c, s') && OnlyMoved(s1, s', c, AddToSlot(s.mem, p, s.mem.pages[p].order, s.last), Idle)
  {
    C.EventKeeps(s, C.CallFree(c, p));
    hide Inv, Reaches, OnlyMoved;
    s' := FreeAlone(C.After(s, C.CallFree(c, p)), c, p, Caller);
  }
}
