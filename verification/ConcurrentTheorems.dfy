/** What holds in every state that any number of CPUs can reach, whatever the interleaving. */
module ConcurrentTheorems {
  import opened Dyadic
  import opened Partition
  import opened BuddyMem
  import opened BuddySteps
  import opened BuddyTheorems
  import opened MemInit
  import opened BuddyConcurrent

  /** CPU c takes its next step, or, when idle, frees an allocated block or asks for one. */
  datatype Event = Tick(c: nat) | CallFree(c: nat, p: nat) | CallAlloc(c: nat, req: nat)

  predicate Enabled(s: Sys, e: Event) {
    && e.c < |s.cpus|
    && (e.CallFree? ==> s.cpus[e.c].Idle? && e.p in s.part && s.part[e.p].pfn == e.p && s.part[e.p].place == Allocated)
    && (e.CallAlloc? ==> s.cpus[e.c].Idle?)
  }

  ghost function After(s: Sys, e: Event): Sys
    requires Inv(s) && Enabled(s, e)
  {
    match e
    case Tick(c) => Next(s, c)
    case CallFree(c, p) => GoTo(s.(part := Paint(s.part, p, s.part[p].order, Held(c))), c, Enter(p, Caller))
    case CallAlloc(c, req) => GoTo(s, c, Seek(req, req))
  }

  lemma CallFreeKeeps(s: Sys, c: nat, p: nat)
    requires Inv(s) && Enabled(s, CallFree(c, p))
    ensures Keeps(s, After(s, CallFree(c, p)), c)
  {
    var k := s.part[p].order;
    var s' := After(s, CallFree(c, p));
    MoveFrames(s.part, p, k, Held(c));
    assert PlaceOk(s, p) && FlagOk(s, p);
    forall f | f in s.part ensures PlaceOk(s', f) && PieceKept(s, s', c, f) {
      assert PlaceOk(s, f);
      HeadInPart(s.part, f);
      FreedPlace(s, s', c, p, k, f);
    }
    forall x: nat | x < |s.mem.pages| ensures FlagOk(s', x) {
      assert FlagOk(s, x);
      FreedFlag(s, s', c, p, k, x);
    }
    FewerListedCoalesced(s.part, s'.part, p);
    HeldLists(s, s', c, p);
    FreedGuarantee(s, s', c);
  }

  lemma FreedPlace(s: Sys, s': Sys, c: nat, p: nat, k: nat, f: nat)
    requires Sized(s) && c < |s.cpus| && s.cpus[c].Idle? && Has(s.part, p, k, Allocated) && PlaceOk(s, p)
    requires k <= MAX_ALLOC_ORDER
    requires f in s.part && PlaceOk(s, f) && Has(s.part, s.part[f].pfn, s.part[f].order, s.part[f].place)
    requires s' == GoTo(s.(part := s'.part), c, Enter(p, Caller))
    requires f in s'.part && s'.part[f] == if s.part[f] == s.part[p] then Piece(p, k, Held(c)) else s.part[f]
    ensures PlaceOk(s', f) && PieceKept(s, s', c, f)
  {
    if s.part[f] == s.part[p] { HandPlace(s', c, p, k, f); } else { OtherPlace(s, s', c, f); }
  }

  lemma FreedFlag(s: Sys, s': Sys, c: nat, p: nat, k: nat, x: nat)
    requires Sized(s) && c < |s.cpus| && s.cpus[c].Idle? && Has(s.part, p, k, Allocated)
    requires x < |s.mem.pages| && FlagOk(s, x) && s' == GoTo(s.(part := s'.part), c, Enter(p, Caller))
    requires s'.part.Keys == s.part.Keys
    requires x in s.part ==> s'.part[x] == if s.part[x] == s.part[p] then Piece(p, k, Held(c)) else s.part[x]
    ensures FlagOk(s', x)
  {
  }

  lemma FreedGuarantee(s: Sys, s': Sys, c: nat)
    requires Sized(s) && c < |s.cpus| && |s'.cpus| == |s.cpus| && s' == GoTo(s.(part := s'.part), c, s'.cpus[c])
    requires s'.part.Keys == s.part.Keys
    requires forall f :: f in s.part ==> PieceKept(s, s', c, f)
    requires forall f :: f in s.part && s.part[f].place != Allocated ==> s'.part[f] == s.part[f]
    ensures Guarantee(s, s', c)
  {
  }

  lemma HeldLists(s: Sys, s': Sys, c: nat, p: nat)
    requires Core(s) && c < |s.cpus| && Critical(s.cpus[c]) == None && |s'.cpus| == |s.cpus|
    requires s' == GoTo(s.(part := s'.part), c, s'.cpus[c])
    requires p in s.part && s.part[p].place != Listed && ListedButOne(s.part, s'.part, p)
    requires Critical(s'.cpus[c]) == None
    ensures forall j: nat :: j <= MAX_ALLOC_ORDER ==> ListOk(s', j) && LockOk(s', j)
  {
    forall j: nat | j <= MAX_ALLOC_ORDER ensures ListOk(s', j) && LockOk(s', j) { assert ListOk(s, j) && LockOk(s, j); }
  }

  lemma EventKeeps(s: Sys, e: Event)
    requires Inv(s) && Enabled(s, e)
    ensures Inv(After(s, e)) && After(s, e).part.Keys == s.part.Keys && |After(s, e).cpus| == |s.cpus|
  {
    match e
    case Tick(c) => StepKeeps(s, c); KeepsInv(s, Next(s, c), c);
    case CallFree(c, p) => CallFreeKeeps(s, c, p); KeepsInv(s, After(s, e), c);
    case CallAlloc(c, req) => MoveCore(s, c, Seek(req, req)); KeepsInv(s, After(s, e), c);
  }

  ghost predicate EnabledRun(s: Sys, es: seq<Event>)
    requires Inv(s)
    decreases |es|
  {
    es == [] || (Enabled(s, es[0]) && (EventKeeps(s, es[0]); EnabledRun(After(s, es[0]), es[1..])))
  }

  /** The state after a run of events, in the order in which the CPUs were scheduled. */
  ghost function Reach(s: Sys, es: seq<Event>): Sys
    requires Inv(s) && EnabledRun(s, es)
    decreases |es|
  {
    if es == [] then s else EventKeeps(s, es[0]); Reach(After(s, es[0]), es[1..])
  }

  lemma {:induction false} ReachInv(s: Sys, es: seq<Event>)
    requires Inv(s) && EnabledRun(s, es)
    ensures Inv(Reach(s, es)) && Reach(s, es).part.Keys == s.part.Keys && |Reach(s, es).cpus| == |s.cpus|
    decreases |es|
  {
    if es != [] {
      EventKeeps(s, es[0]);
      ReachInv(After(s, es[0]), es[1..]);
    }
  }

  /** Any number of idle CPUs over freshly built free lists. */
  function Booted(w: World, n: nat): Sys {
    Sys(w.mem, w.part, seq(ORDERS, i => None), seq(n, i => Idle), seq(ORDERS, i => 0), w.last)
  }

  lemma BootedInv(w: World, n: nat)
    requires AllFree(w)
    ensures Inv(Booted(w, n))
  {
    var s := Booted(w, n);
    forall k: nat | k <= MAX_ALLOC_ORDER ensures ListOk(s, k) && LockOk(s, k) { assert Drift(w.mem, k) == 0; }
    forall p: nat | p < |s.mem.pages| ensures FlagOk(s, p) {
      if s.mem.pages[p].flags.buddy { assert p in s.mem.lists[s.mem.pages[p].order]; }
    }
    forall f | f in s.part ensures PlaceOk(s, f) {
      HeadInPart(s.part, f);
      assert FitsAt(s.part, f);
      assert s.part[f].pfn in s.mem.lists[s.part[f].order];
    }
  }

  /** Frame f belongs to the block b and b is where its place says. */
  ghost predicate AccountedAt(s: Sys, f: nat, b: Piece)
    requires Shape(s.mem)
  {
    && b.order <= MAX_ALLOC_ORDER && Aligned(b.pfn, b.order) && b.pfn <= f < b.pfn + Pow2(b.order)
    && match b.place
       case Listed => b.pfn in s.mem.lists[b.order]
       case Held(c) => c < |s.cpus| && b.pfn in Hands(s.cpus[c])
       case Allocated => b.pfn < |s.mem.pages| && s.mem.pages[b.pfn].order == b.order
  }

  /** No frame is lost or owned twice: after every run, each frame managed at the start lies in
      exactly one aligned block, which is on a list, in the hands of a CPU, or allocated; frames
      of one block agree on it, and blocks of different heads share no frame. */
  lemma FramesPartitioned(s: Sys, es: seq<Event>, f: nat)
    requires Inv(s) && EnabledRun(s, es) && f in s.part
    ensures var r := Reach(s, es); Inv(r) && f in r.part && AccountedAt(r, f, r.part[f])
    ensures var r := Reach(s, es); forall g: nat :: r.part[f].pfn <= g < r.part[f].pfn + Pow2(r.part[f].order) ==>
              g in r.part && r.part[g] == r.part[f]
  {
    ReachInv(s, es);
    var r := Reach(s, es);
    var b := r.part[f];
    assert FitsAt(r.part, f) && PlaceOk(r, f);
    BlockIsInterval(f, b.pfn, b.order);
    HeadInPart(r.part, f);
    assert ListOk(r, b.order);
    forall g: nat | b.pfn <= g < b.pfn + Pow2(b.order) ensures g in r.part && r.part[g] == b {
      BlockIsInterval(g, b.pfn, b.order);
    }
  }

  /** The unlocked coalescing test is exact: in every reachable state, a CPU that has passed both
      reads, or is about to unlink, finds its buddy on the list of that order, and a CPU that has
      failed one of them and is inserting has its buddy off that list. */
  lemma CoalescingTestExact(s: Sys, es: seq<Event>, c: nat)
    requires Inv(s) && EnabledRun(s, es) && c < |s.cpus|
    ensures Inv(Reach(s, es)) && c < |Reach(s, es).cpus|
    ensures var r := Reach(s, es); var pc := r.cpus[c];
            pc.ClearFlags? || pc.Unchain? ==> pc.k < MAX_ALLOC_ORDER && Buddy(pc.p, pc.k) in r.mem.lists[pc.k]
    ensures var r := Reach(s, es); var pc := r.cpus[c];
            (pc.PutOrder? || pc.PutFlag? || pc.PutLink?) && pc.k < MAX_ALLOC_ORDER ==>
              Buddy(pc.p, pc.k) !in r.mem.lists[pc.k]
  {
    ReachInv(s, es);
    var r := Reach(s, es);
    assert PcOk(r, c);
    var pc := r.cpus[c];
    if pc.ClearFlags? || pc.Unchain? || pc.PutOrder? || pc.PutFlag? || pc.PutLink? { assert ListOk(r, pc.k); }
  }

  /** Maximal coalescing: in no reachable state are two buddies of one order below the largest
      both on that order's list. */
  lemma NoFreeBuddies(s: Sys, es: seq<Event>, p: nat, k: nat)
    requires Inv(s) && EnabledRun(s, es) && k < MAX_ALLOC_ORDER
    ensures Inv(Reach(s, es)) && !(p in Reach(s, es).mem.lists[k] && Buddy(p, k) in Reach(s, es).mem.lists[k])
  {
    ReachInv(s, es);
    var r := Reach(s, es);
    assert ListOk(r, k);
    assert p in r.mem.lists[k] <==> Has(r.part, p, k, Listed);
    assert Buddy(p, k) in r.mem.lists[k] <==> Has(r.part, Buddy(p, k), k, Listed);
  }

  /** In every reachable state the lists hold exactly the maximal aligned runs of listed frames. */
  lemma ListsCanonical(s: Sys, es: seq<Event>, p: nat, k: nat)
    requires Inv(s) && EnabledRun(s, es) && k <= MAX_ALLOC_ORDER
    ensures Inv(Reach(s, es))
    ensures var r := Reach(s, es);
            p in r.mem.lists[k] <==>
              FreeRun(r.part, p, k) && (k < MAX_ALLOC_ORDER ==> !FreeRun(r.part, Min(p, Buddy(p, k)), k + 1))
  {
    ReachInv(s, es);
    var r := Reach(s, es);
    assert ListOk(r, k);
    assert p in r.mem.lists[k] <==> Has(r.part, p, k, Listed);
    ListedIffMaximalRun(r.part, p, k);
  }

  /** Does this event take a block off list k for a request? */
  predicate Serves(s: Sys, e: Event, k: nat)
    requires Shape(s.mem)
  {
    e.Tick? && e.c < |s.cpus| && s.cpus[e.c].Look? && s.cpus[e.c].k == k && k <= MAX_ALLOC_ORDER && s.mem.lists[k] != []
  }

  ghost function ServedIn(s: Sys, es: seq<Event>, k: nat): nat
    requires Inv(s) && EnabledRun(s, es)
    decreases |es|
  {
    if es == [] then 0
    else EventKeeps(s, es[0]); (if Serves(s, es[0], k) then 1 else 0) + ServedIn(After(s, es[0]), es[1..], k)
  }

  lemma EventServes(s: Sys, e: Event, k: nat)
    requires Inv(s) && Enabled(s, e) && k <= MAX_ALLOC_ORDER
    ensures |After(s, e).served| == ORDERS
    ensures After(s, e).served[k] == s.served[k] + if Serves(s, e, k) then 1 else 0
  {
    if e.Tick? { assert PcOk(s, e.c); }
  }

  /** The drift law under concurrency: after every run free_pages_count[k] exceeds the length of
      list k by the number of allocations that were served from list k. */
  lemma {:induction false} ConcurrentDrift(s: Sys, es: seq<Event>, k: nat)
    requires Inv(s) && EnabledRun(s, es) && k <= MAX_ALLOC_ORDER
    ensures Inv(Reach(s, es))
    ensures Drift(Reach(s, es).mem, k) == Drift(s.mem, k) + ServedIn(s, es, k)
    decreases |es|
  {
    ReachInv(s, es);
    assert ListOk(s, k);
    if es != [] {
      EventKeeps(s, es[0]);
      EventServes(s, es[0], k);
      assert ListOk(After(s, es[0]), k);
      ConcurrentDrift(After(s, es[0]), es[1..], k);
    }
  }

  /** No run on any number of CPUs ever hands out, or even touches as a block, a frame that the
      start-up rules exclude. The clause on reserved entries has the condition of
      ReservedRespectedIff. */
  lemma ExcludedNeverHandedOut(w: World, n: nat, es: seq<Event>, ram: seq<Region>, kernelEnd: nat, apSize: nat, f: nat)
    requires AllFree(w) && SortedMap(ram) && (forall g: nat :: g in w.part <==> Managed(ram, kernelEnd, apSize, g))
    requires (BootedInv(w, n); EnabledRun(Booted(w, n), es) && f in Reach(Booted(w, n), es).part)
    ensures f < NrKpages(ram) && !FixedFrame(apSize, f)
    ensures forall i: nat :: i < |ram| ==> !InGap(ram, i, f)
    ensures forall i: nat :: i < |ram| && ram[i].kind == 1 && Touches(ram[i], f) ==> f * PAGE_SIZE > kernelEnd
    ensures (SomeHiddenReserved(ram) ==> LastPageSetAside(ram, kernelEnd, apSize)) ==>
              forall i: nat :: i < |ram| && ram[i].kind != 1 ==> !Touches(ram[i], f)
  {
    BootedInv(w, n);
    ReachInv(Booted(w, n), es);
    assert Managed(ram, kernelEnd, apSize, f);
    ReservedRespectedIff(ram, kernelEnd, apSize);
    forall i: nat | i < |ram|
      ensures !InGap(ram, i, f) && !(ram[i].kind == 1 && Touches(ram[i], f) && f * PAGE_SIZE <= kernelEnd)
    {
      if InGap(ram, i, f) || (ram[i].kind == 1 && Touches(ram[i], f) && f * PAGE_SIZE <= kernelEnd) {
        GapsAndKernelExcluded(ram, kernelEnd, apSize, i, f);
      }
    }
  }

  /** Whenever all CPUs are idle, the shared memory is in the state between sequential calls, so
      that everything about single calls holds there. */
  lemma QuiescentGood(s: Sys)
    requires Inv(s) && forall c: nat :: c < |s.cpus| ==> s.cpus[c] == Idle
    ensures Good(World(s.mem, s.part, s.last))
  {
    forall f | f in s.part ensures f <= s.last < |s.mem.pages| && !s.part[f].place.Held? { assert PlaceOk(s, f); }
    QuiescentLinked(s);
    forall k: nat, p: nat | k <= MAX_ALLOC_ORDER ensures p in s.mem.lists[k] <==> Has(s.part, p, k, Listed) {
      assert ListOk(s, k);
    }
    forall p | p in s.part && s.part[p].pfn == p && s.part[p].place == Allocated
      ensures s.mem.pages[p].order == s.part[p].order
    {
      assert PlaceOk(s, p);
    }
  }

  lemma QuiescentLinked(s: Sys)
    requires Inv(s) && forall c: nat :: c < |s.cpus| ==> s.cpus[c] == Idle
    ensures Linked(s.mem)
  {
    hide Inv, Distinct;
    assert Shape(s.mem) by { QuiescentShape(s); }
    var m := s.mem;
    forall k: nat | k <= MAX_ALLOC_ORDER ensures Distinct(m.lists[k]) { QuiescentList(s, k); }
    forall k: nat, p: nat {:trigger p in m.lists[k]} | k <= MAX_ALLOC_ORDER && p in m.lists[k]
      ensures p < |m.pages| && m.pages[p].flags.buddy && m.pages[p].order == k
    {
      QuiescentList(s, k);
    }
    forall p: nat | p < |m.pages| && m.pages[p].flags.buddy
      ensures m.pages[p].order <= MAX_ALLOC_ORDER && p in m.lists[m.pages[p].order]
    {
      QuiescentFlag(s, p);
    }
  }

  lemma QuiescentShape(s: Sys)
    requires Inv(s)
    ensures Shape(s.mem)
  {
  }

  lemma QuiescentList(s: Sys, k: nat)
    requires Inv(s) && k <= MAX_ALLOC_ORDER && forall c: nat :: c < |s.cpus| ==> s.cpus[c] == Idle
    ensures Distinct(s.mem.lists[k])
    ensures forall p: nat :: p in s.mem.lists[k] ==>
      p < |s.mem.pages| && s.mem.pages[p].flags.buddy && s.mem.pages[p].order == k
  {
    hide PcOk, FlagOk;
    assert ListOk(s, k) && LockOk(s, k);
    forall p: nat | p in s.mem.lists[k]
      ensures p < |s.mem.pages| && s.mem.pages[p].flags.buddy && s.mem.pages[p].order == k
    {
      assert PlaceOk(s, p);
    }
  }

  lemma QuiescentFlag(s: Sys, p: nat)
    requires Inv(s) && p < |s.mem.pages| && s.mem.pages[p].flags.buddy
    requires forall c: nat :: c < |s.cpus| ==> s.cpus[c] == Idle
    ensures s.mem.pages[p].order <= MAX_ALLOC_ORDER && p in s.mem.lists[s.mem.pages[p].order]
  {
    hide PcOk;
    assert FlagOk(s, p) && PlaceOk(s, p) && ListOk(s, s.mem.pages[p].order);
  }

  /** So the canonical form and the exactness of page_alloc hold in every state that a concurrent
      run reaches with all CPUs idle. */
  lemma QuiescentAllocExact(s: Sys, es: seq<Event>, req: nat)
    requires Inv(s) && EnabledRun(s, es)
    requires var r := Reach(s, es); forall c: nat :: c < |r.cpus| ==> r.cpus[c] == Idle
    ensures var r := Reach(s, es); var w := World(r.mem, r.part, r.last);
      && w.part.Keys == s.part.Keys && Good(w)
      && (Alloc(w, req).0.None? <==> req > MAX_ALLOC_ORDER || !SomeFreeRun(w.part, req))
  {
    ReachInv(s, es);
    var r := Reach(s, es);
    QuiescentGood(r);
    AllocExact(World(r.mem, r.part, r.last), req);
  }
}
