/** The allocator's locks cannot deadlock, and every call of it ends after a bounded number of steps
    of its own besides spinning. */
module Progress {
  import opened Partition
  import opened BuddyMem
  import opened BuddyConcurrent
  import opened ConcurrentTheorems

  /** More than the steps of page_add_to_slot from any order on. */
  const INSERT: nat := 6 * MAX_ALLOC_ORDER + 8

  /** A bound on the steps, other than spinning, that are left from a return or a place on: of
      page_add_to_slot at order k, and of splitting a block d orders down. */
  function AtOrder(k: nat): (r: nat)
    ensures r >= 6
  {
    if k <= MAX_ALLOC_ORDER then 6 * (MAX_ALLOC_ORDER - k) + 6 else 6
  }

  function Splits(d: nat): nat { d * (INSERT + 1) + 1 }

  function RetWork(ret: Ret): nat {
    match ret
    case Caller => 0
    case Splitting(base, order, req) => if req <= order then Splits(order - req) else 1
  }

  function Work(pc: Pc): nat {
    match pc
    case Idle => 0
    case Enter(p, ret) => INSERT + RetWork(ret)
    case WantLock(p, k, ret) => AtOrder(k) + 1 + RetWork(ret)
    case ReadOrder(p, k, ret) => AtOrder(k) + RetWork(ret)
    case ReadFlag(p, k, ret) => AtOrder(k) - 1 + RetWork(ret)
    case ClearFlags(p, k, ret) => AtOrder(k) - 2 + RetWork(ret)
    case Unchain(p, k, ret) => AtOrder(k) - 3 + RetWork(ret)
    case DropMerged(p, k, ret) => AtOrder(k) - 4 + RetWork(ret)
    case PutOrder(p, k, ret) => 4 + RetWork(ret)
    case PutFlag(p, k, ret) => 3 + RetWork(ret)
    case PutLink(p, k, ret) => 2 + RetWork(ret)
    case DropPut(k, ret) => 1 + RetWork(ret)
    case Seek(req, k) => (if k <= ORDERS then 3 * (ORDERS - k) else 0) + 5 + Splits(ORDERS)
    case Look(req, k) => (if k <= ORDERS then 3 * (ORDERS - k) else 0) + 4 + Splits(ORDERS)
    case DropEmpty(req, k) => (if k <= ORDERS then 3 * (ORDERS - k) else 0) + 3 + Splits(ORDERS)
    case TakeFlag(p, k, req) => 3 + Splits(ORDERS)
    case TakeOrder(p, k, req) => 2 + Splits(ORDERS)
    case DropTaken(p, k, req) => 1 + Splits(ORDERS)
    case Halve(p, k, req) => if req <= k then Splits(k - req) else 1
  }

  /** CPU c spins on a lock that is taken. */
  predicate Spins(s: Sys, c: nat)
    requires c < |s.cpus|
  {
    match s.cpus[c]
    case WantLock(_, k, _) => k < |s.locks| && s.locks[k].Some?
    case Seek(_, k) => k <= MAX_ALLOC_ORDER && k < |s.locks| && s.locks[k].Some?
    case _ => false
  }

  /** A step of a CPU inside the allocator spins and changes nothing, or leaves it less to do. */
  lemma StepWorks(s: Sys, c: nat)
    requires Inv(s) && c < |s.cpus| && !s.cpus[c].Idle?
    ensures if Spins(s, c) then Next(s, c) == s else Advances(s, Next(s, c), c)
  {
    var pc := s.cpus[c];
    if pc.Halve? { HalveWorks(s, c); }
    else if pc.Seek? || pc.Look? || pc.DropEmpty? || pc.TakeFlag? || pc.TakeOrder? || pc.DropTaken? { TakeWorks(s, c); }
    else if pc.ClearFlags? || pc.Unchain? || pc.PutOrder? || pc.PutFlag? || pc.PutLink? { WriteWorks(s, c); }
    else { ReadWorks(s, c); }
  }

  predicate Advances(s: Sys, s': Sys, c: nat)
    requires c < |s.cpus|
  {
    |s'.cpus| == |s.cpus| && s'.cpus == s.cpus[c := s'.cpus[c]] && Work(s'.cpus[c]) < Work(s.cpus[c])
  }

  lemma ReadWorks(s: Sys, c: nat)
    requires Inv(s) && c < |s.cpus| && var pc := s.cpus[c];
      pc.Enter? || pc.WantLock? || pc.ReadOrder? || pc.ReadFlag? || pc.DropMerged? || pc.DropPut?
    ensures if Spins(s, c) then Next(s, c) == s else Advances(s, Next(s, c), c)
  {
    hide PlaceOk, FlagOk, ListOk, LockOk, Whole, Coalesced, Splits;
    assert PcOk(s, c);
  }

  lemma WriteWorks(s: Sys, c: nat)
    requires Inv(s) && c < |s.cpus| && var pc := s.cpus[c];
      pc.ClearFlags? || pc.Unchain? || pc.PutOrder? || pc.PutFlag? || pc.PutLink?
    ensures !Spins(s, c) && Advances(s, Next(s, c), c)
  {
    hide PlaceOk, FlagOk, ListOk, LockOk, Whole, Coalesced, Splits;
    assert PcOk(s, c);
  }

  lemma TakeWorks(s: Sys, c: nat)
    requires Inv(s) && c < |s.cpus| && var pc := s.cpus[c];
      pc.Seek? || pc.Look? || pc.DropEmpty? || pc.TakeFlag? || pc.TakeOrder? || pc.DropTaken?
    ensures if Spins(s, c) then Next(s, c) == s else Advances(s, Next(s, c), c)
  {
    hide PlaceOk, FlagOk, ListOk, LockOk, Whole, Coalesced, Splits;
    assert PcOk(s, c);
    if s.cpus[c].DropTaken? { SplitsBound(s.cpus[c].k, s.cpus[c].req); }
  }

  lemma HalveWorks(s: Sys, c: nat)
    requires Inv(s) && c < |s.cpus| && s.cpus[c].Halve?
    ensures !Spins(s, c) && Advances(s, Next(s, c), c)
  {
    hide PlaceOk, FlagOk, ListOk, LockOk, Coalesced;
    assert PcOk(s, c);
    if s.cpus[c].req < s.cpus[c].k { SplitsGrow(s.cpus[c].k, s.cpus[c].req); }
  }

  lemma SplitsGrow(k: nat, req: nat)
    requires req < k
    ensures INSERT + Splits(k - 1 - req) < Splits(k - req)
  {
  }

  lemma SplitsBound(k: nat, req: nat)
    requires req <= k <= MAX_ALLOC_ORDER
    ensures Splits(k - req) <= Splits(ORDERS)
  {
  }

  /** No deadlock: while some CPU is inside the allocator, one of them can go on. */
  lemma NoDeadlock(s: Sys, c: nat) returns (d: nat)
    requires Inv(s) && c < |s.cpus| && !s.cpus[c].Idle?
    ensures d < |s.cpus| && !s.cpus[d].Idle? && !Spins(s, d)
  {
    hide PlaceOk, FlagOk, ListOk;
    d := c;
    if Spins(s, c) {
      assert PcOk(s, c);
      var k := s.cpus[c].k;
      assert LockOk(s, k);
      d := s.locks[k].value;
    }
  }

  function Total(cpus: seq<Pc>): nat {
    if cpus == [] then 0 else Work(cpus[0]) + Total(cpus[1..])
  }

  lemma {:induction false} TotalUpdate(cpus: seq<Pc>, c: nat, pc: Pc)
    requires c < |cpus|
    ensures Total(cpus[c := pc]) + Work(cpus[c]) == Total(cpus) + Work(pc)
  {
    hide Work;
    if c == 0 {
      assert cpus[c := pc][1..] == cpus[1..];
    } else {
      TotalUpdate(cpus[1..], c - 1, pc);
      assert cpus[c := pc][1..] == cpus[1..][c - 1 := pc];
    }
  }

  /** What a call adds to what is to do. */
  function Cost(e: Event): nat {
    match e
    case Tick(_) => 0
    case CallFree(_, p) => Work(Pc.Enter(p, Caller))
    case CallAlloc(_, req) => Work(Seek(req, req))
  }

  /** The event is a step of a CPU inside the allocator, and not one of spinning. */
  predicate Moves(s: Sys, e: Event) {
    e.Tick? && e.c < |s.cpus| && !s.cpus[e.c].Idle? && !Spins(s, e.c)
  }

  lemma EventWorks(s: Sys, e: Event)
    requires Inv(s) && Enabled(s, e)
    ensures Total(After(s, e).cpus) + (if Moves(s, e) then 1 else 0) <= Total(s.cpus) + Cost(e)
  {
    hide Inv, Total, Next, Work;
    if e.Tick? && s.cpus[e.c].Idle? {
      IdleTick(s, e.c);
    } else {
      if e.Tick? { StepWorks(s, e.c); }
      CallSets(s, e);
      TotalUpdate(s.cpus, e.c, After(s, e).cpus[e.c]);
      IdleWork();
      if e.Tick? && Spins(s, e.c) { assert After(s, e).cpus == s.cpus; }
    }
  }

  lemma IdleTick(s: Sys, c: nat)
    requires Inv(s) && c < |s.cpus| && s.cpus[c].Idle?
    ensures Next(s, c) == s
  {
  }

  lemma IdleWork()
    ensures Work(Idle) == 0
  {
  }

  /** An event changes the place of its CPU and of no other. */
  lemma CallSets(s: Sys, e: Event)
    requires Inv(s) && Enabled(s, e) && !(e.Tick? && s.cpus[e.c].Idle?)
    ensures |After(s, e).cpus| == |s.cpus| && After(s, e).cpus == s.cpus[e.c := After(s, e).cpus[e.c]]
    ensures !e.Tick? ==> Work(s.cpus[e.c]) == 0 && Work(After(s, e).cpus[e.c]) == Cost(e)
  {
    hide Inv;
    if e.Tick? { StepWorks(s, e.c); }
  }

  ghost function MovesIn(s: Sys, es: seq<Event>): nat
    requires Inv(s) && EnabledRun(s, es)
    decreases |es|
  {
    if es == [] then 0 else EventKeeps(s, es[0]); (if Moves(s, es[0]) then 1 else 0) + MovesIn(After(s, es[0]), es[1..])
  }

  function Costs(es: seq<Event>): nat {
    if es == [] then 0 else Cost(es[0]) + Costs(es[1..])
  }

  /** Bounded work: over every run the steps other than spinning, with what is left to do at the end,
      are no more than what was to do at the start and what the calls of the run add. */
  lemma {:induction false} MovesBounded(s: Sys, es: seq<Event>)
    requires Inv(s) && EnabledRun(s, es)
    ensures MovesIn(s, es) + Total(Reach(s, es).cpus) <= Total(s.cpus) + Costs(es)
    decreases |es|
  {
    hide Inv, After, Enabled, Total, Cost, Moves;
    if es != [] {
      EventKeeps(s, es[0]);
      EventWorks(s, es[0]);
      MovesBounded(After(s, es[0]), es[1..]);
    }
  }

  /** From every state the CPUs inside the allocator can all finish, without any new call. */
  lemma {:induction false} CanFinish(s: Sys) returns (es: seq<Event>)
    requires Inv(s)
    ensures EnabledRun(s, es) && (forall i :: 0 <= i < |es| ==> es[i].Tick?)
    ensures |Reach(s, es).cpus| == |s.cpus| && forall c: nat :: c < |s.cpus| ==> Reach(s, es).cpus[c] == Idle
    decreases Total(s.cpus)
  {
    hide Inv, Total, Work, Next;
    if c: nat :| c < |s.cpus| && !s.cpus[c].Idle? {
      var d := NoDeadlock(s, c);
      EventWorks(s, Tick(d));
      EventKeeps(s, Tick(d));
      var rest := CanFinish(After(s, Tick(d)));
      es := [Tick(d)] + rest;
      assert es[1..] == rest && es[0] == Tick(d) && Reach(s, es) == Reach(After(s, Tick(d)), rest);
    } else {
      es := [];
    }
  }
}
