/** What a whole call of page_alloc or page_free comes to on the step machine, with any steps of
    other CPUs between its own. */
module AllocCalls {
  import opened Dyadic
  import opened Partition
  import opened BuddyMem
  import opened BuddyConcurrent
  import opened ConcurrentTheorems

  /** The states of a run, one more than its events. */
  ghost predicate IsRun(ss: seq<Sys>, es: seq<Event>) {
    |ss| == |es| + 1 && (forall i :: 0 <= i < |ss| ==> Inv(ss[i]))
    && forall i :: 0 <= i < |es| ==> Enabled(ss[i], es[i]) && ss[i + 1] == After(ss[i], es[i])
  }

  ghost function States(s: Sys, es: seq<Event>): (ss: seq<Sys>)
    requires Inv(s) && EnabledRun(s, es)
    ensures |ss| == |es| + 1 && ss[0] == s
    decreases |es|
  {
    if es == [] then [s] else EventKeeps(s, es[0]); [s] + States(After(s, es[0]), es[1..])
  }

  /** Every run of the machine has such states, which end where the run does. */
  lemma {:induction false} StatesRun(s: Sys, es: seq<Event>)
    requires Inv(s) && EnabledRun(s, es)
    ensures IsRun(States(s, es), es) && States(s, es)[|es|] == Reach(s, es)
    decreases |es|
  {
    hide Inv, Enabled, After;
    if es != [] {
      EventKeeps(s, es[0]);
      StatesRun(After(s, es[0]), es[1..]);
      var ss, rest := States(s, es), States(After(s, es[0]), es[1..]);
      forall i | 0 <= i < |es| ensures Enabled(ss[i], es[i]) && ss[i + 1] == After(ss[i], es[i]) {
        if i > 0 { assert ss[i] == rest[i - 1] && es[i] == es[1..][i - 1] && ss[i + 1] == rest[i]; }
      }
      forall i | 0 <= i < |ss| ensures Inv(ss[i]) {
        if i > 0 { assert ss[i] == rest[i - 1]; }
      }
    }
  }

  /** The run is one call of CPU c, from the event that makes it to the moment the CPU is idle again. */
  ghost predicate IsCall(ss: seq<Sys>, es: seq<Event>, call: Event) {
    && IsRun(ss, es) && es != [] && es[0] == call && call.c < |ss[|es|].cpus| && ss[|es|].cpus[call.c] == Idle
    && forall i :: 0 < i < |es| ==> call.c < |ss[i].cpus| && ss[i].cpus[call.c] != Idle
  }

  /** The step makes frame f an allocated one. */
  predicate HandsOut(s: Sys, s': Sys, f: nat) {
    f in s.part && f in s'.part && s.part[f].place != Allocated && s'.part[f].place == Allocated
  }

  /** At one of the first n states CPU c had the lock of order k and list k was empty. */
  predicate SawEmpty(ss: seq<Sys>, n: nat, c: nat, k: nat)
    requires n <= |ss|
  {
    exists i {:trigger Locked(ss[i], c, k)} ::
      0 <= i < n && Locked(ss[i], c, k) && k < |ss[i].mem.lists| && ss[i].mem.lists[k] == []
  }

  /** All orders from lo on and below hi. */
  ghost predicate SawAll(ss: seq<Sys>, n: nat, c: nat, lo: nat, hi: nat)
    requires n <= |ss|
  {
    forall j: nat {:trigger SawEmpty(ss, n, c, j)} :: lo <= j < hi && j <= MAX_ALLOC_ORDER ==> SawEmpty(ss, n, c, j)
  }

  /** The step takes the run of 2^k frames at p, all of it listed, into the hands of CPU c. */
  ghost predicate TakesRun(s: Sys, s': Sys, c: nat, p: nat, k: nat) {
    Aligned(p, k) && forall f: nat :: p <= f < p + Pow2(k) ==>
      f in s.part && f in s'.part && s.part[f].place == Listed && s'.part[f].place == Held(c)
  }

  /** One of the first n events is such a step of CPU c. */
  ghost predicate Found(ss: seq<Sys>, es: seq<Event>, n: nat, c: nat, p: nat, k: nat)
    requires n <= |es| < |ss|
  {
    exists i {:trigger TakesRun(ss[i], ss[i + 1], c, p, k)} ::
      0 <= i < n && es[i] == Tick(c) && TakesRun(ss[i], ss[i + 1], c, p, k)
  }

  /** The events of CPU c from the first on have handed out nothing. */
  ghost predicate HandedNothing(ss: seq<Sys>, es: seq<Event>, n: nat, c: nat)
    requires n <= |es| < |ss|
  {
    forall i, f: nat {:trigger HandsOut(ss[i], ss[i + 1], f)} ::
      0 <= i < n && es[i].c == c ==> !HandsOut(ss[i], ss[i + 1], f)
  }

  /** What CPU c knows of its call for order req after n events. */
  ghost predicate RetKnown(ss: seq<Sys>, es: seq<Event>, n: nat, c: nat, req: nat, ret: Ret)
    requires n <= |es| < |ss|
  {
    ret.Splitting? && ret.req == req && Found(ss, es, n, c, ret.base, req)
  }

  ghost predicate Known(ss: seq<Sys>, es: seq<Event>, n: nat, c: nat, req: nat)
    requires n <= |es| < |ss| && c < |ss[n].cpus|
  {
    match ss[n].cpus[c]
    case Idle => false
    case Seek(r, k) => r == req && SawAll(ss, n, c, req, k)
    case Look(r, k) => r == req && SawAll(ss, n, c, req, k)
    case DropEmpty(r, k) => r == req && SawAll(ss, n, c, req, k + 1)
    case TakeFlag(p, k, r) => r == req && Found(ss, es, n, c, p, req)
    case TakeOrder(p, k, r) => r == req && Found(ss, es, n, c, p, req)
    case DropTaken(p, k, r) => r == req && Found(ss, es, n, c, p, req)
    case Halve(p, k, r) => r == req && Found(ss, es, n, c, p, req)
    case Enter(_, ret) => RetKnown(ss, es, n, c, req, ret)
    case WantLock(_, _, ret) => RetKnown(ss, es, n, c, req, ret)
    case ReadOrder(_, _, ret) => RetKnown(ss, es, n, c, req, ret)
    case ReadFlag(_, _, ret) => RetKnown(ss, es, n, c, req, ret)
    case ClearFlags(_, _, ret) => RetKnown(ss, es, n, c, req, ret)
    case Unchain(_, _, ret) => RetKnown(ss, es, n, c, req, ret)
    case DropMerged(_, _, ret) => RetKnown(ss, es, n, c, req, ret)
    case PutOrder(_, _, ret) => RetKnown(ss, es, n, c, req, ret)
    case PutFlag(_, _, ret) => RetKnown(ss, es, n, c, req, ret)
    case PutLink(_, _, ret) => RetKnown(ss, es, n, c, req, ret)
    case DropPut(_, ret) => RetKnown(ss, es, n, c, req, ret)
  }

  /** The last step of a call that ends with a block. */
  predicate LastHalve(s: Sys, c: nat)
    requires c < |s.cpus|
  {
    s.cpus[c].Halve? && s.cpus[c].k == s.cpus[c].req
  }

  /** No step but that one makes a frame allocated, and it makes the frames of its block so. */
  lemma StepHandsOut(s: Sys, c: nat, f: nat)
    requires Inv(s) && c < |s.cpus|
    ensures HandsOut(s, Next(s, c), f) <==> LastHalve(s, c) && s.cpus[c].p <= f < s.cpus[c].p + Pow2(s.cpus[c].k)
    ensures LastHalve(s, c) ==>
      Has(Next(s, c).part, s.cpus[c].p, s.cpus[c].k, Allocated) && Aligned(s.cpus[c].p, s.cpus[c].k)
        && Next(s, c).cpus[c] == Idle
  {
    StepKeeps(s, c);
    hide PlaceOk, FlagOk, ListOk, LockOk, PcOk;
    if LastHalve(s, c) {
      LastHalveHands(s, c, f);
    } else if s.cpus[c].Halve? {
      HalveHandsNothing(s, c, f);
    } else {
      OthersHandNothing(s, c, f);
    }
  }

  lemma LastHalveHands(s: Sys, c: nat, f: nat)
    requires Inv(s) && c < |s.cpus| && LastHalve(s, c)
    ensures var p, k := s.cpus[c].p, s.cpus[c].k;
      && (HandsOut(s, Next(s, c), f) <==> p <= f < p + Pow2(k))
      && Has(Next(s, c).part, p, k, Allocated) && Aligned(p, k) && Next(s, c).cpus[c] == Idle
  {
    hide PlaceOk, FlagOk, ListOk, LockOk;
    assert PcOk(s, c);
    var p, k := s.cpus[c].p, s.cpus[c].k;
    assert FitsAt(s.part, p);
    BlockIsInterval(f, p, k);
    MoveFrames(s.part, p, k, Allocated);
  }

  lemma HalveHandsNothing(s: Sys, c: nat, f: nat)
    requires Inv(s) && c < |s.cpus| && s.cpus[c].Halve? && !LastHalve(s, c)
    ensures !HandsOut(s, Next(s, c), f)
  {
    hide PlaceOk, FlagOk, ListOk, LockOk, Whole, Coalesced;
    assert PcOk(s, c);
  }

  lemma OthersHandNothing(s: Sys, c: nat, f: nat)
    requires Inv(s) && c < |s.cpus| && !s.cpus[c].Halve?
    ensures !HandsOut(s, Next(s, c), f)
  {
    hide PlaceOk, FlagOk, ListOk, LockOk, Whole, Coalesced, InBlock;
    assert PcOk(s, c);
  }

  lemma ListedHead(s: Sys, k: nat, p: nat)
    requires Inv(s) && k < |s.mem.lists| && p in s.mem.lists[k]
    ensures Has(s.part, p, k, Listed) && FitsAt(s.part, p)
  {
    hide PlaceOk, FlagOk, LockOk, PcOk;
    assert ListOk(s, k);
  }

  /** Looking at an order's list under its lock either finds it empty, or takes a listed run of the
      frames asked for. */
  lemma LookTakes(s: Sys, c: nat)
    requires Inv(s) && c < |s.cpus| && s.cpus[c].Look?
    ensures var Look(req, k) := s.cpus[c]; var pc := Next(s, c).cpus[c];
      && k <= MAX_ALLOC_ORDER && k < |s.mem.lists| && req <= k && Locked(s, c, k)
      && if s.mem.lists[k] == [] then pc == DropEmpty(req, k)
         else pc.TakeFlag? && pc.k == k && pc.req == req && TakesRun(s, Next(s, c), c, pc.p, req)
  {
    hide PlaceOk, FlagOk, LockOk, ListOk;
    assert PcOk(s, c);
    var Look(req, k) := s.cpus[c];
    var l := s.mem.lists[k];
    if l != [] {
      var p := l[|l| - 1];
      ListedHead(s, k, p);
      AlignedDown(p, req, k);
      PowMono(req, k);
      forall f: nat | p <= f < p + Pow2(req) ensures InBlock(f, p, k) { BlockIsInterval(f, p, k); }
    }
  }

  /** Where a step leads, for a CPU inside page_alloc. */
  lemma StepLeads(s: Sys, c: nat)
    requires Inv(s) && c < |s.cpus| && !s.cpus[c].Look?
    ensures var pc, next := s.cpus[c], Next(s, c).cpus[c];
      match pc {
        case Idle => next == Idle
        case Seek(r, k) => if k > MAX_ALLOC_ORDER then next == Idle else next == pc || next == Look(r, k)
        case Look(_, _) => true
        case DropEmpty(r, k) => k <= MAX_ALLOC_ORDER && next == Seek(r, k + 1)
        case TakeFlag(p, k, r) => next == TakeOrder(p, k, r)
        case TakeOrder(p, k, r) => next == DropTaken(p, k, r)
        case DropTaken(p, k, r) => next == Halve(p, k, r)
        case Halve(p, k, r) =>
          if k == r then next == Idle else next.Enter? && next.ret.Splitting? && next.ret.base == p && next.ret.req == r
        case DropPut(_, ret) => next == Return(ret)
        case Enter(_, ret) => next == Return(ret) || (next.WantLock? && next.ret == ret)
        case PutLink(_, _, ret) => next.DropPut? && next.ret == ret
        case _ => next == pc
          || (!next.Idle? && !next.Seek? && !next.Look? && !next.DropEmpty? && !next.TakeFlag? && !next.TakeOrder?
          && !next.DropTaken? && !next.Halve? && next.ret == pc.ret)
      }
  {
    hide PlaceOk, FlagOk, ListOk, LockOk, Whole, Coalesced;
    assert PcOk(s, c);
  }

  /** More empty lists seen, and more taken, with one more event. */
  lemma SeenStays(ss: seq<Sys>, n: nat, c: nat, k: nat)
    requires n < |ss| && SawEmpty(ss, n, c, k)
    ensures SawEmpty(ss, n + 1, c, k)
  {
  }

  lemma FoundStays(ss: seq<Sys>, es: seq<Event>, n: nat, c: nat, p: nat, k: nat)
    requires n < |es| < |ss| && Found(ss, es, n, c, p, k)
    ensures Found(ss, es, n + 1, c, p, k)
  {
  }

  lemma SawAllStays(ss: seq<Sys>, n: nat, c: nat, lo: nat, hi: nat)
    requires n < |ss| && SawAll(ss, n, c, lo, hi)
    ensures SawAll(ss, n + 1, c, lo, hi)
  {
    hide SawEmpty;
    var m := n + 1;
    forall j: nat | lo <= j < hi && j <= MAX_ALLOC_ORDER ensures SawEmpty(ss, m, c, j) { SeenStays(ss, n, c, j); }
  }

  /** What is known of a place of CPU c survives one more event. */
  lemma KnownStays(ss: seq<Sys>, es: seq<Event>, n: nat, c: nat, req: nat)
    requires n < |es| < |ss| && c < |ss[n].cpus| && c < |ss[n + 1].cpus| && Known(ss, es, n, c, req)
    requires ss[n + 1].cpus[c] == ss[n].cpus[c]
    ensures Known(ss, es, n + 1, c, req)
  {
    hide SawAll, Found;
    match ss[n].cpus[c]
    case Idle =>
    case Seek(r, k) => SawAllStays(ss, n, c, req, k);
    case Look(r, k) => SawAllStays(ss, n, c, req, k);
    case DropEmpty(r, k) => SawAllStays(ss, n, c, req, k + 1);
    case _ =>
      var p := Base(ss[n].cpus[c]);
      FoundStays(ss, es, n, c, p, req);
  }

  /** The block in hand for the request. */
  function Base(pc: Pc): nat {
    match pc
    case Idle => 0
    case Seek(_, _) => 0
    case Look(_, _) => 0
    case DropEmpty(_, _) => 0
    case TakeFlag(p, _, _) => p
    case TakeOrder(p, _, _) => p
    case DropTaken(p, _, _) => p
    case Halve(p, _, _) => p
    case DropPut(_, ret) => if ret.Splitting? then ret.base else 0
    case _ => if pc.ret.Splitting? then pc.ret.base else 0
  }

  /** Events of other CPUs leave the place of CPU c alone, and an idle CPU is idle after its tick. */
  lemma OtherEvent(s: Sys, e: Event, c: nat)
    requires Inv(s) && Enabled(s, e) && c < |s.cpus| && e.c != c
    ensures |After(s, e).cpus| == |s.cpus| && After(s, e).cpus[c] == s.cpus[c]
  {
    hide Inv;
    EventKeeps(s, e);
    if e.Tick? { TickGuarantee(s, e.c); }
  }

  lemma TickGuarantee(s: Sys, c: nat)
    requires Inv(s) && c < |s.cpus|
    ensures |Next(s, c).cpus| == |s.cpus| && forall d: nat :: d < |s.cpus| && d != c ==> Next(s, c).cpus[d] == s.cpus[d]
  {
    hide Core, PcOk;
    StepKeeps(s, c);
  }

  /** One step of CPU c inside its call of page_alloc: it knows the same of the next place, unless the
      call ends, with its block or with every list seen empty. */
  lemma OwnStep(ss: seq<Sys>, es: seq<Event>, n: nat, c: nat, req: nat)
    requires IsRun(ss, es) && n < |es| && es[n] == Tick(c) && c < |ss[n].cpus| && c < |ss[n + 1].cpus|
    requires Known(ss, es, n, c, req)
    ensures ss[n + 1].cpus[c] != Idle ==> Known(ss, es, n + 1, c, req)
    ensures ss[n + 1].cpus[c] == Idle ==> LastHalve(ss[n], c) || SawAll(ss, n + 1, c, req, ORDERS)
  {
    hide SawAll, Found, Inv, Next, TakesRun;
    assert ss[n + 1] == After(ss[n], es[n]) == Next(ss[n], c);
    match ss[n].cpus[c]
    case Idle =>
    case Look(r, k) =>
      LookTakes(ss[n], c);
      SawAllStays(ss, n, c, req, k);
      if ss[n].mem.lists[k] == [] { SeesEmpty(ss, n, c, req, k); }
      else { Finds(ss, es, n, c, ss[n + 1].cpus[c].p, req); }
    case Seek(r, k) =>
      StepLeads(ss[n], c);
      SawAllStays(ss, n, c, req, k);
      if k > MAX_ALLOC_ORDER { SawAllUpTo(ss, n + 1, c, req, k); }
    case DropEmpty(r, k) =>
      StepLeads(ss[n], c);
      SawAllStays(ss, n, c, req, k + 1);
    case _ =>
      StepLeads(ss[n], c);
      FoundStays(ss, es, n, c, Base(ss[n].cpus[c]), req);
  }

  lemma SawAllUpTo(ss: seq<Sys>, n: nat, c: nat, lo: nat, hi: nat)
    requires n <= |ss| && SawAll(ss, n, c, lo, hi) && hi > MAX_ALLOC_ORDER
    ensures SawAll(ss, n, c, lo, ORDERS)
  {
  }

  lemma SeesEmpty(ss: seq<Sys>, n: nat, c: nat, lo: nat, k: nat)
    requires n < |ss| && Locked(ss[n], c, k) && k < |ss[n].mem.lists| && ss[n].mem.lists[k] == []
    requires SawAll(ss, n + 1, c, lo, k)
    ensures SawAll(ss, n + 1, c, lo, k + 1)
  {
    assert SawEmpty(ss, n + 1, c, k);
  }

  lemma Finds(ss: seq<Sys>, es: seq<Event>, n: nat, c: nat, p: nat, k: nat)
    requires n < |es| < |ss| && es[n] == Tick(c) && TakesRun(ss[n], ss[n + 1], c, p, k)
    ensures Found(ss, es, n + 1, c, p, k)
  {
  }

  /** How often the steps of CPU c among the first n have changed the reference count of frame x. */
  function Counted(ss: seq<Sys>, es: seq<Event>, n: nat, c: nat, x: nat): nat
    requires n <= |es| < |ss|
  {
    if n == 0 then 0
    else Counted(ss, es, n - 1, c, x) + if es[n - 1].c == c && RefChanges(ss[n - 1], ss[n], x) then 1 else 0
  }

  predicate RefChanges(s: Sys, s': Sys, x: nat) {
    x < |s.mem.pages| && x < |s'.mem.pages| && s'.mem.pages[x].refcount != s.mem.pages[x].refcount
  }

  /** The block whose reference CPU c has counted for its request. */
  function CountedFor(pc: Pc): Option<nat> {
    match pc
    case DropTaken(p, _, _) => Some(p)
    case Halve(p, _, _) => Some(p)
    case Idle => None
    case Seek(_, _) => None
    case Look(_, _) => None
    case DropEmpty(_, _) => None
    case TakeFlag(_, _, _) => None
    case TakeOrder(_, _, _) => None
    case DropPut(_, ret) => if ret.Splitting? then Some(ret.base) else None
    case _ => if pc.ret.Splitting? then Some(pc.ret.base) else None
  }

  /** A step counts a reference when it records the order of the block taken, one on that block, and
      marks a frame as handed out when it takes the flag of the block it has taken. */
  lemma StepRefs(s: Sys, c: nat, x: nat)
    requires Inv(s) && c < |s.cpus| && x < |s.mem.pages|
    ensures |Next(s, c).mem.pages| == |s.mem.pages|
    ensures var pc, g, g' := s.cpus[c], s.mem.pages[x], Next(s, c).mem.pages[x];
      && g'.refcount == (if pc.TakeOrder? && pc.p == x then (g.refcount + 1) % 0x1_0000_0000 else g.refcount)
      && g'.flags.handed == (g.flags.handed || (pc.TakeFlag? && pc.p == x))
  {
    hide PlaceOk, FlagOk, ListOk, LockOk, Whole, Coalesced, InBlock, Aligned;
    var pc := s.cpus[c];
    if pc.ClearFlags? { ClearRefs(s, c, x); }
    else if pc.Unchain? || pc.PutLink? || pc.Look? { ListRefs(s, c, x); }
    else if pc.Halve? { HalveRefs(s, c, x); }
    else if pc.PutOrder? || pc.PutFlag? || pc.TakeFlag? || pc.TakeOrder? { WriteRefs(s, c, x); }
    else { MoveRefs(s, c, x); }
  }

  predicate SameRefs(s: Sys, s': Sys, x: nat)
    requires x < |s.mem.pages|
  {
    && |s'.mem.pages| == |s.mem.pages| && s'.mem.pages[x].refcount == s.mem.pages[x].refcount
    && s'.mem.pages[x].flags.handed == s.mem.pages[x].flags.handed
  }

  lemma ClearRefs(s: Sys, c: nat, x: nat)
    requires Inv(s) && c < |s.cpus| && x < |s.mem.pages| && s.cpus[c].ClearFlags?
    ensures SameRefs(s, Next(s, c), x)
  {
    hide PlaceOk, FlagOk, ListOk, LockOk, Whole, Coalesced;
    assert PcOk(s, c);
  }

  lemma ListRefs(s: Sys, c: nat, x: nat)
    requires Inv(s) && c < |s.cpus| && x < |s.mem.pages|
    requires s.cpus[c].Unchain? || s.cpus[c].PutLink? || s.cpus[c].Look?
    ensures SameRefs(s, Next(s, c), x)
  {
    hide PlaceOk, FlagOk, ListOk, LockOk, Whole, Coalesced;
    assert PcOk(s, c);
  }

  lemma HalveRefs(s: Sys, c: nat, x: nat)
    requires Inv(s) && c < |s.cpus| && x < |s.mem.pages| && s.cpus[c].Halve?
    ensures SameRefs(s, Next(s, c), x)
  {
    hide PlaceOk, FlagOk, ListOk, LockOk, Coalesced;
    assert PcOk(s, c);
  }

  lemma WriteRefs(s: Sys, c: nat, x: nat)
    requires Inv(s) && c < |s.cpus| && x < |s.mem.pages|
    requires var pc := s.cpus[c]; pc.PutOrder? || pc.PutFlag? || pc.TakeFlag? || pc.TakeOrder?
    ensures |Next(s, c).mem.pages| == |s.mem.pages|
    ensures var pc, g, g' := s.cpus[c], s.mem.pages[x], Next(s, c).mem.pages[x];
      && g'.refcount == (if pc.TakeOrder? && pc.p == x then (g.refcount + 1) % 0x1_0000_0000 else g.refcount)
      && g'.flags.handed == (g.flags.handed || (pc.TakeFlag? && pc.p == x))
  {
    hide PlaceOk, FlagOk, ListOk, LockOk, Whole, Coalesced;
    assert PcOk(s, c);
  }

  lemma MoveRefs(s: Sys, c: nat, x: nat)
    requires Inv(s) && c < |s.cpus| && x < |s.mem.pages| && var pc := s.cpus[c];
      !(pc.ClearFlags? || pc.Unchain? || pc.PutLink? || pc.Look? || pc.Halve? || pc.PutOrder? || pc.PutFlag?
        || pc.TakeFlag? || pc.TakeOrder?)
    ensures SameRefs(s, Next(s, c), x)
  {
    hide PlaceOk, FlagOk, ListOk, LockOk, Whole, Coalesced;
    assert PcOk(s, c);
  }

  lemma EventRefs(s: Sys, e: Event, x: nat)
    requires Inv(s) && Enabled(s, e) && x < |s.mem.pages|
    ensures |After(s, e).mem.pages| == |s.mem.pages|
    ensures RefChanges(s, After(s, e), x) ==>
      After(s, e).mem.pages[x].refcount == (s.mem.pages[x].refcount + 1) % 0x1_0000_0000
    ensures s.mem.pages[x].flags.handed ==> After(s, e).mem.pages[x].flags.handed
    ensures !e.Tick? ==>
      !RefChanges(s, After(s, e), x) && After(s, e).mem.pages[x].flags.handed == s.mem.pages[x].flags.handed
  {
    hide Inv, Next;
    if e.Tick? { StepRefs(s, e.c, x); }
  }

  /** The reference count of a frame grows, in 32 bits, by the steps that change it. */
  lemma {:induction false} RefsCounted(ss: seq<Sys>, es: seq<Event>, n: nat, x: nat)
    requires IsRun(ss, es) && n <= |es| && x < |ss[0].mem.pages| && ss[0].mem.pages[x].refcount < 0x1_0000_0000
    ensures x < |ss[n].mem.pages|
    ensures ss[n].mem.pages[x].refcount == (ss[0].mem.pages[x].refcount + AllCounted(ss, es, n, x)) % 0x1_0000_0000
    ensures ss[0].mem.pages[x].flags.handed ==> ss[n].mem.pages[x].flags.handed
  {
    hide Inv, Enabled, After;
    if n > 0 {
      RefsCounted(ss, es, n - 1, x);
      assert Enabled(ss[n - 1], es[n - 1]) && ss[n - 1 + 1] == After(ss[n - 1], es[n - 1]);
      EventRefs(ss[n - 1], es[n - 1], x);
    }
  }

  function AllCounted(ss: seq<Sys>, es: seq<Event>, n: nat, x: nat): nat
    requires n <= |es| < |ss|
  {
    if n == 0 then 0 else AllCounted(ss, es, n - 1, x) + if RefChanges(ss[n - 1], ss[n], x) then 1 else 0
  }

  /** The references that CPU c has counted for its call by then: one for its block, none else. */
  ghost predicate CountedOnce(ss: seq<Sys>, es: seq<Event>, n: nat, c: nat, got: Option<nat>)
    requires n <= |es| < |ss|
  {
    forall x: nat {:trigger Counted(ss, es, n, c, x)} ::
      x < |ss[0].mem.pages| ==> Counted(ss, es, n, c, x) == if got == Some(x) then 1 else 0
  }

  /** The block in hand is marked as handed out, once its flag is taken. */
  predicate Marked(s: Sys, pc: Pc) {
    pc.TakeOrder? || CountedFor(pc).Some? ==> Base(pc) < |s.mem.pages| && s.mem.pages[Base(pc)].flags.handed
  }

  /** The state of a call of page_alloc after n events, the call among them. */
  ghost predicate Under(ss: seq<Sys>, es: seq<Event>, n: nat, c: nat, req: nat)
    requires n <= |es| < |ss|
  {
    && c < |ss[n].cpus| && ss[n].cpus[c] != Idle && |ss[n].mem.pages| == |ss[0].mem.pages|
    && Known(ss, es, n, c, req) && HandedNothing(ss, es, n, c)
    && CountedOnce(ss, es, n, c, CountedFor(ss[n].cpus[c])) && Marked(ss[n], ss[n].cpus[c])
  }

  lemma PagesKept(s: Sys, e: Event)
    requires Inv(s) && Enabled(s, e)
    ensures |After(s, e).mem.pages| == |s.mem.pages| && |After(s, e).cpus| == |s.cpus|
  {
    hide Core, PcOk;
    EventKeeps(s, e);
    if e.Tick? { StepKeeps(s, e.c); }
  }

  /** An event of another CPU. */
  lemma UnderOther(ss: seq<Sys>, es: seq<Event>, n: nat, c: nat, req: nat)
    requires IsRun(ss, es) && n < |es| && es[n].c != c && Under(ss, es, n, c, req)
    ensures Under(ss, es, n + 1, c, req)
  {
    hide Inv, Enabled, After, Known, HandsOut, Base, CountedFor, RefChanges;
    assert Enabled(ss[n], es[n]) && ss[n + 1] == After(ss[n], es[n]);
    OtherEvent(ss[n], es[n], c);
    PagesKept(ss[n], es[n]);
    KnownStays(ss, es, n, c, req);
    CountedStays(ss, es, n, c);
    var pc := ss[n].cpus[c];
    if Base(pc) < |ss[n].mem.pages| { EventRefs(ss[n], es[n], Base(pc)); }
  }

  lemma CountedStays(ss: seq<Sys>, es: seq<Event>, n: nat, c: nat)
    requires n < |es| < |ss| && es[n].c != c
    ensures forall x: nat {:trigger Counted(ss, es, n + 1, c, x)} ::
      Counted(ss, es, n + 1, c, x) == Counted(ss, es, n, c, x)
  {
    forall x: nat ensures Counted(ss, es, n + 1, c, x) == Counted(ss, es, n, c, x) {
      assert es[n + 1 - 1].c != c;
    }
  }

  /** A step of the CPU itself: what it hands out and counts. */
  lemma OwnCounts(ss: seq<Sys>, es: seq<Event>, n: nat, c: nat, req: nat)
    requires IsRun(ss, es) && n < |es| && es[n] == Tick(c) && Under(ss, es, n, c, req)
    ensures c < |ss[n + 1].cpus| && |ss[n + 1].mem.pages| == |ss[0].mem.pages|
    ensures var pc := ss[n].cpus[c];
      CountedOnce(ss, es, n + 1, c, if pc.TakeOrder? then Some(pc.p) else CountedFor(pc))
    ensures Marked(ss[n + 1], ss[n].cpus[c])
    ensures var pc, s' := ss[n].cpus[c], ss[n + 1];
      pc.TakeFlag? ==> pc.p < |s'.mem.pages| && s'.mem.pages[pc.p].flags.handed
  {
    hide Inv, Next, Known, HandsOut;
    assert Enabled(ss[n], es[n]) && ss[n + 1] == After(ss[n], es[n]) == Next(ss[n], c);
    PagesKept(ss[n], es[n]);
    var pc, m := ss[n].cpus[c], n + 1;
    forall x: nat | x < |ss[0].mem.pages|
      ensures Counted(ss, es, m, c, x) == if (if pc.TakeOrder? then Some(pc.p) else CountedFor(pc)) == Some(x) then 1
        else 0
    {
      StepRefs(ss[n], c, x);
      assert es[m - 1].c == c && Counted(ss, es, n, c, x) == if CountedFor(pc) == Some(x) then 1 else 0;
    }
    if pc.TakeFlag? { TakeFlagFits(ss[n], c); StepRefs(ss[n], c, pc.p); }
    if Base(pc) < |ss[n].mem.pages| { StepRefs(ss[n], c, Base(pc)); }
  }

  lemma TakeFlagFits(s: Sys, c: nat)
    requires Inv(s) && c < |s.cpus| && s.cpus[c].TakeFlag?
    ensures s.cpus[c].p < |s.mem.pages|
  {
    hide Core;
    assert PcOk(s, c);
  }

  lemma UnderOwn(ss: seq<Sys>, es: seq<Event>, n: nat, c: nat, req: nat)
    requires IsRun(ss, es) && n < |es| && es[n] == Tick(c) && Under(ss, es, n, c, req)
    requires c < |ss[n + 1].cpus| && ss[n + 1].cpus[c] != Idle
    ensures Under(ss, es, n + 1, c, req)
  {
    hide Inv, Next, Known, HandsOut, CountedOnce;
    assert Enabled(ss[n], es[n]) && ss[n + 1] == After(ss[n], es[n]) == Next(ss[n], c);
    OwnStep(ss, es, n, c, req);
    OwnCounts(ss, es, n, c, req);
    NextCountedFor(ss[n], c);
    NoHandOut(ss[n], c);
  }

  lemma NoHandOut(s: Sys, c: nat)
    requires Inv(s) && c < |s.cpus| && c < |Next(s, c).cpus| && Next(s, c).cpus[c] != Idle
    ensures forall f: nat {:trigger HandsOut(s, Next(s, c), f)} :: !HandsOut(s, Next(s, c), f)
  {
    hide Inv, Next, HandsOut;
    forall f: nat ensures !HandsOut(s, Next(s, c), f) { StepHandsOut(s, c, f); }
  }

  /** The block counted for stays the same to the end of the call. */
  lemma NextCountedFor(s: Sys, c: nat)
    requires Inv(s) && c < |s.cpus| && c < |Next(s, c).cpus| && s.cpus[c] != Idle && Next(s, c).cpus[c] != Idle
    ensures var pc, next := s.cpus[c], Next(s, c).cpus[c];
      && CountedFor(next) == (if pc.TakeOrder? then Some(pc.p) else CountedFor(pc))
      && (next.TakeOrder? || CountedFor(next).Some? ==>
        Base(next) == Base(pc) && (pc.TakeFlag? || pc.TakeOrder? || CountedFor(pc).Some?))
  {
    hide Inv, Next;
    if s.cpus[c].Look? { LookTakes(s, c); } else { StepLeads(s, c); }
  }

  lemma {:induction false} CallUnder(ss: seq<Sys>, es: seq<Event>, n: nat, c: nat, req: nat)
    requires IsCall(ss, es, CallAlloc(c, req)) && 0 < n < |es|
    ensures Under(ss, es, n, c, req)
  {
    if n == 1 {
      CallBegins(ss, es, c, req);
    } else {
      hide Inv, Enabled, After, Under;
      CallUnder(ss, es, n - 1, c, req);
      assert ss[n - 1].cpus[c] != Idle && ss[n - 1 + 1].cpus[c] != Idle;
      if es[n - 1].c == c {
        OwnIsTick(ss, es, n - 1, c); UnderOwn(ss, es, n - 1, c, req);
      } else {
        UnderOther(ss, es, n - 1, c, req);
      }
    }
  }

  /** Only an idle CPU makes a call. */
  lemma OwnIsTick(ss: seq<Sys>, es: seq<Event>, n: nat, c: nat)
    requires IsRun(ss, es) && n < |es| && c < |ss[n].cpus| && ss[n].cpus[c] != Idle && es[n].c == c
    ensures es[n] == Tick(c)
  {
    hide Inv, After;
    assert Enabled(ss[n], es[n]);
  }

  lemma CallBegins(ss: seq<Sys>, es: seq<Event>, c: nat, req: nat)
    requires IsCall(ss, es, CallAlloc(c, req)) && 1 < |es|
    ensures Under(ss, es, 1, c, req)
  {
    hide Inv;
    assert Enabled(ss[0], es[0]) && ss[0 + 1] == After(ss[0], es[0]);
    forall x: nat ensures Counted(ss, es, 1, c, x) == 0 {
      assert Counted(ss, es, 0, c, x) == 0 && !RefChanges(ss[0], ss[1], x);
    }
  }

  /** The call ends with the aligned block of 2^req frames at p: allocated and recorded as such, taken
      by one step from frames that were all listed, marked and counted once. No step of the CPU during
      the call makes any other frame allocated, or these before its end, or counts for any other. */
  ghost predicate Granted(ss: seq<Sys>, es: seq<Event>, c: nat, req: nat, p: nat)
    requires |ss| == |es| + 1
  {
    var n := |es|; var r := ss[n];
    && req <= MAX_ALLOC_ORDER && Aligned(p, req) && p < |r.mem.pages| && r.mem.pages[p].order == req
      && r.mem.pages[p].flags.handed
    && (forall f: nat {:trigger f in r.part} ::
      p <= f < p + Pow2(req) ==> f in r.part && r.part[f] == Piece(p, req, Allocated))
    && Found(ss, es, n, c, p, req) && CountedOnce(ss, es, n, c, Some(p))
    && (forall i, f: nat {:trigger HandsOut(ss[i], ss[i + 1], f)} :: 0 <= i < n && es[i].c == c ==>
          (HandsOut(ss[i], ss[i + 1], f) <==> i == n - 1 && p <= f < p + Pow2(req)))
  }

  /** The call ends with no block: its CPU has made no frame allocated and counted no reference, and
      it has seen the list of every order from req to the largest empty, under that order's lock. */
  ghost predicate Denied(ss: seq<Sys>, es: seq<Event>, c: nat, req: nat)
    requires |ss| == |es| + 1
  {
    && HandedNothing(ss, es, |es|, c) && CountedOnce(ss, es, |es|, c, None)
    && forall k: nat {:trigger SawEmpty(ss, |es|, c, k)} :: req <= k <= MAX_ALLOC_ORDER ==> SawEmpty(ss, |es|, c, k)
  }

  /** CPU c has no frame in its hands. */
  ghost predicate HandsEmpty(s: Sys, c: nat) {
    forall f {:trigger s.part[f]} :: f in s.part ==> s.part[f].place != Held(c)
  }

  lemma IdleHoldsNothing(s: Sys, c: nat)
    requires Inv(s) && c < |s.cpus| && s.cpus[c] == Idle
    ensures HandsEmpty(s, c)
  {
    hide ListOk, LockOk, FlagOk, PcOk;
    forall f | f in s.part ensures s.part[f].place != Held(c) { assert PlaceOk(s, f); }
  }

  /** A call of page_alloc for order req, whatever the other CPUs do during it, ends with a block as
      asked for or with none, and with nothing left in the hands of its CPU. */
  lemma AllocCallEnds(ss: seq<Sys>, es: seq<Event>, c: nat, req: nat)
    requires IsCall(ss, es, CallAlloc(c, req))
    ensures (exists p: nat :: Granted(ss, es, c, req, p)) || Denied(ss, es, c, req)
    ensures HandsEmpty(ss[|es|], c)
  {
    hide Inv, Enabled, After, Granted, Denied, Under;
    var n := |es| - 1;
    assert ss[n + 1].cpus[c] == Idle;
    IdleHoldsNothing(ss[n + 1], c);
    CallNotAtOnce(ss, es, c, req);
    CallUnder(ss, es, n, c, req);
    LastIsTick(ss, es, c);
    if LastHalve(ss[n], c) {
      EndsGranted(ss, es, c, req);
    } else {
      EndsDenied(ss, es, c, req);
    }
  }

  lemma CallNotAtOnce(ss: seq<Sys>, es: seq<Event>, c: nat, req: nat)
    requires IsCall(ss, es, CallAlloc(c, req))
    ensures 1 < |es|
  {
    hide Inv;
    assert Enabled(ss[0], es[0]) && ss[0 + 1] == After(ss[0], es[0]);
  }

  /** Only a step of its own makes a CPU idle. */
  lemma LastIsTick(ss: seq<Sys>, es: seq<Event>, c: nat)
    requires IsRun(ss, es) && es != [] && c < |ss[|es| - 1].cpus| && ss[|es| - 1].cpus[c] != Idle
    requires c < |ss[|es|].cpus| && ss[|es|].cpus[c] == Idle
    ensures es[|es| - 1] == Tick(c)
  {
    hide Inv, Enabled, After;
    var n := |es| - 1;
    assert Enabled(ss[n], es[n]) && ss[n + 1] == After(ss[n], es[n]);
    if es[n].c != c { OtherEvent(ss[n], es[n], c); } else { OwnIsTick(ss, es, n, c); }
  }

  lemma EndsGranted(ss: seq<Sys>, es: seq<Event>, c: nat, req: nat)
    requires IsRun(ss, es) && es != [] && Under(ss, es, |es| - 1, c, req) && es[|es| - 1] == Tick(c)
    requires LastHalve(ss[|es| - 1], c)
    ensures Granted(ss, es, c, req, ss[|es| - 1].cpus[c].p)
  {
    hide Inv, Next, Counted, HandsOut, SawAll, Found;
    var n := |es| - 1;
    var p := ss[n].cpus[c].p;
    assert ss[n + 1] == After(ss[n], es[n]) == Next(ss[n], c);
    OwnCounts(ss, es, n, c, req);
    FoundStays(ss, es, n, c, p, req);
    var s, s' := ss[n], ss[n + 1];
    forall f: nat ensures HandsOut(s, s', f) <==> p <= f < p + Pow2(req) { StepHandsOut(s, c, f); }
    StepHandsOut(ss[n], c, p);
    AllocatedBlock(ss[n + 1], p, req);
  }

  lemma AllocatedBlock(s: Sys, p: nat, k: nat)
    requires Inv(s) && Has(s.part, p, k, Allocated)
    ensures k <= MAX_ALLOC_ORDER && p < |s.mem.pages| && s.mem.pages[p].order == k
    ensures forall f: nat {:trigger f in s.part} ::
      p <= f < p + Pow2(k) ==> f in s.part && s.part[f] == Piece(p, k, Allocated)
  {
    hide ListOk, LockOk, FlagOk, PcOk;
    assert PlaceOk(s, p) && FitsAt(s.part, p);
    forall f: nat | p <= f < p + Pow2(k)
      ensures f in s.part && s.part[f] == Piece(p, k, Allocated)
    {
      BlockIsInterval(f, p, k);
    }
  }

  lemma EndsDenied(ss: seq<Sys>, es: seq<Event>, c: nat, req: nat)
    requires IsRun(ss, es) && es != [] && Under(ss, es, |es| - 1, c, req) && es[|es| - 1] == Tick(c)
    requires !LastHalve(ss[|es| - 1], c) && c < |ss[|es|].cpus| && ss[|es|].cpus[c] == Idle
    ensures Denied(ss, es, c, req)
  {
    hide Inv, Next, Counted, HandsOut, SawEmpty, Found, Known;
    var n := |es| - 1;
    assert ss[n + 1] == After(ss[n], es[n]) == Next(ss[n], c);
    OwnStep(ss, es, n, c, req);
    OwnCounts(ss, es, n, c, req);
    var s, s' := ss[n], ss[n + 1];
    forall f: nat ensures !HandsOut(s, s', f) { StepHandsOut(s, c, f); }
    DeniedAtSeek(ss, es, n, c, req);
  }

  /** A call that ends without its block has counted nothing. */
  lemma DeniedAtSeek(ss: seq<Sys>, es: seq<Event>, n: nat, c: nat, req: nat)
    requires IsRun(ss, es) && n < |es| && c < |ss[n].cpus| && es[n] == Tick(c) && Known(ss, es, n, c, req)
    requires !LastHalve(ss[n], c)
    requires c < |ss[n + 1].cpus| && ss[n + 1].cpus[c] == Idle
    ensures ss[n].cpus[c].Seek? && CountedFor(ss[n].cpus[c]) == None
  {
    hide Inv, Next, SawAll, Found;
    assert ss[n + 1] == After(ss[n], es[n]) == Next(ss[n], c);
    if ss[n].cpus[c].Look? { LookTakes(ss[n], c); } else { StepLeads(ss[n], c); }
  }

  /** One of the first n events is a step of CPU c that puts frame f from its hands on a list. */
  ghost predicate GaveBack(ss: seq<Sys>, es: seq<Event>, n: nat, c: nat, f: nat)
    requires n <= |es| < |ss|
  {
    exists i {:trigger PutsBack(ss[i], ss[i + 1], c, f)} ::
      0 <= i < n && es[i] == Tick(c) && PutsBack(ss[i], ss[i + 1], c, f)
  }

  predicate PutsBack(s: Sys, s': Sys, c: nat, f: nat) {
    f in s.part && f in s'.part && s.part[f].place == Held(c) && s'.part[f].place == Listed
  }

  /** The places inside page_add_to_slot when page_free called it. */
  predicate Freeing(pc: Pc) {
    match pc
    case Idle => false
    case Seek(_, _) => false
    case Look(_, _) => false
    case DropEmpty(_, _) => false
    case TakeFlag(_, _, _) => false
    case TakeOrder(_, _, _) => false
    case DropTaken(_, _, _) => false
    case Halve(_, _, _) => false
    case DropPut(_, ret) => ret == Caller
    case _ => pc.ret == Caller
  }

  /** The state of a call of page_free for frame f of its block. */
  ghost predicate UnderFree(ss: seq<Sys>, es: seq<Event>, n: nat, c: nat, f: nat)
    requires n <= |es| < |ss|
  {
    && c < |ss[n].cpus| && Freeing(ss[n].cpus[c]) && f in ss[n].part && HandedNothing(ss, es, n, c)
    && (ss[n].part[f].place == Held(c) || GaveBack(ss, es, n, c, f))
  }

  lemma FreeBegins(ss: seq<Sys>, es: seq<Event>, c: nat, p: nat, f: nat)
    requires IsCall(ss, es, CallFree(c, p)) && f in ss[0].part && p in ss[0].part && ss[0].part[f] == ss[0].part[p]
    ensures 1 < |es| && UnderFree(ss, es, 1, c, f)
  {
    hide ListOk, LockOk, FlagOk, PcOk, PlaceOk;
    assert Enabled(ss[0], es[0]) && ss[0 + 1] == After(ss[0], es[0]);
    MoveFrames(ss[0].part, p, ss[0].part[p].order, Held(c));
  }

  lemma GaveStays(ss: seq<Sys>, es: seq<Event>, n: nat, c: nat, f: nat)
    requires n < |es| < |ss| && GaveBack(ss, es, n, c, f)
    ensures GaveBack(ss, es, n + 1, c, f)
  {
  }

  /** A frame in the hands of CPU c stays there through other CPUs' events, and leaves them by its own
      steps only onto a list or into an allocated block. */
  lemma HeldMoves(s: Sys, e: Event, c: nat, f: nat)
    requires Inv(s) && Enabled(s, e) && c < |s.cpus| && f in s.part && s.part[f].place == Held(c)
    ensures f in After(s, e).part
    ensures e.c != c ==> After(s, e).part[f] == s.part[f]
    ensures e == Tick(c) ==> var pl := After(s, e).part[f].place; pl == Held(c) || pl == Listed || pl == Allocated
  {
    hide ListOk, LockOk, FlagOk, PcOk, PlaceOk;
    match e
    case Tick(d) => StepKeeps(s, d); assert PieceKept(s, Next(s, d), d, f);
    case CallFree(d, p) => MoveFrames(s.part, p, s.part[p].order, Held(d));
    case CallAlloc(d, req) =>
  }

  lemma FreeStep(ss: seq<Sys>, es: seq<Event>, n: nat, c: nat, f: nat)
    requires IsRun(ss, es) && n < |es| && UnderFree(ss, es, n, c, f)
    ensures c < |ss[n + 1].cpus| && f in ss[n + 1].part && HandedNothing(ss, es, n + 1, c)
    ensures ss[n + 1].part[f].place == Held(c) || GaveBack(ss, es, n + 1, c, f)
    ensures Freeing(ss[n + 1].cpus[c]) || (es[n] == Tick(c) && ss[n + 1].cpus[c] == Idle)
  {
    hide Inv, Enabled, Next, GaveBack, Freeing;
    assert Enabled(ss[n], es[n]) && ss[n + 1] == After(ss[n], es[n]);
    PagesKept(ss[n], es[n]);
    EventKeeps(ss[n], es[n]);
    if GaveBack(ss, es, n, c, f) { GaveStays(ss, es, n, c, f); } else { HeldMoves(ss[n], es[n], c, f); }
    if es[n].c != c {
      OtherEvent(ss[n], es[n], c);
    } else {
      NotIdle(ss[n].cpus[c]);
      OwnIsTick(ss, es, n, c);
      FreeingOn(ss[n], c);
      var s, s' := ss[n], ss[n + 1];
      forall g: nat ensures !HandsOut(s, s', g) { StepHandsOut(s, c, g); }
      if ss[n].part[f].place == Held(c) && ss[n + 1].part[f].place == Listed { Gives(ss, es, n, c, f); }
      assert !HandsOut(s, s', f);
    }
  }

  lemma NotIdle(pc: Pc)
    requires Freeing(pc)
    ensures pc != Idle && !pc.Halve?
  {
  }

  lemma Gives(ss: seq<Sys>, es: seq<Event>, n: nat, c: nat, f: nat)
    requires n < |es| < |ss| && es[n] == Tick(c) && PutsBack(ss[n], ss[n + 1], c, f)
    ensures GaveBack(ss, es, n + 1, c, f)
  {
  }

  lemma FreeingOn(s: Sys, c: nat)
    requires Inv(s) && c < |s.cpus| && c < |Next(s, c).cpus| && Freeing(s.cpus[c])
    ensures Freeing(Next(s, c).cpus[c]) || Next(s, c).cpus[c] == Idle
    ensures !LastHalve(s, c)
  {
    hide Inv, Next;
    StepLeads(s, c);
  }

  lemma {:induction false} FreeUnder(ss: seq<Sys>, es: seq<Event>, n: nat, c: nat, p: nat, f: nat)
    requires IsCall(ss, es, CallFree(c, p)) && f in ss[0].part && p in ss[0].part && ss[0].part[f] == ss[0].part[p]
    requires 0 < n < |es|
    ensures UnderFree(ss, es, n, c, f)
  {
    if n == 1 {
      FreeBegins(ss, es, c, p, f);
    } else {
      hide Inv, Enabled, After, Freeing, HandedNothing, GaveBack;
      FreeUnder(ss, es, n - 1, c, p, f);
      FreeStep(ss, es, n - 1, c, f);
      assert ss[n - 1 + 1].cpus[c] != Idle;
    }
  }

  /** A call of page_free, whatever the other CPUs do during it, has put every frame of the block from
      the hands of its CPU on a list by its end; it has made no frame allocated, and nothing is left in
      those hands. */
  lemma FreeCallEnds(ss: seq<Sys>, es: seq<Event>, c: nat, p: nat, f: nat)
    requires IsCall(ss, es, CallFree(c, p)) && f in ss[0].part && p in ss[0].part && ss[0].part[f] == ss[0].part[p]
    ensures GaveBack(ss, es, |es|, c, f) && HandedNothing(ss, es, |es|, c) && HandsEmpty(ss[|es|], c)
  {
    hide Inv, Enabled, After, Freeing, HandedNothing, GaveBack;
    FreeBegins(ss, es, c, p, f);
    FreeUnder(ss, es, |es| - 1, c, p, f);
    FreeStep(ss, es, |es| - 1, c, f);
    assert ss[|es| - 1 + 1].cpus[c] == Idle;
    IdleHoldsNothing(ss[|es|], c);
  }

  /** An idle CPU may ask for a block of any order, and free any block that is allocated. */
  lemma IdleMayCall(s: Sys, c: nat, p: nat, req: nat)
    requires Inv(s) && c < |s.cpus| && s.cpus[c] == Idle
    ensures Enabled(s, CallAlloc(c, req))
    ensures p in s.part && s.part[p].place == Allocated ==> Enabled(s, CallFree(c, s.part[p].pfn))
  {
    hide PlaceOk, FlagOk, ListOk, LockOk, PcOk;
    if p in s.part { HeadInPart(s.part, p); }
  }
}
