/** The allocator run by any number of CPUs at once. Every shared read and write that another
    CPU could notice is a step of its own: taking and dropping an order's spinlock, the
    unlocked reads of the buddy's order and then of its flag, and each write to a frame's
    order, flags and list. */
module BuddyConcurrent {
  import opened Dyadic
  import opened Partition
  import opened BuddyMem
  import opened BuddySteps
  import opened FreeList

  /** Where page_add_to_slot returns to: its caller, or the splitting loop of page_alloc,
      which still holds the block (base, order) for a request of order req. */
  datatype Ret = Caller | Splitting(base: nat, order: nat, req: nat)

  datatype Pc =
    | Idle
    // page_add_to_slot with the block at p, at local order k
    | Enter(p: nat, ret: Ret)
    | WantLock(p: nat, k: nat, ret: Ret)
    | ReadOrder(p: nat, k: nat, ret: Ret)
    | ReadFlag(p: nat, k: nat, ret: Ret)
    | ClearFlags(p: nat, k: nat, ret: Ret)
    | Unchain(p: nat, k: nat, ret: Ret)
    | DropMerged(p: nat, k: nat, ret: Ret)
    | PutOrder(p: nat, k: nat, ret: Ret)
    | PutFlag(p: nat, k: nat, ret: Ret)
    | PutLink(p: nat, k: nat, ret: Ret)
    | DropPut(k: nat, ret: Ret)
    // page_alloc for a request of order req, at order k
    | Seek(req: nat, k: nat)
    | Look(req: nat, k: nat)
    | DropEmpty(req: nat, k: nat)
    | TakeFlag(p: nat, k: nat, req: nat)
    | TakeOrder(p: nat, k: nat, req: nat)
    | DropTaken(p: nat, k: nat, req: nat)
    | Halve(p: nat, k: nat, req: nat)

  /** served[k] counts the allocations served from list k; last is the index of kpage_last. */
  datatype Sys = Sys(mem: Mem, part: Part, locks: seq<Option<nat>>, cpus: seq<Pc>, served: seq<nat>, last: nat)

  /** The order whose spinlock a CPU holds at pc. */
  function Critical(pc: Pc): Option<nat> {
    match pc
    case ReadOrder(_, k, _) => Some(k)
    case ReadFlag(_, k, _) => Some(k)
    case ClearFlags(_, k, _) => Some(k)
    case Unchain(_, k, _) => Some(k)
    case DropMerged(_, k, _) => Some(k)
    case PutOrder(_, k, _) => Some(k)
    case PutFlag(_, k, _) => Some(k)
    case PutLink(_, k, _) => Some(k)
    case DropPut(k, _) => Some(k)
    case Look(_, k) => Some(k)
    case DropEmpty(_, k) => Some(k)
    case TakeFlag(_, k, _) => Some(k)
    case TakeOrder(_, k, _) => Some(k)
    case DropTaken(_, k, _) => Some(k)
    case _ => None
  }

  /** The heads of the blocks a CPU has in its hands at pc. */
  function Hands(pc: Pc): set<nat> {
    match pc
    case Idle => {}
    case Seek(_, _) => {}
    case Look(_, _) => {}
    case DropEmpty(_, _) => {}
    case DropPut(_, ret) => RetHands(ret)
    case TakeFlag(p, _, _) => {p}
    case TakeOrder(p, _, _) => {p}
    case DropTaken(p, _, _) => {p}
    case Halve(p, _, _) => {p}
    case _ => {pc.p} + RetHands(pc.ret)
  }

  function RetHands(ret: Ret): set<nat> {
    if ret.Splitting? then {ret.base} else {}
  }

  /** CPU c has the block (p, k), its order field at most k and its flag clear. */
  ghost predicate Holds(s: Sys, c: nat, p: nat, k: nat) {
    && Has(s.part, p, k, Held(c)) && p < |s.mem.pages| && k <= MAX_ALLOC_ORDER
    && s.mem.pages[p].order <= k && !s.mem.pages[p].flags.buddy
  }

  ghost predicate RetHolds(s: Sys, c: nat, ret: Ret) {
    ret.Splitting? ==> Holds(s, c, ret.base, ret.order) && s.mem.pages[ret.base].order == ret.req
  }

  ghost predicate RetOk(s: Sys, c: nat, p: nat, ret: Ret) {
    RetHolds(s, c, ret) && p !in RetHands(ret)
  }

  predicate Locked(s: Sys, c: nat, k: nat) {
    k < |s.locks| && s.locks[k] == Some(c)
  }

  predicate BuddyNotListed(s: Sys, p: nat, k: nat) {
    k < MAX_ALLOC_ORDER ==> !Has(s.part, Buddy(p, k), k, Listed)
  }

  /** What is known of the shared memory when CPU c is at its pc. */
  ghost predicate PcOk(s: Sys, c: nat)
    requires c < |s.cpus|
  {
    var pages := s.mem.pages;
    match s.cpus[c]
    case Idle => true
    case Enter(p, ret) =>
      p in s.part && Holds(s, c, p, s.part[p].order) && pages[p].order == s.part[p].order && RetOk(s, c, p, ret)
    case WantLock(p, k, ret) => Holds(s, c, p, k) && RetOk(s, c, p, ret)
    case ReadOrder(p, k, ret) => Holds(s, c, p, k) && RetOk(s, c, p, ret) && Locked(s, c, k)
    case ReadFlag(p, k, ret) =>
      var q := Buddy(p, k);
      Holds(s, c, p, k) && RetOk(s, c, p, ret) && Locked(s, c, k) && k < MAX_ALLOC_ORDER && q <= s.last < |pages|
      && (q in s.part ==> s.part[q].pfn == q && s.part[q].order == k && pages[q].order == k)
    case ClearFlags(p, k, ret) =>
      var q := Buddy(p, k);
      Holds(s, c, p, k) && RetOk(s, c, p, ret) && Locked(s, c, k) && k < MAX_ALLOC_ORDER && q < |pages|
      && Has(s.part, q, k, Listed) && pages[q].flags.buddy
    case Unchain(p, k, ret) =>
      var q := Buddy(p, k);
      Holds(s, c, p, k) && RetOk(s, c, p, ret) && Locked(s, c, k) && k < MAX_ALLOC_ORDER && q < |pages|
      && Has(s.part, q, k, Listed) && !pages[q].flags.buddy
    case DropMerged(p, k, ret) => Holds(s, c, p, k + 1) && RetOk(s, c, p, ret) && Locked(s, c, k)
    case PutOrder(p, k, ret) => Holds(s, c, p, k) && RetOk(s, c, p, ret) && Locked(s, c, k) && BuddyNotListed(s, p, k)
    case PutFlag(p, k, ret) =>
      Holds(s, c, p, k) && RetOk(s, c, p, ret) && Locked(s, c, k) && BuddyNotListed(s, p, k) && pages[p].order == k
    case PutLink(p, k, ret) =>
      Has(s.part, p, k, Held(c)) && k <= MAX_ALLOC_ORDER && p < |pages| && RetOk(s, c, p, ret) && Locked(s, c, k)
      && BuddyNotListed(s, p, k) && pages[p].order == k && pages[p].flags.buddy
    case DropPut(k, ret) => Locked(s, c, k) && k <= MAX_ALLOC_ORDER && RetHolds(s, c, ret)
    case Seek(req, k) => req <= k
    case Look(req, k) => Locked(s, c, k) && k <= MAX_ALLOC_ORDER && req <= k
    case DropEmpty(req, k) => Locked(s, c, k) && k <= MAX_ALLOC_ORDER && req <= k
    case TakeFlag(p, k, req) =>
      Has(s.part, p, k, Held(c)) && k <= MAX_ALLOC_ORDER && p < |pages| && Locked(s, c, k) && req <= k
      && pages[p].order == k && pages[p].flags.buddy
    case TakeOrder(p, k, req) => Holds(s, c, p, k) && Locked(s, c, k) && req <= k
    case DropTaken(p, k, req) => Holds(s, c, p, k) && Locked(s, c, k) && pages[p].order == req
    case Halve(p, k, req) => Holds(s, c, p, k) && pages[p].order == req
  }

  /** A CPU is between taking the block at p off (or putting it on) its list and the flag write. */
  predicate FlagInHand(pc: Pc, p: nat) {
    (pc.PutLink? || pc.TakeFlag?) && pc.p == p
  }

  /** The CPU with the lock of order k has cleared p's flag and is about to unlink p. */
  predicate Unchaining(s: Sys, p: nat, k: nat)
    requires k < |s.locks|
  {
    s.locks[k].Some? && s.locks[k].value < |s.cpus| && var pc := s.cpus[s.locks[k].value];
    pc.Unchain? && pc.k == k && Buddy(pc.p, k) == p
  }

  /** FREE_BUDDY on a frame means a block head whose order field is exact. */
  ghost predicate FlagOk(s: Sys, p: nat)
    requires p < |s.mem.pages|
  {
    s.mem.pages[p].flags.buddy ==>
      && p in s.part && s.part[p].pfn == p && s.mem.pages[p].order == s.part[p].order
      && (s.part[p].place == Listed
          || (s.part[p].place.Held? && s.part[p].place.cpu < |s.cpus| && FlagInHand(s.cpus[s.part[p].place.cpu], p)))
  }

  /** The block recorded for frame f is where its place says it is. */
  ghost predicate PlaceOk(s: Sys, f: nat)
    requires f in s.part && |s.locks| == ORDERS
  {
    var b := s.part[f];
    && f <= s.last && b.pfn < |s.mem.pages| && b.order <= MAX_ALLOC_ORDER
    && s.mem.pages[b.pfn].order <= b.order
    && (b.place == Listed ==>
          s.mem.pages[b.pfn].order == b.order && (s.mem.pages[b.pfn].flags.buddy || Unchaining(s, b.pfn, b.order)))
    && (b.place == Allocated ==> s.mem.pages[b.pfn].order == b.order)
    && (b.place.Held? ==> b.place.cpu < |s.cpus| && b.pfn in Hands(s.cpus[b.place.cpu]))
  }

  ghost predicate ListOk(s: Sys, k: nat)
    requires Shape(s.mem) && |s.served| == ORDERS && k <= MAX_ALLOC_ORDER
  {
    && Distinct(s.mem.lists[k])
    && (forall p: nat {:trigger p in s.mem.lists[k]} {:trigger Has(s.part, p, k, Listed)} ::
          p in s.mem.lists[k] <==> Has(s.part, p, k, Listed))
    && s.mem.counts[k] == |s.mem.lists[k]| + s.served[k]
  }

  ghost predicate LockOk(s: Sys, k: nat)
    requires k < |s.locks|
  {
    s.locks[k].Some? ==> s.locks[k].value < |s.cpus| && Critical(s.cpus[s.locks[k].value]) == Some(k)
  }

  predicate Sized(s: Sys) {
    Shape(s.mem) && |s.locks| == ORDERS && |s.served| == ORDERS && s.last < |s.mem.pages|
  }

  /** The invariant but for what single CPUs know. */
  ghost predicate Core(s: Sys) {
    && Sized(s) && Whole(s.part) && Coalesced(s.part)
    && (forall k: nat :: k <= MAX_ALLOC_ORDER ==> ListOk(s, k) && LockOk(s, k))
    && (forall p: nat :: p < |s.mem.pages| ==> FlagOk(s, p))
    && (forall f :: f in s.part ==> PlaceOk(s, f))
  }

  ghost predicate Inv(s: Sys) {
    Core(s) && forall c: nat :: c < |s.cpus| ==> PcOk(s, c)
  }

  function GoTo(s: Sys, c: nat, pc: Pc): Sys
    requires c < |s.cpus|
  {
    s.(cpus := s.cpus[c := pc])
  }

  function Return(ret: Ret): Pc {
    if ret.Splitting? then Halve(ret.base, ret.order, ret.req) else Idle
  }

  /** spinlock_lock: the exchange succeeds on a free lock and spins on a taken one. */
  function Acquire(s: Sys, c: nat, k: nat, pc: Pc): Sys
    requires c < |s.cpus| && k < |s.locks|
  {
    if s.locks[k] == None then GoTo(s.(locks := s.locks[k := Some(c)]), c, pc) else s
  }

  function Release(s: Sys, c: nat, k: nat, pc: Pc): Sys
    requires c < |s.cpus| && k < |s.locks|
  {
    GoTo(s.(locks := s.locks[k := None]), c, pc)
  }

  function Write(s: Sys, p: nat, page: Page): Sys
    requires p < |s.mem.pages|
  {
    s.(mem := SetPage(s.mem, p, page))
  }

  /** FREE_BUDDY cleared on both halves, FREE_SUB set on the upper one. */
  function ClearedPages(s: Sys, p: nat, k: nat): Sys
    requires p < |s.mem.pages| && Buddy(p, k) < |s.mem.pages|
  {
    var lo, hi := Min(p, Buddy(p, k)), Max(p, Buddy(p, k));
    var s1 := Write(s, lo, s.mem.pages[lo].(flags := s.mem.pages[lo].flags.(buddy := false)));
    Write(s1, hi, s.mem.pages[hi].(flags := s.mem.pages[hi].flags.(buddy := false, sub := true)))
  }

  /** The buddy of (p, k) unlinked and counted off, its frames joined to the block in c's hands. */
  function Joined(s: Sys, c: nat, p: nat, k: nat): Sys
    requires Sized(s) && k <= MAX_ALLOC_ORDER
  {
    s.(mem := SetList(s.mem, k, Unlink(s.mem.lists[k], Buddy(p, k)), s.mem.counts[k] - 1),
       part := Paint(s.part, Min(p, Buddy(p, k)), k + 1, Held(c)))
  }

  /** The block (p, k) linked at the tail of its list and counted. */
  function Appended(s: Sys, p: nat, k: nat): Sys
    requires Sized(s) && k <= MAX_ALLOC_ORDER
  {
    s.(mem := SetList(s.mem, k, s.mem.lists[k] + [p], s.mem.counts[k] + 1), part := Paint(s.part, p, k, Listed))
  }

  /** The block (p, k) unlinked by page_alloc, which leaves the count. */
  function Taken(s: Sys, c: nat, p: nat, k: nat): Sys
    requires Sized(s) && k <= MAX_ALLOC_ORDER
  {
    s.(mem := SetList(s.mem, k, Unlink(s.mem.lists[k], p), s.mem.counts[k]), part := Paint(s.part, p, k, Held(c)),
       served := s.served[k := s.served[k] + 1])
  }

  /** The upper half of the block (p, k + 1) given its order and made a block of its own. */
  function Halved(s: Sys, c: nat, p: nat, k: nat): Sys
    requires Sized(s) && p in s.part && Buddy(p, k) < |s.mem.pages|
  {
    s.(mem := OwnHalf(s.mem, Buddy(p, k), k), part := Cut(s.part, p, k, Held(c)))
  }

  /** The next step of CPU c, which is inside one of the two functions. */
  ghost function Next(s: Sys, c: nat): Sys
    requires Inv(s) && c < |s.cpus|
  {
    assert PcOk(s, c);
    var pages := s.mem.pages;
    match s.cpus[c]
    case Idle => s
    case Enter(p, ret) =>
      GoTo(s, c, if pages[p].order <= MAX_ALLOC_ORDER then WantLock(p, pages[p].order, ret) else Return(ret))
    case WantLock(p, k, ret) => Acquire(s, c, k, ReadOrder(p, k, ret))
    case ReadOrder(p, k, ret) =>
      var q := Buddy(p, k);
      GoTo(s, c, if k < MAX_ALLOC_ORDER && q <= s.last && pages[q].order == k then ReadFlag(p, k, ret)
        else PutOrder(p, k, ret))
    case ReadFlag(p, k, ret) =>
      GoTo(s, c, if pages[Buddy(p, k)].flags.buddy then ClearFlags(p, k, ret) else PutOrder(p, k, ret))
    case ClearFlags(p, k, ret) => GoTo(ClearedPages(s, p, k), c, Unchain(p, k, ret))
    case Unchain(p, k, ret) => GoTo(Joined(s, c, p, k), c, DropMerged(Min(p, Buddy(p, k)), k, ret))
    case DropMerged(p, k, ret) => Release(s, c, k, WantLock(p, k + 1, ret))
    case PutOrder(p, k, ret) => GoTo(Write(s, p, pages[p].(order := k)), c, PutFlag(p, k, ret))
    case PutFlag(p, k, ret) =>
      GoTo(Write(s, p, pages[p].(flags := pages[p].flags.(buddy := true, sub := false))), c, PutLink(p, k, ret))
    case PutLink(p, k, ret) => GoTo(Appended(s, p, k), c, DropPut(k, ret))
    case DropPut(k, ret) => Release(s, c, k, Return(ret))
    case Seek(req, k) => if k > MAX_ALLOC_ORDER then GoTo(s, c, Idle) else Acquire(s, c, k, Look(req, k))
    case Look(req, k) =>
      var l := s.mem.lists[k];
      if l == [] then GoTo(s, c, DropEmpty(req, k))
      else
        var p := l[|l| - 1];
        GoTo(Taken(s, c, p, k), c, TakeFlag(p, k, req))
    case DropEmpty(req, k) => Release(s, c, k, Seek(req, k + 1))
    case TakeFlag(p, k, req) =>
      GoTo(Write(s, p, pages[p].(flags := pages[p].flags.(buddy := false, handed := true))), c, TakeOrder(p, k, req))
    case TakeOrder(p, k, req) =>
      GoTo(Write(s, p, pages[p].(order := req, refcount := (pages[p].refcount + 1) % 0x1_0000_0000)), c,
        DropTaken(p, k, req))
    case DropTaken(p, k, req) => Release(s, c, k, Halve(p, k, req))
    case Halve(p, k, req) =>
      if k == req then GoTo(s.(part := Paint(s.part, p, k, Allocated)), c, Idle)
      else
        HalfInArray(s, p, k);
        GoTo(Halved(s, c, p, k - 1), c, Enter(Buddy(p, k - 1), Splitting(p, k - 1, req)))
  }

  lemma HalfInArray(s: Sys, p: nat, k: nat)
    requires Core(s) && p in s.part && s.part[p].pfn == p && s.part[p].order == k > 0
    ensures Buddy(p, k - 1) in s.part && Buddy(p, k - 1) < |s.mem.pages|
  {
    CutFrames(s.part, p, k - 1);
    assert InBlock(Buddy(p, k - 1), Buddy(p, k - 1), k - 1);
    assert PlaceOk(s, Buddy(p, k - 1));
  }

  /** A block, or a list, that only CPU c may touch now. */
  predicate Mine(s: Sys, c: nat, b: Piece) {
    b.place == Held(c) || (b.place == Listed && Locked(s, c, b.order))
  }

  /** What every step of CPU c guarantees to the other CPUs. */
  ghost predicate Guarantee(s: Sys, s': Sys, c: nat)
    requires Sized(s)
  {
    && Sized(s') && s'.last == s.last && |s'.mem.pages| == |s.mem.pages|
    && |s'.cpus| == |s.cpus| && c < |s.cpus| && s'.cpus == s.cpus[c := s'.cpus[c]]
    && (forall k, d :: 0 <= k < ORDERS && d != c ==> (s'.locks[k] == Some(d) <==> s.locks[k] == Some(d)))
    && s'.part.Keys == s.part.Keys
    && (forall f :: f in s.part ==> PieceKept(s, s', c, f))
    && (forall p: nat ::
      p < |s.mem.pages| ==> s'.mem.pages[p] == s.mem.pages[p] || (p in s.part && Mine(s, c, s.part[p])))
    && (forall p :: p in s.part && ExactHeld(s, c, p) ==>
          s'.part[p].pfn == p && s'.part[p].order == s.part[p].order && s'.mem.pages[p].order == s.mem.pages[p].order)
  }

  /** The block of frame f changes only if it is c's, or by c freeing it. */
  predicate PieceKept(s: Sys, s': Sys, c: nat, f: nat)
    requires f in s.part && f in s'.part
  {
    || s'.part[f] == s.part[f]
    || (s.part[f].place == Allocated && s'.part[f] == s.part[f].(place := Held(c)))
    || (Mine(s, c, s.part[f]) && (s'.part[f].place == Held(c) || s'.part[f].place == Allocated
                                  || (s'.part[f].place == Listed && Locked(s, c, s'.part[f].order))))
  }

  /** A block in c's hands whose order field is exact, outside the critical section of that
      order: such a block stays as it is until c gets the lock. */
  predicate ExactHeld(s: Sys, c: nat, p: nat)
    requires p in s.part
  {
    s.part[p].pfn == p && s.part[p].place == Held(c) && p < |s.mem.pages|
    && s.mem.pages[p].order == s.part[p].order && !Locked(s, c, s.part[p].order)
  }

  lemma HoldsStable(s: Sys, s': Sys, c: nat, d: nat, p: nat, k: nat)
    requires Sized(s) && Guarantee(s, s', c) && d != c && Has(s.part, p, k, Held(d))
    ensures Has(s'.part, p, k, Held(d)) && (p < |s.mem.pages| ==> s'.mem.pages[p] == s.mem.pages[p])
  {
    assert PieceKept(s, s', c, p);
  }

  lemma RetStable(s: Sys, s': Sys, c: nat, d: nat, ret: Ret)
    requires Sized(s) && Guarantee(s, s', c) && d != c && RetHolds(s, d, ret)
    ensures RetHolds(s', d, ret)
  {
    if ret.Splitting? { HoldsStable(s, s', c, d, ret.base, ret.order); }
  }

  /** What CPU d knows is not disturbed by a step of CPU c. */
  lemma PcStable(s: Sys, s': Sys, c: nat, d: nat)
    requires Core(s) && Guarantee(s, s', c) && d != c && d < |s.cpus| && PcOk(s, d)
    ensures PcOk(s', d)
  {
    var pc := s.cpus[d];
    assert s'.cpus[d] == pc;
    match pc
    case Idle =>
    case Seek(_, _) =>
    case Look(_, k) => assert 0 <= k < ORDERS;
    case DropEmpty(_, k) => assert 0 <= k < ORDERS;
    case DropPut(k, ret) => RetStable(s, s', c, d, ret);
    case TakeFlag(p, k, _) => HoldsStable(s, s', c, d, p, k);
    case TakeOrder(p, k, _) => HoldsStable(s, s', c, d, p, k);
    case DropTaken(p, k, _) => HoldsStable(s, s', c, d, p, k);
    case Halve(p, k, _) => HoldsStable(s, s', c, d, p, k);
    case Enter(p, ret) => HoldsStable(s, s', c, d, p, s.part[p].order); RetStable(s, s', c, d, ret);
    case WantLock(p, k, ret) => HoldsStable(s, s', c, d, p, k); RetStable(s, s', c, d, ret);
    case ReadOrder(p, k, ret) => HoldsStable(s, s', c, d, p, k); RetStable(s, s', c, d, ret);
    case ReadFlag(p, k, ret) =>
      HoldsStable(s, s', c, d, p, k); RetStable(s, s', c, d, ret);
      BuddyStable(s, s', c, d, Buddy(p, k), k);
    case ClearFlags(p, k, ret) =>
      HoldsStable(s, s', c, d, p, k); RetStable(s, s', c, d, ret);
      BuddyStable(s, s', c, d, Buddy(p, k), k);
    case Unchain(p, k, ret) =>
      HoldsStable(s, s', c, d, p, k); RetStable(s, s', c, d, ret);
      BuddyStable(s, s', c, d, Buddy(p, k), k);
    case DropMerged(p, k, ret) => HoldsStable(s, s', c, d, p, k + 1); RetStable(s, s', c, d, ret);
    case PutOrder(p, k, ret) =>
      HoldsStable(s, s', c, d, p, k); RetStable(s, s', c, d, ret);
      BuddyStable(s, s', c, d, Buddy(p, k), k);
    case PutFlag(p, k, ret) =>
      HoldsStable(s, s', c, d, p, k); RetStable(s, s', c, d, ret);
      BuddyStable(s, s', c, d, Buddy(p, k), k);
    case PutLink(p, k, ret) =>
      HoldsStable(s, s', c, d, p, k); RetStable(s, s', c, d, ret);
      BuddyStable(s, s', c, d, Buddy(p, k), k);
  }

  /** While d has the lock of order k, no other CPU puts q on list k, takes it off, or changes
      an exact order field k of a block (q, k), wherever that block is. */
  lemma BuddyStable(s: Sys, s': Sys, c: nat, d: nat, q: nat, k: nat)
    requires Sized(s) && Guarantee(s, s', c) && d != c && Locked(s, d, k)
    ensures Has(s'.part, q, k, Listed) <==> Has(s.part, q, k, Listed)
    ensures Has(s.part, q, k, Listed) && q < |s.mem.pages| ==> s'.mem.pages[q] == s.mem.pages[q]
    ensures q in s.part && q < |s.mem.pages| && s.part[q].pfn == q && s.part[q].order == k == s.mem.pages[q].order ==>
              s'.part[q].pfn == q && s'.part[q].order == k && s'.mem.pages[q].order == k
    ensures Locked(s', d, k)
  {
    if q in s.part {
      assert PieceKept(s, s', c, q);
      assert s.part[q].place == Held(c) && s.part[q].order == k && s.part[q].pfn == q && q < |s.mem.pages|
        && s.mem.pages[q].order == k
        ==> ExactHeld(s, c, q);
    }
  }

  /** Steps that only move c's pc inside one critical section, or outside all. */
  lemma MoveCore(s: Sys, c: nat, pc: Pc)
    requires Core(s) && c < |s.cpus| && Hands(pc) == Hands(s.cpus[c]) && Critical(pc) == Critical(s.cpus[c])
    requires !s.cpus[c].PutLink? && !s.cpus[c].TakeFlag? && !s.cpus[c].Unchain?
    ensures Core(GoTo(s, c, pc)) && Guarantee(s, GoTo(s, c, pc), c)
  {
    var s' := GoTo(s, c, pc);
    forall f | f in s.part ensures PlaceOk(s', f) { assert PlaceOk(s, f); }
    forall p: nat | p < |s.mem.pages| ensures FlagOk(s', p) { assert FlagOk(s, p); }
    forall k: nat | k <= MAX_ALLOC_ORDER ensures ListOk(s', k) && LockOk(s', k) { assert ListOk(s, k) && LockOk(s, k); }
  }

  lemma AcquireCore(s: Sys, c: nat, k: nat, pc: Pc)
    requires Core(s) && c < |s.cpus| && k <= MAX_ALLOC_ORDER && Hands(pc) == Hands(s.cpus[c])
    requires Critical(s.cpus[c]) == None && Critical(pc) == Some(k) && s.locks[k] == None
    ensures Core(Acquire(s, c, k, pc)) && Guarantee(s, Acquire(s, c, k, pc), c)
    ensures Locked(Acquire(s, c, k, pc), c, k)
  {
    var s' := Acquire(s, c, k, pc);
    forall f | f in s.part ensures PlaceOk(s', f) { assert PlaceOk(s, f); }
    forall p: nat | p < |s.mem.pages| ensures FlagOk(s', p) { assert FlagOk(s, p); }
    forall j: nat | j <= MAX_ALLOC_ORDER ensures ListOk(s', j) && LockOk(s', j) { assert ListOk(s, j) && LockOk(s, j); }
    assert Guarantee(s, s', c);
  }

  lemma ReleaseCore(s: Sys, c: nat, k: nat, pc: Pc)
    requires Core(s) && c < |s.cpus| && k <= MAX_ALLOC_ORDER && Hands(pc) == Hands(s.cpus[c])
    requires Critical(s.cpus[c]) == Some(k) && Critical(pc) == None && Locked(s, c, k)
    requires !s.cpus[c].PutLink? && !s.cpus[c].TakeFlag? && !s.cpus[c].Unchain?
    ensures Core(Release(s, c, k, pc)) && Guarantee(s, Release(s, c, k, pc), c)
  {
    var s' := Release(s, c, k, pc);
    forall f | f in s.part ensures PlaceOk(s', f) { assert PlaceOk(s, f); }
    forall p: nat | p < |s.mem.pages| ensures FlagOk(s', p) { assert FlagOk(s, p); }
    forall j: nat | j <= MAX_ALLOC_ORDER ensures ListOk(s', j) && LockOk(s', j) { assert ListOk(s, j) && LockOk(s, j); }
  }

  /** A step of c keeps the invariant of the shared state, c's own knowledge and its guarantee. */
  ghost predicate Keeps(s: Sys, s': Sys, c: nat)
    requires Sized(s)
  {
    Core(s') && Guarantee(s, s', c) && PcOk(s', c)
  }

  lemma IdleStep(s: Sys, c: nat)
    requires Inv(s) && c < |s.cpus| && s.cpus[c].Idle?
    ensures Keeps(s, Next(s, c), c)
  {
    SpinCore(s, c);
  }

  lemma EnterStep(s: Sys, c: nat)
    requires Inv(s) && c < |s.cpus| && s.cpus[c].Enter?
    ensures Keeps(s, Next(s, c), c)
  {
    assert PcOk(s, c);
    var Enter(p, ret) := s.cpus[c];
    MoveCore(s, c, WantLock(p, s.mem.pages[p].order, ret));
  }

  lemma ReadOrderStep(s: Sys, c: nat)
    requires Inv(s) && c < |s.cpus| && s.cpus[c].ReadOrder?
    ensures Keeps(s, Next(s, c), c)
  {
    assert PcOk(s, c);
    var ReadOrder(p, k, ret) := s.cpus[c];
    var q := Buddy(p, k);
    MoveCore(s, c, if k < MAX_ALLOC_ORDER && q <= s.last && s.mem.pages[q].order == k then ReadFlag(p, k, ret)
      else PutOrder(p, k, ret));
    BuddyReadable(s, c, p, k);
  }

  lemma ReadFlagStep(s: Sys, c: nat)
    requires Inv(s) && c < |s.cpus| && s.cpus[c].ReadFlag?
    ensures Keeps(s, Next(s, c), c)
  {
    assert PcOk(s, c);
    var ReadFlag(p, k, ret) := s.cpus[c];
    FlagDecides(s, c, p, k, ret);
    MoveCore(s, c, if s.mem.pages[Buddy(p, k)].flags.buddy then ClearFlags(p, k, ret) else PutOrder(p, k, ret));
  }

  /** The first read: a managed buddy whose order field is k heads a block of order k, and a
      buddy free-listed at order k has that order field. */
  lemma BuddyReadable(s: Sys, c: nat, p: nat, k: nat)
    requires Core(s) && Holds(s, c, p, k)
    ensures var q := Buddy(p, k);
      && (q in s.part && q < |s.mem.pages| && s.mem.pages[q].order == k ==> s.part[q].pfn == q && s.part[q].order == k)
      && (k < MAX_ALLOC_ORDER && Has(s.part, q, k, Listed) ==> q <= s.last && s.mem.pages[q].order == k)
  {
    var q := Buddy(p, k);
    if q in s.part {
      BuddyIsHead(s.part, p, k);
      assert PlaceOk(s, q);
    }
  }

  /** The second read: it decides whether the buddy is free-listed. */
  lemma FlagDecides(s: Sys, c: nat, p: nat, k: nat, ret: Ret)
    requires Inv(s) && c < |s.cpus| && s.cpus[c] == ReadFlag(p, k, ret)
    ensures Buddy(p, k) < |s.mem.pages|
    ensures s.mem.pages[Buddy(p, k)].flags.buddy <==> Has(s.part, Buddy(p, k), k, Listed)
  {
    var q := Buddy(p, k);
    assert PcOk(s, c);
    assert FlagOk(s, q);
    if q in s.part {
      assert PlaceOk(s, q);
      if s.part[q].place.Held? && s.part[q].place.cpu < |s.cpus| { assert PcOk(s, s.part[q].place.cpu); }
    }
  }

  lemma SpinCore(s: Sys, c: nat)
    requires Core(s) && c < |s.cpus|
    ensures Guarantee(s, s, c)
  {
    assert s.cpus == s.cpus[c := s.cpus[c]];
  }

  lemma WantLockStep(s: Sys, c: nat)
    requires Inv(s) && c < |s.cpus| && s.cpus[c].WantLock?
    ensures Keeps(s, Next(s, c), c)
  {
    assert PcOk(s, c);
    SpinCore(s, c);
    var WantLock(p, k, ret) := s.cpus[c];
    if s.locks[k] == None { AcquireCore(s, c, k, ReadOrder(p, k, ret)); }
  }

  lemma SeekStep(s: Sys, c: nat)
    requires Inv(s) && c < |s.cpus| && s.cpus[c].Seek?
    ensures Keeps(s, Next(s, c), c)
  {
    assert PcOk(s, c);
    SpinCore(s, c);
    var Seek(req, k) := s.cpus[c];
    if k > MAX_ALLOC_ORDER { MoveCore(s, c, Idle); } else if s.locks[k] == None { AcquireCore(s, c, k, Look(req, k)); }
  }

  lemma DropMergedStep(s: Sys, c: nat)
    requires Inv(s) && c < |s.cpus| && s.cpus[c].DropMerged?
    ensures Keeps(s, Next(s, c), c)
  {
    assert PcOk(s, c);
    var DropMerged(p, k, ret) := s.cpus[c];
    ReleaseCore(s, c, k, WantLock(p, k + 1, ret));
  }

  lemma DropPutStep(s: Sys, c: nat)
    requires Inv(s) && c < |s.cpus| && s.cpus[c].DropPut?
    ensures Keeps(s, Next(s, c), c)
  {
    assert PcOk(s, c);
    var DropPut(k, ret) := s.cpus[c];
    ReleaseCore(s, c, k, Return(ret));
  }

  lemma UnlockAllocStep(s: Sys, c: nat)
    requires Inv(s) && c < |s.cpus| && (s.cpus[c].DropEmpty? || s.cpus[c].DropTaken?)
    ensures Keeps(s, Next(s, c), c)
  {
    hide PlaceOk, FlagOk, ListOk, LockOk, Guarantee, Whole, Coalesced;
    assert PcOk(s, c);
    match s.cpus[c]
    case DropEmpty(req, k) => ReleaseCore(s, c, k, Seek(req, k + 1));
    case DropTaken(p, k, req) => ReleaseCore(s, c, k, Halve(p, k, req));
  }

  /** c writes only pages of its own blocks inside the critical section of their order. */
  ghost predicate WritesOwn(s: Sys, s': Sys, c: nat, k: nat)
    requires Sized(s)
  {
    && |s'.cpus| == |s.cpus| && c < |s.cpus| && Locked(s, c, k)
      && s' == s.(mem := s'.mem, cpus := s.cpus[c := s'.cpus[c]])
    && s'.mem == s.mem.(pages := s'.mem.pages) && |s'.mem.pages| == |s.mem.pages|
    && forall x: nat :: x < |s.mem.pages| && s'.mem.pages[x] != s.mem.pages[x] ==>
         x in s.part && s.part[x].pfn == x && s.part[x].order == k && Mine(s, c, s.part[x])
  }

  lemma WriteGuarantee(s: Sys, s': Sys, c: nat, k: nat)
    requires Sized(s) && WritesOwn(s, s', c, k)
    ensures Guarantee(s, s', c)
  {
    forall p | p in s.part && ExactHeld(s, c, p) ensures s'.mem.pages[p].order == s.mem.pages[p].order {
      assert s.part[p].order != k;
    }
  }

  lemma WriteLists(s: Sys, s': Sys, c: nat, k: nat)
    requires Core(s) && WritesOwn(s, s', c, k) && Critical(s'.cpus[c]) == Critical(s.cpus[c])
    ensures forall j: nat :: j <= MAX_ALLOC_ORDER ==> ListOk(s', j) && LockOk(s', j)
  {
    forall j: nat | j <= MAX_ALLOC_ORDER ensures ListOk(s', j) && LockOk(s', j) { assert ListOk(s, j) && LockOk(s, j); }
  }

  /** Writing the page of a block head in c's hands. */
  lemma WriteCore(s: Sys, c: nat, p: nat, k: nat, page: Page, pc: Pc)
    requires Core(s) && c < |s.cpus| && Has(s.part, p, k, Held(c)) && p < |s.mem.pages| && page.order <= k
    requires Hands(pc) == Hands(s.cpus[c]) && Critical(pc) == Critical(s.cpus[c]) && !s.cpus[c].Unchain?
    requires page.flags.buddy ==> page.order == k && FlagInHand(pc, p)
    requires s.cpus[c].PutLink? || s.cpus[c].TakeFlag? ==> s.cpus[c].p == p
    requires Locked(s, c, k)
    ensures Core(GoTo(Write(s, p, page), c, pc)) && Guarantee(s, GoTo(Write(s, p, page), c, pc), c)
  {
    hide ListOk, LockOk, PlaceOk, FlagOk, Guarantee, Coalesced, WritesOwn;
    var s' := GoTo(Write(s, p, page), c, pc);
    WriteIsOwn(s, c, p, k, page, pc);
    WriteGuarantee(s, s', c, k);
    WriteLists(s, s', c, k);
    forall f | f in s.part ensures PlaceOk(s', f) {
      HeadInPart(s.part, f);
      WritePlace(s, c, p, k, page, pc, f);
    }
    forall x: nat | x < |s.mem.pages| ensures FlagOk(s', x) { WriteFlag(s, c, p, k, page, pc, x); }
  }

  lemma WriteIsOwn(s: Sys, c: nat, p: nat, k: nat, page: Page, pc: Pc)
    requires Core(s) && c < |s.cpus| && Has(s.part, p, k, Held(c)) && p < |s.mem.pages| && page.order <= k
    requires Locked(s, c, k)
    ensures WritesOwn(s, GoTo(Write(s, p, page), c, pc), c, k)
  {
  }

  lemma WritePlace(s: Sys, c: nat, p: nat, k: nat, page: Page, pc: Pc, f: nat)
    requires Sized(s) && c < |s.cpus| && Has(s.part, p, k, Held(c)) && p < |s.mem.pages| && page.order <= k
    requires Hands(pc) == Hands(s.cpus[c]) && !s.cpus[c].Unchain?
    requires f in s.part && PlaceOk(s, f) && Has(s.part, s.part[f].pfn, s.part[f].order, s.part[f].place)
    ensures PlaceOk(GoTo(Write(s, p, page), c, pc), f)
  {
    hide Hands;
  }

  lemma WriteFlag(s: Sys, c: nat, p: nat, k: nat, page: Page, pc: Pc, x: nat)
    requires Sized(s) && c < |s.cpus| && Has(s.part, p, k, Held(c)) && p < |s.mem.pages|
    requires page.flags.buddy ==> page.order == k && FlagInHand(pc, p)
    requires s.cpus[c].PutLink? || s.cpus[c].TakeFlag? ==> s.cpus[c].p == p
    requires x < |s.mem.pages| && FlagOk(s, x)
    ensures FlagOk(GoTo(Write(s, p, page), c, pc), x)
  {
  }

  lemma PutOrderStep(s: Sys, c: nat)
    requires Inv(s) && c < |s.cpus| && s.cpus[c].PutOrder?
    ensures Keeps(s, Next(s, c), c)
  {
    assert PcOk(s, c);
    var PutOrder(p, k, ret) := s.cpus[c];
    WriteCore(s, c, p, k, s.mem.pages[p].(order := k), PutFlag(p, k, ret));
  }

  lemma PutFlagStep(s: Sys, c: nat)
    requires Inv(s) && c < |s.cpus| && s.cpus[c].PutFlag?
    ensures Keeps(s, Next(s, c), c)
  {
    assert PcOk(s, c);
    var PutFlag(p, k, ret) := s.cpus[c];
    WriteCore(s, c, p, k, s.mem.pages[p].(flags := s.mem.pages[p].flags.(buddy := true, sub := false)),
      PutLink(p, k, ret));
  }

  lemma TakeFlagStep(s: Sys, c: nat)
    requires Inv(s) && c < |s.cpus| && s.cpus[c].TakeFlag?
    ensures Keeps(s, Next(s, c), c)
  {
    assert PcOk(s, c);
    var TakeFlag(p, k, req) := s.cpus[c];
    WriteCore(s, c, p, k, s.mem.pages[p].(flags := s.mem.pages[p].flags.(buddy := false, handed := true)),
      TakeOrder(p, k, req));
  }

  lemma TakeOrderStep(s: Sys, c: nat)
    requires Inv(s) && c < |s.cpus| && s.cpus[c].TakeOrder?
    ensures Keeps(s, Next(s, c), c)
  {
    hide PlaceOk, FlagOk, ListOk, LockOk, Guarantee;
    assert PcOk(s, c);
    var TakeOrder(p, k, req) := s.cpus[c];
    var g := s.mem.pages[p];
    var page := g.(order := req, refcount := (g.refcount + 1) % 0x1_0000_0000);
    WriteCore(s, c, p, k, page, DropTaken(p, k, req));
    TakeOrderPc(s, c, p, k, req, page);
    assert Next(s, c) == GoTo(Write(s, p, page), c, DropTaken(p, k, req));
  }

  lemma TakeOrderPc(s: Sys, c: nat, p: nat, k: nat, req: nat, page: Page)
    requires c < |s.cpus| && s.cpus[c] == TakeOrder(p, k, req) && PcOk(s, c) && page.order == req && !page.flags.buddy
    ensures PcOk(GoTo(Write(s, p, page), c, DropTaken(p, k, req)), c)
  {
  }

  lemma ClearFlagsCore(s: Sys, c: nat, p: nat, k: nat, ret: Ret)
    requires Core(s) && c < |s.cpus| && s.cpus[c] == ClearFlags(p, k, ret) && PcOk(s, c)
    requires Buddy(Buddy(p, k), k) == p != Buddy(p, k)
    ensures var s' := GoTo(ClearedPages(s, p, k), c, Unchain(p, k, ret)); Core(s') && Guarantee(s, s', c)
  {
    var s' := GoTo(ClearedPages(s, p, k), c, Unchain(p, k, ret));
    ClearedOwn(s, c, p, k, Unchain(p, k, ret));
    WriteGuarantee(s, s', c, k);
    WriteLists(s, s', c, k);
    forall f | f in s.part ensures PlaceOk(s', f) { ClearedPlace(s, s', c, p, k, ret, f); }
    forall x: nat | x < |s.mem.pages| ensures FlagOk(s', x) { ClearedFlag(s, s', c, p, k, ret, x); }
  }

  lemma ClearedOwn(s: Sys, c: nat, p: nat, k: nat, pc: Pc)
    requires Sized(s) && c < |s.cpus| && Has(s.part, p, k, Held(c)) && Has(s.part, Buddy(p, k), k, Listed)
    requires Locked(s, c, k)
    requires p < |s.mem.pages| && Buddy(p, k) < |s.mem.pages|
    ensures WritesOwn(s, GoTo(ClearedPages(s, p, k), c, pc), c, k)
  {
  }

  lemma ClearedPlace(s: Sys, s': Sys, c: nat, p: nat, k: nat, ret: Ret, f: nat)
    requires Core(s) && c < |s.cpus| && s.cpus[c] == ClearFlags(p, k, ret) && PcOk(s, c) && f in s.part
    requires s' == GoTo(ClearedPages(s, p, k), c, Unchain(p, k, ret))
    ensures PlaceOk(s', f)
  {
    assert PlaceOk(s, f);
    HeadInPart(s.part, f);
  }

  lemma ClearedFlag(s: Sys, s': Sys, c: nat, p: nat, k: nat, ret: Ret, x: nat)
    requires Core(s) && c < |s.cpus| && s.cpus[c] == ClearFlags(p, k, ret) && PcOk(s, c) && x < |s.mem.pages|
    requires s' == GoTo(ClearedPages(s, p, k), c, Unchain(p, k, ret))
    ensures FlagOk(s', x)
  {
    assert FlagOk(s, x);
  }

  lemma ClearFlagsStep(s: Sys, c: nat)
    requires Inv(s) && c < |s.cpus| && s.cpus[c].ClearFlags?
    ensures Keeps(s, Next(s, c), c)
  {
    hide ClearedPages, PlaceOk, FlagOk, ListOk, LockOk, Guarantee;
    var ClearFlags(p, k, ret) := s.cpus[c];
    ClearFlagsPc(s, c, p, k, ret);
    ClearFlagsCore(s, c, p, k, ret);
    ClearFlagsNext(s, c, p, k, ret);
  }

  lemma ClearFlagsNext(s: Sys, c: nat, p: nat, k: nat, ret: Ret)
    requires Inv(s) && c < |s.cpus| && s.cpus[c] == ClearFlags(p, k, ret) && p < |s.mem.pages|
    requires Buddy(p, k) < |s.mem.pages|
    ensures Next(s, c) == GoTo(ClearedPages(s, p, k), c, Unchain(p, k, ret))
  {
    hide PlaceOk, FlagOk, ListOk, LockOk, ClearedPages, PcOk;
  }

  lemma ClearFlagsPc(s: Sys, c: nat, p: nat, k: nat, ret: Ret)
    requires Inv(s) && c < |s.cpus| && s.cpus[c] == ClearFlags(p, k, ret)
    ensures PcOk(s, c) && Buddy(Buddy(p, k), k) == p != Buddy(p, k)
    ensures p < |s.mem.pages| && Buddy(p, k) < |s.mem.pages|
    ensures PcOk(GoTo(ClearedPages(s, p, k), c, Unchain(p, k, ret)), c)
  {
    hide PlaceOk, FlagOk, ListOk, LockOk;
    assert PcOk(s, c);
    assert FitsAt(s.part, p);
    BuddyHalves(p, k);
    ClearedPc(s, c, p, k, ret);
  }

  lemma ClearedPc(s: Sys, c: nat, p: nat, k: nat, ret: Ret)
    requires c < |s.cpus| && s.cpus[c] == ClearFlags(p, k, ret) && PcOk(s, c) && Buddy(p, k) != p
    ensures PcOk(GoTo(ClearedPages(s, p, k), c, Unchain(p, k, ret)), c)
  {
    hide Buddy;
    var q, s' := Buddy(p, k), GoTo(ClearedPages(s, p, k), c, Unchain(p, k, ret));
    assert s'.part == s.part && s'.locks == s.locks;
    assert forall x: nat :: x < |s.mem.pages| ==>
      s'.mem.pages[x].order == s.mem.pages[x].order
        && (s'.mem.pages[x].flags.buddy ==> s.mem.pages[x].flags.buddy && x != q);
    assert s'.cpus[c] == Unchain(p, k, ret);
  }

  /** One list changes under its lock; the partition changes only on c's own blocks. */
  ghost predicate MovesOwn(s: Sys, s': Sys, c: nat, k: nat)
    requires Sized(s)
  {
    && Sized(s') && s'.last == s.last && s'.locks == s.locks && s'.mem.pages == s.mem.pages && Locked(s, c, k)
    && |s'.cpus| == |s.cpus| && c < |s.cpus| && s'.cpus == s.cpus[c := s'.cpus[c]]
    && s'.part.Keys == s.part.Keys
    && forall f :: f in s.part && s'.part[f] != s.part[f] ==>
         Mine(s, c, s.part[f]) && s.part[f].order == k
         && (s'.part[f].place == Held(c) || (s'.part[f].place == Listed && s'.part[f].order == k))
  }

  lemma MoveGuarantee(s: Sys, s': Sys, c: nat, k: nat)
    requires Sized(s) && MovesOwn(s, s', c, k)
    ensures Guarantee(s, s', c)
  {
    forall f | f in s.part ensures PieceKept(s, s', c, f) {}
    forall p | p in s.part && ExactHeld(s, c, p) ensures s'.part[p] == s.part[p] { assert s.part[p].order != k; }
  }

  /** A frame whose block did not change keeps its place, if c still has what it had. */
  lemma OtherPlace(s: Sys, s': Sys, c: nat, f: nat)
    requires Sized(s) && f in s.part && f in s'.part && s'.part[f] == s.part[f] && PlaceOk(s, f)
    requires s'.locks == s.locks && s'.last == s.last && |s'.cpus| == |s.cpus| && c < |s.cpus|
    requires s'.cpus == s.cpus[c := s'.cpus[c]]
    requires s.part[f].pfn < |s.mem.pages| == |s'.mem.pages|
    requires s'.mem.pages[s.part[f].pfn] == s.mem.pages[s.part[f].pfn]
    requires s.part[f].place == Held(c) ==> s.part[f].pfn in Hands(s'.cpus[c])
    requires s.part[f].place == Listed ==> !(s.cpus[c].Unchain? && s.part[f].pfn == Buddy(s.cpus[c].p, s.cpus[c].k))
    ensures PlaceOk(s', f)
  {
  }

  lemma UnchainLists(s: Sys, c: nat, p: nat, k: nat, pc: Pc)
    requires Core(s) && c < |s.cpus| && Has(s.part, p, k, Held(c)) && k < MAX_ALLOC_ORDER
    requires Has(s.part, Buddy(p, k), k, Listed)
    requires Critical(pc) == Critical(s.cpus[c])
    ensures var s' := GoTo(Joined(s, c, p, k), c, pc); forall j: nat ::
      j <= MAX_ALLOC_ORDER ==> ListOk(s', j) && LockOk(s', j)
  {
    JoinHeld(s.part, p, k, c);
    assert ListOk(s, k);
    UnlinkMembers(s.mem.lists[k], Buddy(p, k));
    forall j: nat | j <= MAX_ALLOC_ORDER
      ensures ListOk(GoTo(Joined(s, c, p, k), c, pc), j) && LockOk(GoTo(Joined(s, c, p, k), c, pc), j)
    {
      assert ListOk(s, j) && LockOk(s, j);
    }
  }

  lemma UnchainMoves(s: Sys, c: nat, p: nat, k: nat, ret: Ret)
    requires Core(s) && c < |s.cpus| && s.cpus[c] == Unchain(p, k, ret) && PcOk(s, c)
    ensures MovesOwn(s, GoTo(Joined(s, c, p, k), c, DropMerged(Min(p, Buddy(p, k)), k, ret)), c, k)
  {
    hide PlaceOk, FlagOk, ListOk, LockOk, Coalesced, RetHolds, RetOk;
    JoinHeld(s.part, p, k, c);
  }

  lemma UnchainCore(s: Sys, c: nat, p: nat, k: nat, ret: Ret)
    requires Core(s) && c < |s.cpus| && s.cpus[c] == Unchain(p, k, ret) && PcOk(s, c)
    ensures Core(GoTo(Joined(s, c, p, k), c, DropMerged(Min(p, Buddy(p, k)), k, ret)))
    ensures Guarantee(s, GoTo(Joined(s, c, p, k), c, DropMerged(Min(p, Buddy(p, k)), k, ret)), c)
  {
    hide PlaceOk, FlagOk, ListOk, LockOk, Guarantee, Coalesced, RetHolds, RetOk, MovesOwn;
    var s' := GoTo(Joined(s, c, p, k), c, DropMerged(Min(p, Buddy(p, k)), k, ret));
    JoinHeld(s.part, p, k, c);
    UnchainMoves(s, c, p, k, ret);
    MoveGuarantee(s, s', c, k);
    UnchainLists(s, c, p, k, DropMerged(Min(p, Buddy(p, k)), k, ret));
    assert PlaceOk(s, Buddy(p, k));
    forall f | f in s.part ensures PlaceOk(s', f) {
      assert PlaceOk(s, f);
      HeadInPart(s.part, f);
      JoinedPlace(s, s', c, p, k, ret, f);
    }
    forall x: nat | x < |s.mem.pages| ensures FlagOk(s', x) { JoinedFlag(s, c, p, k, ret, x); }
  }

  lemma JoinedFlag(s: Sys, c: nat, p: nat, k: nat, ret: Ret, x: nat)
    requires Core(s) && c < |s.cpus| && s.cpus[c] == Unchain(p, k, ret) && PcOk(s, c) && x < |s.mem.pages|
    ensures FlagOk(GoTo(Joined(s, c, p, k), c, DropMerged(Min(p, Buddy(p, k)), k, ret)), x)
  {
    JoinHeld(s.part, p, k, c);
    assert FlagOk(s, x);
  }

  lemma UnchainStep(s: Sys, c: nat)
    requires Inv(s) && c < |s.cpus| && s.cpus[c].Unchain?
    ensures Keeps(s, Next(s, c), c)
  {
    assert PcOk(s, c);
    var Unchain(p, k, ret) := s.cpus[c];
    UnchainCore(s, c, p, k, ret);
    UnchainPc(s, c, p, k, ret);
    assert Next(s, c) == GoTo(Joined(s, c, p, k), c, DropMerged(Min(p, Buddy(p, k)), k, ret));
  }

  lemma UnchainPc(s: Sys, c: nat, p: nat, k: nat, ret: Ret)
    requires Core(s) && c < |s.cpus| && s.cpus[c] == Unchain(p, k, ret) && PcOk(s, c)
    ensures PcOk(GoTo(Joined(s, c, p, k), c, DropMerged(Min(p, Buddy(p, k)), k, ret)), c)
  {
    JoinHeld(s.part, p, k, c);
    assert PlaceOk(s, Buddy(p, k));
  }

  lemma JoinedPlace(s: Sys, s': Sys, c: nat, p: nat, k: nat, ret: Ret, f: nat)
    requires Sized(s) && c < |s.cpus| && s.cpus[c] == Unchain(p, k, ret) && Holds(s, c, p, k) && k < MAX_ALLOC_ORDER
    requires Has(s.part, Buddy(p, k), k, Listed) && PlaceOk(s, Buddy(p, k)) && f in s.part && PlaceOk(s, f)
    requires Has(s.part, s.part[f].pfn, s.part[f].order, s.part[f].place)
    requires s' == GoTo(Joined(s, c, p, k), c, DropMerged(Min(p, Buddy(p, k)), k, ret))
    requires f in s'.part && s'.part[f] == if s.part[f] == s.part[p] || s.part[f] == s.part[Buddy(p, k)]
                                           then Piece(Min(p, Buddy(p, k)), k + 1, Held(c)) else s.part[f]
    ensures PlaceOk(s', f)
  {
    var q := Buddy(p, k);
    if s.part[f] != s.part[p] && s.part[f] != s.part[q] {
      assert s.part[f].pfn != p && s.part[f].pfn != q;
      OtherPlace(s, s', c, f);
    } else {
      HandPlace(s', c, Min(p, q), k + 1, f);
    }
  }

  /** A frame of a block in c's hands is where its place says. */
  lemma HandPlace(s: Sys, c: nat, p: nat, k: nat, f: nat)
    requires |s.locks| == ORDERS && f in s.part && s.part[f] == Piece(p, k, Held(c)) && c < |s.cpus|
    requires p in Hands(s.cpus[c])
    requires f <= s.last && p < |s.mem.pages| && k <= MAX_ALLOC_ORDER && s.mem.pages[p].order <= k
    ensures PlaceOk(s, f)
  {
  }

  lemma AppendLists(s: Sys, c: nat, p: nat, k: nat, pc: Pc)
    requires Core(s) && c < |s.cpus| && Has(s.part, p, k, Held(c)) && k <= MAX_ALLOC_ORDER
    requires Critical(pc) == Critical(s.cpus[c])
    ensures var s' := GoTo(Appended(s, p, k), c, pc); forall j: nat ::
      j <= MAX_ALLOC_ORDER ==> ListOk(s', j) && LockOk(s', j)
  {
    MoveFrames(s.part, p, k, Listed);
    var s' := GoTo(Appended(s, p, k), c, pc);
    forall j: nat | j <= MAX_ALLOC_ORDER ensures ListOk(s', j) && LockOk(s', j) {
      assert ListOk(s, j) && LockOk(s, j);
      if j == k {
        assert p !in s.mem.lists[k];
        AppendDistinct(s.mem.lists[k], p);
      }
    }
  }

  lemma AppendCore(s: Sys, c: nat, p: nat, k: nat, ret: Ret)
    requires Core(s) && c < |s.cpus| && s.cpus[c] == PutLink(p, k, ret) && PcOk(s, c)
    ensures Core(GoTo(Appended(s, p, k), c, DropPut(k, ret)))
    ensures Guarantee(s, GoTo(Appended(s, p, k), c, DropPut(k, ret)), c)
  {
    var s' := GoTo(Appended(s, p, k), c, DropPut(k, ret));
    MoveFrames(s.part, p, k, Listed);
    assert MovesOwn(s, s', c, k);
    MoveGuarantee(s, s', c, k);
    AppendLists(s, c, p, k, DropPut(k, ret));
    forall f | f in s.part ensures PlaceOk(s', f) {
      assert PlaceOk(s, f);
      HeadInPart(s.part, f);
      AppendPlace(s, s', c, p, k, ret, f);
    }
    forall x: nat | x < |s.mem.pages| ensures FlagOk(s', x) {
      assert FlagOk(s, x);
      AppendFlag(s, s', c, p, k, ret, x);
    }
    forall x: nat, j: nat | j < MAX_ALLOC_ORDER && Has(s'.part, x, j, Listed)
      ensures !Has(s'.part, Buddy(x, j), j, Listed)
    {
      InsertCoalesced(s.part, p, k, x, j);
    }
  }

  lemma AppendPlace(s: Sys, s': Sys, c: nat, p: nat, k: nat, ret: Ret, f: nat)
    requires Sized(s) && c < |s.cpus| && s.cpus[c] == PutLink(p, k, ret) && Has(s.part, p, k, Held(c))
    requires k <= MAX_ALLOC_ORDER
    requires p < |s.mem.pages| && s.mem.pages[p].order == k && s.mem.pages[p].flags.buddy && f in s.part
    requires PlaceOk(s, f)
    requires Has(s.part, s.part[f].pfn, s.part[f].order, s.part[f].place)
    requires s' == GoTo(Appended(s, p, k), c, DropPut(k, ret))
    requires f in s'.part && s'.part[f] == if s.part[f] == s.part[p] then Piece(p, k, Listed) else s.part[f]
    ensures PlaceOk(s', f)
  {
    if s.part[f] != s.part[p] {
      assert s.part[f].pfn != p;
      OtherPlace(s, s', c, f);
    }
  }

  lemma AppendFlag(s: Sys, s': Sys, c: nat, p: nat, k: nat, ret: Ret, x: nat)
    requires Sized(s) && c < |s.cpus| && s.cpus[c] == PutLink(p, k, ret) && Has(s.part, p, k, Held(c))
    requires k <= MAX_ALLOC_ORDER
    requires p < |s.mem.pages| && s.mem.pages[p].order == k && x < |s.mem.pages| && FlagOk(s, x)
    requires s' == GoTo(Appended(s, p, k), c, DropPut(k, ret)) && s'.part.Keys == s.part.Keys
    requires x in s.part ==> s'.part[x] == if s.part[x] == s.part[p] then Piece(p, k, Listed) else s.part[x]
    ensures FlagOk(s', x)
  {
  }

  lemma PutLinkStep(s: Sys, c: nat)
    requires Inv(s) && c < |s.cpus| && s.cpus[c].PutLink?
    ensures Keeps(s, Next(s, c), c)
  {
    assert PcOk(s, c);
    var PutLink(p, k, ret) := s.cpus[c];
    AppendCore(s, c, p, k, ret);
    MoveFrames(s.part, p, k, Listed);
    assert Next(s, c) == GoTo(Appended(s, p, k), c, DropPut(k, ret));
  }

  lemma TakenLists(s: Sys, c: nat, p: nat, k: nat, pc: Pc)
    requires Core(s) && c < |s.cpus| && Has(s.part, p, k, Listed) && k <= MAX_ALLOC_ORDER
    requires Critical(pc) == Critical(s.cpus[c])
    ensures var s' := GoTo(Taken(s, c, p, k), c, pc); forall j: nat ::
      j <= MAX_ALLOC_ORDER ==> ListOk(s', j) && LockOk(s', j)
  {
    MoveFrames(s.part, p, k, Held(c));
    var s' := GoTo(Taken(s, c, p, k), c, pc);
    forall j: nat | j <= MAX_ALLOC_ORDER ensures ListOk(s', j) && LockOk(s', j) {
      assert ListOk(s, j) && LockOk(s, j);
      if j == k { UnlinkMembers(s.mem.lists[k], p); }
    }
  }

  lemma TakenCore(s: Sys, c: nat, p: nat, k: nat, req: nat)
    requires Core(s) && c < |s.cpus| && s.cpus[c] == Look(req, k) && PcOk(s, c) && Has(s.part, p, k, Listed)
    ensures Core(GoTo(Taken(s, c, p, k), c, TakeFlag(p, k, req)))
    ensures Guarantee(s, GoTo(Taken(s, c, p, k), c, TakeFlag(p, k, req)), c)
    ensures p < |s.mem.pages| && s.mem.pages[p].order == k && s.mem.pages[p].flags.buddy
  {
    hide *;
    TakenWhole(s, c, p, k, req);
    var s' := GoTo(Taken(s, c, p, k), c, TakeFlag(p, k, req));
    TakenPlaces(s, s', c, p, k, req);
    TakenFlags(s, s', c, p, k, req);
    TakenLists(s, c, p, k, TakeFlag(p, k, req));
    CoreFrom(s');
  }

  lemma TakenWhole(s: Sys, c: nat, p: nat, k: nat, req: nat)
    requires Core(s) && c < |s.cpus| && s.cpus[c] == Look(req, k) && PcOk(s, c) && Has(s.part, p, k, Listed)
    ensures Sized(s) && k <= MAX_ALLOC_ORDER && Critical(TakeFlag(p, k, req)) == Critical(s.cpus[c])
    ensures Taken(s, c, p, k).cpus == s.cpus
    ensures var s' := GoTo(Taken(s, c, p, k), c, TakeFlag(p, k, req));
            Sized(s') && Whole(s'.part) && Coalesced(s'.part) && s'.part.Keys == s.part.Keys
              && |s'.mem.pages| == |s.mem.pages|
  {
    MoveFrames(s.part, p, k, Held(c));
    FewerListedCoalesced(s.part, Taken(s, c, p, k).part, p);
  }

  lemma TakenFlags(s: Sys, s': Sys, c: nat, p: nat, k: nat, req: nat)
    requires Core(s) && c < |s.cpus| && s.cpus[c] == Look(req, k) && PcOk(s, c) && Has(s.part, p, k, Listed)
    requires s' == GoTo(Taken(s, c, p, k), c, TakeFlag(p, k, req))
    ensures forall x: nat :: x < |s.mem.pages| ==> FlagOk(s', x)
  {
    MoveFrames(s.part, p, k, Held(c));
    assert PlaceOk(s, p);
    forall x: nat | x < |s.mem.pages| ensures FlagOk(s', x) {
      assert FlagOk(s, x);
      TakenFlag(s, s', c, p, k, req, x);
    }
  }

  lemma TakenPlaces(s: Sys, s': Sys, c: nat, p: nat, k: nat, req: nat)
    requires Core(s) && c < |s.cpus| && s.cpus[c] == Look(req, k) && PcOk(s, c) && Has(s.part, p, k, Listed)
    requires s' == GoTo(Taken(s, c, p, k), c, TakeFlag(p, k, req))
    ensures p < |s.mem.pages| && s.mem.pages[p].order == k && s.mem.pages[p].flags.buddy
    ensures Sized(s') && s'.part.Keys == s.part.Keys && Guarantee(s, s', c)
    ensures forall f :: f in s.part ==> PlaceOk(s', f)
  {
    MoveFrames(s.part, p, k, Held(c));
    assert PlaceOk(s, p);
    assert MovesOwn(s, s', c, k);
    MoveGuarantee(s, s', c, k);
    forall f | f in s.part ensures PlaceOk(s', f) {
      assert PlaceOk(s, f);
      HeadInPart(s.part, f);
      TakenPlace(s, s', c, p, k, req, f);
    }
  }

  lemma TakenPlace(s: Sys, s': Sys, c: nat, p: nat, k: nat, req: nat, f: nat)
    requires Sized(s) && c < |s.cpus| && s.cpus[c] == Look(req, k) && Has(s.part, p, k, Listed) && k <= MAX_ALLOC_ORDER
    requires f in s.part && PlaceOk(s, f) && Has(s.part, s.part[f].pfn, s.part[f].order, s.part[f].place)
    requires PlaceOk(s, p)
    requires s' == GoTo(Taken(s, c, p, k), c, TakeFlag(p, k, req))
    requires f in s'.part && s'.part[f] == if s.part[f] == s.part[p] then Piece(p, k, Held(c)) else s.part[f]
    ensures PlaceOk(s', f)
  {
    if s.part[f] == s.part[p] { HandPlace(s', c, p, k, f); } else { OtherPlace(s, s', c, f); }
  }

  lemma TakenFlag(s: Sys, s': Sys, c: nat, p: nat, k: nat, req: nat, x: nat)
    requires Sized(s) && c < |s.cpus| && s.cpus[c] == Look(req, k) && Has(s.part, p, k, Listed) && k <= MAX_ALLOC_ORDER
    requires x < |s.mem.pages| && FlagOk(s, x) && s' == GoTo(Taken(s, c, p, k), c, TakeFlag(p, k, req))
    requires s'.part.Keys == s.part.Keys
    requires x in s.part ==> s'.part[x] == if s.part[x] == s.part[p] then Piece(p, k, Held(c)) else s.part[x]
    ensures FlagOk(s', x)
  {
  }

  lemma LookEmptyStep(s: Sys, c: nat)
    requires Inv(s) && c < |s.cpus| && s.cpus[c].Look? && PcOk(s, c) && s.mem.lists[s.cpus[c].k] == []
    ensures Keeps(s, Next(s, c), c)
  {
    var Look(req, k) := s.cpus[c];
    MoveCore(s, c, DropEmpty(req, k));
    assert Next(s, c) == GoTo(s, c, DropEmpty(req, k));
  }

  lemma LookTakesStep(s: Sys, c: nat)
    requires Inv(s) && c < |s.cpus| && s.cpus[c].Look? && PcOk(s, c) && s.mem.lists[s.cpus[c].k] != []
    ensures Keeps(s, Next(s, c), c)
  {
    var Look(req, k) := s.cpus[c];
    var p := NewestTaken(s, c, req, k);
    TakenCore(s, c, p, k, req);
    TakenPc(s, c, p, k, req);
  }

  lemma NewestTaken(s: Sys, c: nat, req: nat, k: nat) returns (p: nat)
    requires Inv(s) && c < |s.cpus| && s.cpus[c] == Look(req, k) && k <= MAX_ALLOC_ORDER && s.mem.lists[k] != []
    ensures p == s.mem.lists[k][|s.mem.lists[k]| - 1] && Has(s.part, p, k, Listed)
    ensures Next(s, c) == GoTo(Taken(s, c, p, k), c, TakeFlag(p, k, req))
  {
    p := s.mem.lists[k][|s.mem.lists[k]| - 1];
    assert ListOk(s, k) && p in s.mem.lists[k];
  }

  lemma TakenPc(s: Sys, c: nat, p: nat, k: nat, req: nat)
    requires Core(s) && c < |s.cpus| && s.cpus[c] == Look(req, k) && PcOk(s, c) && Has(s.part, p, k, Listed)
    requires p < |s.mem.pages| && s.mem.pages[p].order == k && s.mem.pages[p].flags.buddy
    ensures PcOk(GoTo(Taken(s, c, p, k), c, TakeFlag(p, k, req)), c)
  {
    MoveFrames(s.part, p, k, Held(c));
  }

  lemma LookStep(s: Sys, c: nat)
    requires Inv(s) && c < |s.cpus| && s.cpus[c].Look?
    ensures Keeps(s, Next(s, c), c)
  {
    assert PcOk(s, c);
    if s.mem.lists[s.cpus[c].k] == [] { LookEmptyStep(s, c); } else { LookTakesStep(s, c); }
  }

  lemma HandOutCore(s: Sys, c: nat, p: nat, k: nat)
    requires Core(s) && c < |s.cpus| && s.cpus[c] == Halve(p, k, k) && PcOk(s, c)
    ensures Keeps(s, GoTo(s.(part := Paint(s.part, p, k, Allocated)), c, Idle), c)
  {
    var s' := GoTo(s.(part := Paint(s.part, p, k, Allocated)), c, Idle);
    MoveFrames(s.part, p, k, Allocated);
    HandOutGuarantee(s, s', c, p, k);
    forall f | f in s.part ensures PlaceOk(s', f) {
      assert PlaceOk(s, f);
      HeadInPart(s.part, f);
      HandOutPlace(s, s', c, p, k, f);
    }
    forall x: nat | x < |s.mem.pages| ensures FlagOk(s', x) {
      assert FlagOk(s, x);
      HandOutFlag(s, s', c, p, k, x);
    }
    FewerListedCoalesced(s.part, s'.part, p);
    HandOutLists(s, s', c, p);
  }

  lemma HandOutFlag(s: Sys, s': Sys, c: nat, p: nat, k: nat, x: nat)
    requires Sized(s) && c < |s.cpus| && s.cpus[c] == Halve(p, k, k) && Has(s.part, p, k, Held(c))
    requires x < |s.mem.pages| && FlagOk(s, x) && s' == GoTo(s.(part := s'.part), c, Idle)
    requires s'.part.Keys == s.part.Keys
    requires x in s.part ==> s'.part[x] == if s.part[x] == s.part[p] then Piece(p, k, Allocated) else s.part[x]
    ensures FlagOk(s', x)
  {
  }

  lemma HandOutGuarantee(s: Sys, s': Sys, c: nat, p: nat, k: nat)
    requires Sized(s) && c < |s.cpus| && Has(s.part, p, k, Held(c)) && s' == GoTo(s.(part := s'.part), c, Idle)
    requires s'.part.Keys == s.part.Keys
    requires forall f ::
      f in s.part ==> s'.part[f] == if s.part[f] == s.part[p] then Piece(p, k, Allocated) else s.part[f]
    ensures Guarantee(s, s', c)
  {
    forall f | f in s.part ensures PieceKept(s, s', c, f) {}
  }

  lemma HandOutLists(s: Sys, s': Sys, c: nat, p: nat)
    requires Core(s) && c < |s.cpus| && Critical(s.cpus[c]) == None && s' == GoTo(s.(part := s'.part), c, Idle)
    requires p in s.part && s.part[p].place != Listed && ListedButOne(s.part, s'.part, p)
    ensures forall j: nat :: j <= MAX_ALLOC_ORDER ==> ListOk(s', j) && LockOk(s', j)
  {
    forall j: nat | j <= MAX_ALLOC_ORDER ensures ListOk(s', j) && LockOk(s', j) { assert ListOk(s, j) && LockOk(s, j); }
  }

  lemma HandOutPlace(s: Sys, s': Sys, c: nat, p: nat, k: nat, f: nat)
    requires Sized(s) && c < |s.cpus| && s.cpus[c] == Halve(p, k, k) && Has(s.part, p, k, Held(c))
    requires k <= MAX_ALLOC_ORDER
    requires f in s.part && PlaceOk(s, f) && Has(s.part, s.part[f].pfn, s.part[f].order, s.part[f].place)
    requires p < |s.mem.pages| && s.mem.pages[p].order == k && s' == GoTo(s.(part := s'.part), c, Idle)
    requires f in s'.part && s'.part[f] == if s.part[f] == s.part[p] then Piece(p, k, Allocated) else s.part[f]
    ensures PlaceOk(s', f)
  {
    if s.part[f] != s.part[p] { OtherPlace(s, s', c, f); }
  }

  lemma HalvedPlace(s: Sys, s': Sys, c: nat, p: nat, k: nat, req: nat, f: nat)
    requires Sized(s) && c < |s.cpus| && s.cpus[c] == Halve(p, k + 1, req) && Has(s.part, p, k + 1, Held(c))
    requires req <= k < MAX_ALLOC_ORDER
    requires f in s.part && PlaceOk(s, f) && Has(s.part, s.part[f].pfn, s.part[f].order, s.part[f].place)
    requires p < |s.mem.pages| && s.mem.pages[p].order == req && Buddy(p, k) < |s.mem.pages| && Buddy(p, k) in s.part
    requires s.part[Buddy(p, k)] == s.part[p] && Buddy(p, k) != p
    requires s' == GoTo(Halved(s, c, p, k), c, Enter(Buddy(p, k), Splitting(p, k, req))) && f in s'.part
    requires s.part[f] != s.part[p] ==> s'.part[f] == s.part[f]
    requires s.part[f] == s.part[p] ==>
      s'.part[f] == Piece(p, k, Held(c)) || s'.part[f] == Piece(Buddy(p, k), k, Held(c))
    ensures PlaceOk(s', f)
  {
    if s.part[f] != s.part[p] {
      OtherPlace(s, s', c, f);
    } else {
      HandPlace(s', c, s'.part[f].pfn, k, f);
    }
  }

  lemma HalveCore(s: Sys, c: nat, p: nat, k: nat, req: nat)
    requires Core(s) && c < |s.cpus| && s.cpus[c] == Halve(p, k + 1, req) && PcOk(s, c) && req <= k
    ensures Buddy(p, k) < |s.mem.pages|
    ensures var s' := GoTo(Halved(s, c, p, k), c, Enter(Buddy(p, k), Splitting(p, k, req)));
      Core(s') && Guarantee(s, s', c)
  {
    hide *;
    HalveWhole(s, c, p, k, req);
    var s' := GoTo(Halved(s, c, p, k), c, Enter(Buddy(p, k), Splitting(p, k, req)));
    HalvePlaces(s, s', c, p, k, req);
    HalveFlags(s, s', c, p, k, req);
    CoreFrom(s');
  }

  lemma CoreFrom(s: Sys)
    requires Sized(s) && Whole(s.part) && Coalesced(s.part)
    requires forall k: nat :: k <= MAX_ALLOC_ORDER ==> ListOk(s, k) && LockOk(s, k)
    requires forall p: nat :: p < |s.mem.pages| ==> FlagOk(s, p)
    requires forall f :: f in s.part ==> PlaceOk(s, f)
    ensures Core(s)
  {
  }

  lemma HalveWhole(s: Sys, c: nat, p: nat, k: nat, req: nat)
    requires Core(s) && c < |s.cpus| && s.cpus[c] == Halve(p, k + 1, req) && PcOk(s, c) && req <= k
    ensures Sized(s) && p in s.part && Buddy(p, k) < |s.mem.pages| && Halved(s, c, p, k).cpus == s.cpus
    ensures var s' := GoTo(Halved(s, c, p, k), c, Enter(Buddy(p, k), Splitting(p, k, req)));
            Sized(s') && Whole(s'.part) && Coalesced(s'.part) && s'.part.Keys == s.part.Keys
              && |s'.mem.pages| == |s.mem.pages|
  {
    HalfInArray(s, p, k + 1);
    CutHeld(s.part, p, k, c);
  }

  lemma HalvePlaces(s: Sys, s': Sys, c: nat, p: nat, k: nat, req: nat)
    requires Core(s) && c < |s.cpus| && s.cpus[c] == Halve(p, k + 1, req) && PcOk(s, c) && req <= k
    requires p in s.part && Buddy(p, k) < |s.mem.pages|
    requires s' == GoTo(Halved(s, c, p, k), c, Enter(Buddy(p, k), Splitting(p, k, req)))
    ensures s'.part.Keys == s.part.Keys && Sized(s') && Guarantee(s, s', c)
    ensures forall f :: f in s.part ==> PlaceOk(s', f)
  {
    CutHeld(s.part, p, k, c);
    forall f | f in s.part ensures PlaceOk(s', f) && PieceKept(s, s', c, f) {
      assert PlaceOk(s, f);
      HeadInPart(s.part, f);
      HalvedPlace(s, s', c, p, k, req, f);
    }
    HalveGuarantee(s, s', c, p, k, req);
  }

  lemma HalveFlags(s: Sys, s': Sys, c: nat, p: nat, k: nat, req: nat)
    requires Core(s) && c < |s.cpus| && s.cpus[c] == Halve(p, k + 1, req) && PcOk(s, c) && req <= k
    requires p in s.part && Buddy(p, k) < |s.mem.pages|
    requires s' == GoTo(Halved(s, c, p, k), c, Enter(Buddy(p, k), Splitting(p, k, req)))
    ensures forall x: nat :: x < |s.mem.pages| ==> FlagOk(s', x)
    ensures Sized(s') && forall j: nat :: j <= MAX_ALLOC_ORDER ==> ListOk(s', j) && LockOk(s', j)
  {
    CutHeld(s.part, p, k, c);
    forall x: nat | x < |s.mem.pages| ensures FlagOk(s', x) { assert FlagOk(s, x); }
    forall j: nat | j <= MAX_ALLOC_ORDER ensures ListOk(s', j) && LockOk(s', j) { assert ListOk(s, j) && LockOk(s, j); }
  }

  lemma HalveGuarantee(s: Sys, s': Sys, c: nat, p: nat, k: nat, req: nat)
    requires Sized(s) && c < |s.cpus| && Has(s.part, p, k + 1, Held(c)) && p < |s.mem.pages|
    requires s.mem.pages[p].order == req <= k
    requires Buddy(p, k) in s.part && s.part[Buddy(p, k)] == s.part[p] && Buddy(p, k) < |s.mem.pages|
    requires |s'.cpus| == |s.cpus| && s' == GoTo(Halved(s, c, p, k), c, s'.cpus[c]) && s'.part.Keys == s.part.Keys
    requires forall f :: f in s.part ==> PieceKept(s, s', c, f)
    requires forall f :: f in s.part && s.part[f] != s.part[p] ==> s'.part[f] == s.part[f]
    ensures Guarantee(s, s', c)
  {
    forall x | x in s.part && ExactHeld(s, c, x)
      ensures s'.part[x].pfn == x && s'.part[x].order == s.part[x].order
      ensures s'.mem.pages[x].order == s.mem.pages[x].order
    {
      assert x != p && s.part[x] != s.part[p];
    }
  }

  lemma HalvePc(s: Sys, c: nat, p: nat, k: nat, req: nat)
    requires Core(s) && c < |s.cpus| && s.cpus[c] == Halve(p, k + 1, req) && PcOk(s, c) && req <= k
    requires Buddy(p, k) < |s.mem.pages|
    ensures PcOk(GoTo(Halved(s, c, p, k), c, Enter(Buddy(p, k), Splitting(p, k, req))), c)
  {
    CutHeld(s.part, p, k, c);
    assert FlagOk(s, Buddy(p, k));
  }

  lemma HalveNext(s: Sys, c: nat, p: nat, k: nat, req: nat)
    requires Inv(s) && c < |s.cpus| && s.cpus[c] == Halve(p, k + 1, req) && req <= k && Buddy(p, k) < |s.mem.pages|
    ensures PcOk(s, c) && p in s.part
    ensures Next(s, c) == GoTo(Halved(s, c, p, k), c, Enter(Buddy(p, k), Splitting(p, k, req)))
  {
    assert PcOk(s, c);
  }

  lemma HalveKeeps(s: Sys, c: nat, p: nat, k: nat, req: nat)
    requires Core(s) && c < |s.cpus| && s.cpus[c] == Halve(p, k + 1, req) && PcOk(s, c) && req <= k
    ensures Buddy(p, k) < |s.mem.pages|
    ensures Keeps(s, GoTo(Halved(s, c, p, k), c, Enter(Buddy(p, k), Splitting(p, k, req))), c)
  {
    HalveCore(s, c, p, k, req);
    HalvePc(s, c, p, k, req);
  }

  lemma HandOutNext(s: Sys, c: nat, p: nat, k: nat)
    requires Inv(s) && c < |s.cpus| && s.cpus[c] == Halve(p, k, k)
    ensures PcOk(s, c) && Next(s, c) == GoTo(s.(part := Paint(s.part, p, k, Allocated)), c, Idle)
  {
    assert PcOk(s, c);
  }

  lemma HandOutStep(s: Sys, c: nat, p: nat, k: nat)
    requires Inv(s) && c < |s.cpus| && s.cpus[c] == Halve(p, k, k)
    ensures Keeps(s, Next(s, c), c)
  {
    HandOutNext(s, c, p, k);
    HandOutCore(s, c, p, k);
  }

  lemma HalveStep(s: Sys, c: nat, p: nat, k: nat, req: nat)
    requires Inv(s) && c < |s.cpus| && s.cpus[c] == Halve(p, k + 1, req) && req <= k && PcOk(s, c)
    ensures Keeps(s, Next(s, c), c)
  {
    HalveKeeps(s, c, p, k, req);
    HalveNext(s, c, p, k, req);
  }

  /** Every step of every CPU keeps the invariant. */
  lemma StepKeeps(s: Sys, c: nat)
    requires Inv(s) && c < |s.cpus|
    ensures Keeps(s, Next(s, c), c)
  {
    match s.cpus[c]
    case Idle => IdleStep(s, c);
    case Enter(_, _) => EnterStep(s, c);
    case WantLock(_, _, _) => WantLockStep(s, c);
    case ReadOrder(_, _, _) => ReadOrderStep(s, c);
    case ReadFlag(_, _, _) => ReadFlagStep(s, c);
    case ClearFlags(_, _, _) => ClearFlagsStep(s, c);
    case Unchain(_, _, _) => UnchainStep(s, c);
    case DropMerged(_, _, _) => DropMergedStep(s, c);
    case PutOrder(_, _, _) => PutOrderStep(s, c);
    case PutFlag(_, _, _) => PutFlagStep(s, c);
    case PutLink(_, _, _) => PutLinkStep(s, c);
    case DropPut(_, _) => DropPutStep(s, c);
    case Seek(_, _) => SeekStep(s, c);
    case Look(_, _) => LookStep(s, c);
    case DropEmpty(_, _) => UnlockAllocStep(s, c);
    case TakeFlag(_, _, _) => TakeFlagStep(s, c);
    case TakeOrder(_, _, _) => TakeOrderStep(s, c);
    case DropTaken(_, _, _) => UnlockAllocStep(s, c);
    case Halve(p, k, req) =>
      assert PcOk(s, c);
      if k == req { HandOutStep(s, c, p, k); } else { HalveStep(s, c, p, k - 1, req); }
  }

  lemma KeepsInv(s: Sys, s': Sys, c: nat)
    requires Inv(s) && c < |s.cpus| && Keeps(s, s', c)
    ensures Inv(s')
  {
    forall d: nat | d < |s'.cpus| ensures PcOk(s', d) {
      if d != c {
        assert PcOk(s, d);
        PcStable(s, s', c, d);
      }
    }
  }
}
