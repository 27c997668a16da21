/** The buddy allocator of memory.c as functions on its memory: the kpage array, the free
    lists in list order, and free_pages_count. */
module BuddyMem {
  import opened Dyadic
  import opened Partition

  const PAGE_SIZE: nat := 0x1000

  datatype Option<+T> = None | Some(value: T)

  /** The bits of kpage.flags that the allocator reads or writes: RESERVED, KERNEL,
      FREE_BUDDY, FREE_SUB and ALLOCATED. */
  datatype Flags = Flags(reserved: bool, kernel: bool, buddy: bool, sub: bool, handed: bool)

  datatype Page = Page(order: nat, flags: Flags, refcount: nat)

  datatype Mem = Mem(pages: seq<Page>, lists: seq<seq<nat>>, counts: seq<int>)

  const ORDERS: nat := MAX_ALLOC_ORDER + 1

  predicate Shape(m: Mem) {
    |m.lists| == ORDERS && |m.counts| == ORDERS
  }

  /** kpage_is_free */
  predicate KpageIsFree(g: Flags) {
    !(g.reserved || g.kernel || g.buddy || g.sub || g.handed)
  }

  function SetPage(m: Mem, p: nat, page: Page): (r: Mem)
    requires p < |m.pages|
  {
    m.(pages := m.pages[p := page])
  }

  function SetList(m: Mem, k: nat, l: seq<nat>, count: int): (r: Mem)
    requires Shape(m) && k <= MAX_ALLOC_ORDER
    ensures Shape(r)
  {
    m.(lists := m.lists[k := l], counts := m.counts[k := count])
  }

  /** The list without its entry x, the others in order. */
  function Unlink(l: seq<nat>, x: nat): seq<nat> {
    if l == [] then [] else if l[0] == x then l[1..] else [l[0]] + Unlink(l[1..], x)
  }

  /** Does freeing the block (p, k) find its buddy free-listed at the same order? */
  predicate BuddyTest(m: Mem, p: nat, k: nat, end: nat)
    requires end < |m.pages|
  {
    k < MAX_ALLOC_ORDER && Buddy(p, k) <= end &&
    m.pages[Buddy(p, k)].order == k && m.pages[Buddy(p, k)].flags.buddy
  }

  /** Take the buddy off its list; the upper half becomes a part of the lower one. */
  function Merge(m: Mem, p: nat, k: nat): (r: Mem)
    requires Shape(m) && k <= MAX_ALLOC_ORDER && p < |m.pages| && Buddy(p, k) < |m.pages|
    ensures Shape(r) && |r.pages| == |m.pages|
  {
    var lo, hi := Min(p, Buddy(p, k)), Max(p, Buddy(p, k));
    var m1 := SetPage(m, lo, m.pages[lo].(flags := m.pages[lo].flags.(buddy := false)));
    var m2 := SetPage(m1, hi, m1.pages[hi].(flags := m1.pages[hi].flags.(buddy := false, sub := true)));
    SetList(m2, k, Unlink(m2.lists[k], Buddy(p, k)), m2.counts[k] - 1)
  }

  /** Put the block (p, k) at the tail of its list. */
  function Insert(m: Mem, p: nat, k: nat): (r: Mem)
    requires Shape(m) && k <= MAX_ALLOC_ORDER && p < |m.pages|
    ensures Shape(r) && |r.pages| == |m.pages|
  {
    var m1 := SetPage(m, p, m.pages[p].(order := k, flags := m.pages[p].flags.(buddy := true, sub := false)));
    SetList(m1, k, m1.lists[k] + [p], m1.counts[k] + 1)
  }

  /** page_add_to_slot from local order k on; an order past the largest leaves all as it is. */
  function AddToSlot(m: Mem, p: nat, k: nat, end: nat): (r: Mem)
    requires Shape(m) && p < |m.pages| && end < |m.pages|
    ensures Shape(r) && |r.pages| == |m.pages|
    decreases ORDERS - k
  {
    if k > MAX_ALLOC_ORDER then m
    else if BuddyTest(m, p, k, end) then AddToSlot(Merge(m, p, k), Min(p, Buddy(p, k)), k + 1, end)
    else Insert(m, p, k)
  }

  /** The smallest order from k on with a block on its list. */
  function FirstStocked(m: Mem, k: nat): (r: Option<nat>)
    requires Shape(m)
    ensures r.Some? ==> k <= r.value <= MAX_ALLOC_ORDER && m.lists[r.value] != []
    ensures r.Some? ==> forall j :: k <= j < r.value ==> m.lists[j] == []
    ensures r.None? ==> forall j :: k <= j <= MAX_ALLOC_ORDER ==> m.lists[j] == []
    decreases ORDERS - k
  {
    if k > MAX_ALLOC_ORDER then None else if m.lists[k] != [] then Some(k) else FirstStocked(m, k + 1)
  }

  /** Take the last block p of list k for a request of order req; the count stays. */
  function Take(m: Mem, k: nat, p: nat, req: nat): (r: Mem)
    requires Shape(m) && k <= MAX_ALLOC_ORDER && p < |m.pages|
    ensures Shape(r) && |r.pages| == |m.pages|
  {
    var g := m.pages[p];
    var m1 := SetPage(m, p, Page(req, g.flags.(buddy := false, handed := true), (g.refcount + 1) % 0x1_0000_0000));
    SetList(m1, k, Unlink(m1.lists[k], p), m1.counts[k])
  }

  /** Record the order of an upper half, which makes it a block of its own. */
  function OwnHalf(m: Mem, q: nat, k: nat): (r: Mem)
    requires Shape(m) && q < |m.pages|
    ensures Shape(r) && |r.pages| == |m.pages|
  {
    SetPage(m, q, m.pages[q].(order := k, flags := m.pages[q].flags.(sub := false)))
  }

  /** One round of the splitting loop: give back the upper half of the block (p, k + 1). */
  function SplitRound(m: Mem, p: nat, k: nat, last: nat): (r: Mem)
    requires Shape(m) && last < |m.pages| && Buddy(p, k) < |m.pages|
    ensures Shape(r) && |r.pages| == |m.pages|
  {
    AddToSlot(OwnHalf(m, Buddy(p, k), k), Buddy(p, k), k, last)
  }

  /** Give back upper halves of the block (p, k) until order req is left. */
  function Split(m: Mem, p: nat, k: nat, req: nat, last: nat): (r: Mem)
    requires Shape(m) && last < |m.pages| && p + Pow2(k) <= |m.pages| && req <= k && Aligned(p, k)
    ensures Shape(r) && |r.pages| == |m.pages|
    decreases k
  {
    if k == req then m
    else LowerHalf(p, k - 1); Split(SplitRound(m, p, k - 1, last), p, k - 1, req, last)
  }

  /** page_alloc, the head of the block it returns and the memory after. */
  ghost function PageAlloc(m: Mem, req: nat, last: nat): (r: (Option<nat>, Mem))
    requires Listable(m) && last < |m.pages|
    ensures Shape(r.1) && |r.1.pages| == |m.pages|
  {
    match FirstStocked(m, req)
    case None => (None, m)
    case Some(k) =>
      var p := m.lists[k][|m.lists[k]| - 1];
      (Some(p), Split(Take(m, k, p, req), p, k, req, last))
  }

  /** Every listed head starts an aligned block inside the kpage array. */
  ghost predicate Listable(m: Mem) {
    Shape(m) && forall k: nat, i: nat :: k <= MAX_ALLOC_ORDER && i < |m.lists[k]| ==>
      Aligned(m.lists[k][i], k) && m.lists[k][i] + Pow2(k) <= |m.pages|
  }

  predicate Distinct(l: seq<nat>) {
    forall i, j :: 0 <= i < j < |l| ==> l[i] != l[j]
  }

  /** A frame has FREE_BUDDY exactly when it is on the list of the order it records,
      and no list has a frame twice or a frame of another order. */
  ghost predicate Linked(m: Mem) {
    && Shape(m)
    && (forall k: nat :: k <= MAX_ALLOC_ORDER ==> Distinct(m.lists[k]))
    && (forall k: nat, p: nat {:trigger p in m.lists[k]} :: k <= MAX_ALLOC_ORDER && p in m.lists[k] ==>
          p < |m.pages| && m.pages[p].flags.buddy && m.pages[p].order == k)
    && (forall p: nat :: p < |m.pages| && m.pages[p].flags.buddy ==>
          m.pages[p].order <= MAX_ALLOC_ORDER && p in m.lists[m.pages[p].order])
  }

  /** The memory realises a partition: lists hold its free-listed blocks, and every
      allocated head records its order. */
  ghost predicate Tracks(m: Mem, part: Part) {
    && Linked(m) && Whole(part)
    && (forall f :: f in part ==> f < |m.pages|)
    && (forall k: nat, p: nat {:trigger p in m.lists[k]} {:trigger Has(part, p, k, Listed)} ::
          k <= MAX_ALLOC_ORDER ==> (p in m.lists[k] <==> Has(part, p, k, Listed)))
    && (forall p :: p in part && part[p].pfn == p && part[p].place == Allocated ==> m.pages[p].order == part[p].order)
  }

  lemma {:induction false} UnlinkMembers(l: seq<nat>, x: nat)
    requires Distinct(l)
    ensures Distinct(Unlink(l, x))
    ensures forall y :: y in Unlink(l, x) <==> y in l && y != x
    ensures x in l ==> |Unlink(l, x)| == |l| - 1
  {
    if l != [] {
      assert forall i :: 0 <= i < |l[1..]| ==> l[1..][i] == l[i + 1];
      UnlinkMembers(l[1..], x);
      assert forall y :: y in l <==> y == l[0] || y in l[1..];
      if l[0] != x {
        var r := Unlink(l[1..], x);
        forall i, j | 0 <= i < j < |[l[0]] + r| ensures ([l[0]] + r)[i] != ([l[0]] + r)[j] {
          assert ([l[0]] + r)[j] == r[j - 1];
          assert r[j - 1] in l[1..];
          if i > 0 { assert ([l[0]] + r)[i] == r[i - 1]; }
        }
      }
    }
  }

  /** Unlinking keeps the others in order: it cuts out exactly the position of x. */
  lemma {:induction false} UnlinkAt(l: seq<nat>, i: nat)
    requires Distinct(l) && i < |l|
    ensures Unlink(l, l[i]) == l[..i] + l[i + 1..]
  {
    if i > 0 {
      assert l[1..][i - 1] == l[i];
      UnlinkAt(l[1..], i - 1);
      assert l[..i] + l[i + 1..] == [l[0]] + (l[1..][..i - 1] + l[1..][i..]);
    } else {
      assert l[..0] + l[1..] == l[1..];
    }
  }

  lemma TracksListable(m: Mem, part: Part)
    requires Tracks(m, part)
    ensures Listable(m)
  {
    forall k: nat, i: nat | k <= MAX_ALLOC_ORDER && i < |m.lists[k]|
      ensures Aligned(m.lists[k][i], k) && m.lists[k][i] + Pow2(k) <= |m.pages|
    {
      var p := m.lists[k][i];
      assert Has(part, p, k, Listed);
      assert FitsAt(part, p);
      BlockIsInterval(p + Pow2(k) - 1, p, k);
    }
  }
}
