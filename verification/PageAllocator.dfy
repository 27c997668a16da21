/** The page allocator of memory.c over its mutable state: the kpages array, the intrusive
    free lists and the counters. */
module PageAllocator {
  import opened Dyadic
  import opened Partition
  import opened BuddyMem
  import opened BuddySteps
  import opened BuddyTheorems
  import opened FreeList
  import opened MemInit

  class KernelPages {
    const pages: array<Page>
    const counts: array<int>
    const free: FreeLists
    /** Index of kpage_last. */
    var last: nat
    /** Who has which managed frame. */
    ghost var part: Part

    /** The allocator's memory as a value. */
    ghost function Memory(): Mem
      reads this, pages, counts, free, free.node
    {
      Mem(pages[..], free.lists, counts[..])
    }

    ghost function AsWorld(): World
      reads this, pages, counts, free, free.node
    {
      World(Memory(), part, last)
    }

    /** Arrays have their sizes and the rings realise the lists. */
    ghost predicate Laid()
      reads this, pages, counts, free, free.node
    {
      free.Valid() && free.frames == pages.Length && counts.Length == ORDERS && last < pages.Length && Shape(Memory())
    }

    ghost predicate Valid()
      reads this, pages, counts, free, free.node
    {
      Laid() && Good(AsWorld())
    }

    /** kpages after memset, list heads after list_init. */
    constructor (nrKpages: nat)
      requires nrKpages > 0
      ensures Laid() && Fresh(Memory()) && pages.Length == nrKpages && part == map[]
      ensures forall f :: 0 <= f < nrKpages ==> pages[f] == Page(0, Flags(false, false, false, false, false), 0)
      ensures fresh(pages) && fresh(counts) && fresh(free) && fresh(free.node)
    {
      pages := new Page[nrKpages](i => Page(0, Flags(false, false, false, false, false), 0));
      counts := new int[ORDERS](i => 0);
      free := new FreeLists(nrKpages);
      last := nrKpages - 1;
      part := map[];
    }

    /** page_add_to_slot: free the block at p, merging it upward as far as its buddies up to
        frame end are free. */
    method AddToSlot(p: nat, end: nat)
      requires Laid() && Linked(Memory()) && p < pages.Length && end < pages.Length && !pages[p].flags.buddy
      modifies pages, counts, free`lists, free.node
      ensures Laid() && Linked(Memory())
      ensures Memory() == BuddyMem.AddToSlot(old(Memory()), p, old(pages[p].order), end)
    {
      var kpage: nat, order, done := p, pages[p].order, false;
      ghost var target := BuddyMem.AddToSlot(Memory(), p, order, end);
      while order <= MAX_ALLOC_ORDER && !done
        invariant Laid() && Linked(Memory()) && kpage < pages.Length
        invariant done ==> Memory() == target
        invariant !done ==> !pages[kpage].flags.buddy && target == BuddyMem.AddToSlot(Memory(), kpage, order, end)
        decreases ORDERS - order, !done
      {
        var other := Buddy(kpage, order);
        var first, second := kpage, other;
        if kpage < other {
          if order == MAX_ALLOC_ORDER || other > end { done := true; }
        } else {
          first, second := other, kpage;
        }
        if !done && order < MAX_ALLOC_ORDER && other <= end && pages[other].order == order && pages[other].flags.buddy {
          MergeWith(kpage, first, second, order);
        } else {
          done := true;
          PutOnList(kpage, order);
        }
        order := order + 1;
        kpage := first;
      }
    }

    /** The merging branch, inside the critical section of the order. */
    method MergeWith(kpage: nat, first: nat, second: nat, order: nat)
      requires Laid() && Linked(Memory()) && order <= MAX_ALLOC_ORDER && kpage < pages.Length
      requires !pages[kpage].flags.buddy
      requires Buddy(kpage, order) in free.lists[order]
      requires first == Min(kpage, Buddy(kpage, order)) && second == Max(kpage, Buddy(kpage, order))
      modifies pages, counts, free`lists, free.node
      ensures Laid() && Linked(Memory()) && Memory() == Merge(old(Memory()), kpage, order)
    {
      ghost var m := Memory();
      MergeLinked(m, kpage, order);
      pages[first] := pages[first].(flags := pages[first].flags.(buddy := false));
      pages[second] := pages[second].(flags := pages[second].flags.(buddy := false, sub := true));
      free.RemoveEntry(order, Buddy(kpage, order));
      counts[order] := counts[order] - 1;
      assert Memory() == Merge(m, kpage, order);
    }

    /** The inserting branch, inside the critical section of the order. */
    method PutOnList(kpage: nat, order: nat)
      requires Laid() && Linked(Memory()) && order <= MAX_ALLOC_ORDER && kpage < pages.Length
      requires !pages[kpage].flags.buddy
      modifies pages, counts, free`lists, free.node
      ensures Laid() && Linked(Memory()) && Memory() == Insert(old(Memory()), kpage, order)
    {
      ghost var m := Memory();
      InsertLinked(m, kpage, order);
      pages[kpage] := pages[kpage].(order := order, flags := pages[kpage].flags.(buddy := true, sub := false));
      free.InsertTail(order, kpage);
      counts[order] := counts[order] + 1;
      assert Memory() == Insert(m, kpage, order);
    }

    /** The critical section of page_alloc that takes a block off its list. */
    method TakeOff(k: nat, p: nat, req: nat)
      requires Laid() && Linked(Memory()) && k <= MAX_ALLOC_ORDER && p in free.lists[k]
      modifies pages, free`lists, free.node
      ensures Laid() && Memory() == Take(old(Memory()), k, p, req)
    {
      ghost var m := Memory();
      free.RemoveEntry(k, p);
      var g := pages[p];
      pages[p] := Page(req, g.flags.(buddy := false, handed := true), (g.refcount + 1) % 0x1_0000_0000);
      assert Memory() == Take(m, k, p, req);
    }

    /** page_alloc: the newest block of the smallest stocked order, split down to req. */
    method PageAlloc(req: nat) returns (got: Option<nat>)
      requires Valid()
      modifies pages, counts, free`lists, free.node, `part
      ensures Valid() && (got, AsWorld()) == Alloc(old(AsWorld()), req)
    {
      ghost var w := AsWorld();
      TracksListable(w.mem, part);
      AllocExact(w, req);
      got := SearchAndSplit(req);
      part := Alloc(w, req).1.part;
    }

    /** Take block p, the newest of order k, and split it down to the request. */
    method TakeAndSplit(ghost w: World, k: nat, p: nat, req: nat)
      requires Laid() && last == w.last && Memory() == w.mem && Good(w) && Listable(w.mem)
      requires k <= MAX_ALLOC_ORDER && free.lists[k] != [] && p == free.lists[k][|free.lists[k]| - 1]
      requires FirstStocked(w.mem, req) == FirstStocked(w.mem, k)
      modifies pages, counts, free`lists, free.node
      ensures Laid() && (Some(p), Memory()) == BuddyMem.PageAlloc(w.mem, req, last)
    {
      hide Tracks, Coalesced, Take, Split, Has, Listable, FirstStocked, BuddyMem.PageAlloc, Good, Pow2, Aligned, Linked;
      LinkedOf(w);
      TakeNewest(w, k, req);
      TakeOff(k, p, req);
      SplitDown(p, k, req, Paint(w.part, p, k, Held(0)));
    }

    lemma LinkedOf(w: World)
      requires Good(w)
      ensures Linked(w.mem)
    {
    }

    /** The search over the orders, one critical section each. */
    method SearchAndSplit(req: nat) returns (got: Option<nat>)
      requires Valid() && Listable(Memory())
      modifies pages, counts, free`lists, free.node
      ensures Laid() && (got, Memory()) == BuddyMem.PageAlloc(old(Memory()), req, last)
    {
      ghost var w := AsWorld();
      ghost var goal := BuddyMem.PageAlloc(w.mem, req, last);
      var allocOrder: nat, done := req, false;
      got := None;
      while allocOrder <= MAX_ALLOC_ORDER && !done
        invariant Laid() && last == w.last
        invariant !done ==>
          Memory() == w.mem && FirstStocked(w.mem, req) == FirstStocked(w.mem, allocOrder) && got.None?
        invariant done ==> (got, Memory()) == goal
        decreases ORDERS - allocOrder, !done
      {
        var l := free.Last(allocOrder);
        if l.Some? {
          done, got := true, l;
          TakeAndSplit(w, allocOrder, l.value, req);
        } else {
          allocOrder := allocOrder + 1;
        }
      }
    }

    /** The splitting loop of page_alloc. */
    method SplitDown(p: nat, order: nat, req: nat, ghost held: Part)
      requires Laid() && Tracks(Memory(), held) && Coalesced(held) && Has(held, p, order, Held(0))
      requires req <= order && p + Pow2(order) <= pages.Length && Aligned(p, order)
      modifies pages, counts, free`lists, free.node
      ensures Laid() && Linked(Memory()) && Memory() == Split(old(Memory()), p, order, req, last)
    {
      hide Tracks, Coalesced, Linked, SplitRound, Split, Paint, Cut, SplitsTo, Aligned, Pow2, Shr;
      var allocOrder: nat := order;
      ghost var part', m := held, Memory();
      ghost var goal := Split(m, p, order, req, last);
      SplitsNone(m, held, p, order, req, last);
      while allocOrder > req
        invariant Laid() && m == Memory() && Tracks(m, part') && Coalesced(part') && Has(part', p, allocOrder, Held(0))
        invariant allocOrder >= req && SplitsTo(m, p, allocOrder, req, last, goal)
      {
        allocOrder := allocOrder - 1;
        SplitsOnce(m, p, allocOrder, req, last, goal);
        GiveBackUpperHalf(p, allocOrder, part');
        m, part' := Memory(), Paint(Cut(part', p, allocOrder, Held(0)), Buddy(p, allocOrder), allocOrder, Listed);
      }
      SplitsDone(m, part', p, req, last, goal);
    }

    method GiveBackUpperHalf(p: nat, k: nat, ghost held: Part)
      requires Laid() && Tracks(Memory(), held) && Coalesced(held) && Has(held, p, k + 1, Held(0))
      requires p + Pow2(k + 1) <= pages.Length
      modifies pages, counts, free`lists, free.node
      ensures Aligned(p, k) && Buddy(p, k) < pages.Length
      ensures Laid() && Memory() == SplitRound(old(Memory()), p, k, last)
      ensures var part2 := Paint(Cut(held, p, k, Held(0)), Buddy(p, k), k, Listed);
              Tracks(Memory(), part2) && Coalesced(part2) && Has(part2, p, k, Held(0))
    {
      ghost var m := Memory();
      SplitOnce(m, held, p, k, last, 0);
      OwnHalfLinked(m, held, p, k);
      var buddy := Buddy(p, k);
      pages[buddy] := pages[buddy].(order := k, flags := pages[buddy].flags.(sub := false));
      assert Memory() == OwnHalf(m, buddy, k);
      AddToSlot(buddy, last);
    }

    /** Freeing an allocated block with the whole kpage array as its limit. */
    method PageFree(p: nat)
      requires Valid() && Owned(AsWorld(), p)
      modifies pages, counts, free`lists, free.node, `part
      ensures Valid() && AsWorld() == Free(old(AsWorld()), p)
    {
      ghost var w := AsWorld();
      FreeExact(w, p);
      HeldNotFlagged(w.mem, part, p);
      AddToSlot(p, last);
      part := Free(w, p).part;
    }

    /** Only the reserved and kernel bits of any page differ from was. */
    ghost predicate MarkedOnly(was: seq<Page>)
      reads pages
    {
      |was| == pages.Length && forall f :: 0 <= f < pages.Length ==>
        pages[f].(flags := pages[f].flags.(reserved := was[f].flags.reserved, kernel := was[f].flags.kernel)) == was[f]
    }

    /** The page loop of one E820 entry. */
    method MarkRegion(r: Region, kernelEnd: nat) returns (at: nat)
      requires EndFrame(r) <= pages.Length
      modifies pages
      ensures at == EndFrame(r) && MarkedOnly(old(pages[..]))
      ensures forall f :: 0 <= f < pages.Length ==>
                pages[f].flags.reserved == (old(pages[f].flags.reserved) || (r.kind != 1 && Touches(r, f))) &&
                pages[f].flags.kernel == (old(pages[f].flags.kernel) ||
                  (r.kind == 1 && Touches(r, f) && f * PAGE_SIZE <= kernelEnd && !old(pages[f].flags.reserved)))
    {
      at := FirstFrame(r);
      while at < EndFrame(r)
        invariant FirstFrame(r) <= at <= EndFrame(r) && MarkedOnly(old(pages[..]))
        invariant forall f :: 0 <= f < pages.Length && !(FirstFrame(r) <= f < at) ==> pages[f] == old(pages[f])
        invariant forall f :: FirstFrame(r) <= f < at ==>
                    pages[f].flags.reserved == (old(pages[f].flags.reserved) || r.kind != 1) &&
                    pages[f].flags.kernel == (old(pages[f].flags.kernel) ||
                      (r.kind == 1 && f * PAGE_SIZE <= kernelEnd && !old(pages[f].flags.reserved)))
      {
        if r.kind != 1 {
          pages[at] := pages[at].(flags := pages[at].flags.(reserved := true));
        }
        if !pages[at].flags.reserved && at * PAGE_SIZE <= kernelEnd {
          pages[at] := pages[at].(flags := pages[at].flags.(kernel := true));
        }
        at := at + 1;
      }
    }

    /** Mark frames from up to to RESERVED: the gap loop and the low-memory loops. */
    method ReserveRange(from: nat, to: nat)
      requires to <= pages.Length
      modifies pages
      ensures MarkedOnly(old(pages[..]))
      ensures forall f :: 0 <= f < pages.Length ==>
                pages[f].flags.kernel == old(pages[f].flags.kernel) &&
                pages[f].flags.reserved == (old(pages[f].flags.reserved) || from <= f < to)
    {
      var at := from;
      while at < to
        invariant from <= at && (if from <= to then at <= to else at == from) && MarkedOnly(old(pages[..]))
        invariant forall f :: 0 <= f < pages.Length ==>
                    pages[f].flags.kernel == old(pages[f].flags.kernel) &&
                    pages[f].flags.reserved == (old(pages[f].flags.reserved) || from <= f < at)
      {
        pages[at] := pages[at].(flags := pages[at].flags.(reserved := true));
        at := at + 1;
      }
    }

    /** The marks of the first n entries of the map are in place. */
    ghost predicate Marked(es: seq<Region>, kernelEnd: nat, n: nat)
      requires n <= |es|
      reads pages
    {
      forall f: nat :: f < pages.Length ==> MarksFit(pages[f].flags, es, kernelEnd, n, f)
    }

    /** The loop over the E820 entries and the gaps between them; returns the frame after the
        last one it came to. */
    method MarkE820(es: seq<Region>, kernelEnd: nat) returns (at: nat)
      requires SortedMap(es) && NrKpages(es) == pages.Length
      requires forall f :: 0 <= f < pages.Length ==> !pages[f].flags.reserved && !pages[f].flags.kernel
      modifies pages
      ensures MarkedOnly(old(pages[..])) && Marked(es, kernelEnd, |es|) && at == pages.Length
    {
      at := FirstFrame(es[0]);
      var i := 0;
      while i < |es| && at < pages.Length
        invariant 0 <= i <= |es| && MarkedOnly(old(pages[..])) && Marked(es, kernelEnd, i)
        invariant at == CameTo(es, i)
      {
        SortedEnds(es, i, i);
        ghost var before := pages[..];
        at := MarkRegion(es[i], kernelEnd);
        if i != |es| - 1 && FirstFrame(es[i + 1]) != at {
          SortedEnds(es, i + 1, i + 1);
          ReserveRange(at, FirstFrame(es[i + 1]));
          at := Max(at, FirstFrame(es[i + 1]));
        }
        forall f: nat | f < pages.Length ensures MarksFit(pages[f].flags, es, kernelEnd, i + 1, f) {
          MarkStep(before[f].flags, pages[f].flags, es, kernelEnd, i, f);
        }
        i := i + 1;
      }
      if i < |es| {
        forall f: nat | f < pages.Length ensures MarksFit(pages[f].flags, es, kernelEnd, |es|, f) {
          MarkRest(pages[f].flags, es, kernelEnd, i, f);
        }
        SortedEnds(es, if i == 0 then 0 else i - 1, i);
      } else {
        SortedEnds(es, |es| - 1, |es| - 1);
      }
    }

    /** The frames set aside whatever the map says. */
    method MarkFixed(apSize: nat)
      requires 0x100 <= pages.Length && FrameUp(AP_INIT_PHYS_TEXT + apSize) <= pages.Length
      modifies pages
      ensures MarkedOnly(old(pages[..]))
      ensures forall f :: 0 <= f < pages.Length ==>
                (pages[f].flags.reserved || pages[f].flags.kernel <==>
                  old(pages[f].flags.reserved || pages[f].flags.kernel) || FixedFrame(apSize, f))
    {
      pages[BASE_WRITE_FRAME] := pages[BASE_WRITE_FRAME].(flags := pages[BASE_WRITE_FRAME].flags.(kernel := true));
      var at := AP_INIT_PHYS_TEXT / PAGE_SIZE;
      while at < FrameUp(AP_INIT_PHYS_TEXT + apSize)
        invariant AP_INIT_PHYS_TEXT / PAGE_SIZE <= at <= FrameUp(AP_INIT_PHYS_TEXT + apSize)
        invariant MarkedOnly(old(pages[..]))
        invariant forall f :: 0 <= f < pages.Length ==>
          pages[f].flags.reserved == old(pages[f].flags.reserved) &&
          pages[f].flags.kernel ==
            (old(pages[f].flags.kernel) || f == BASE_WRITE_FRAME || AP_INIT_PHYS_TEXT / PAGE_SIZE <= f < at)
      {
        pages[at] := pages[at].(flags := pages[at].flags.(kernel := true));
        at := at + 1;
      }
      ReserveLow();
    }

    /** The BIOS data page and 512 KB to 1 MB, range by range. */
    method ReserveLow()
      requires 0x100 <= pages.Length
      modifies pages
      ensures MarkedOnly(old(pages[..]))
      ensures forall f :: 0 <= f < pages.Length ==>
                pages[f].flags.kernel == old(pages[f].flags.kernel) &&
                pages[f].flags.reserved == (old(pages[f].flags.reserved) || f == 0 || 0x80 <= f < 0x100)
    {
      pages[0] := pages[0].(flags := pages[0].flags.(reserved := true));
      ReserveRange(0x80, 0xa0);
      ReserveRange(0xa0, 0xc0);
      ReserveRange(0xc0, 0xc8);
      ReserveRange(0xc8, 0xf0);
      ReserveRange(0xf0, 0x100);
    }

    /** The loop that puts every free frame on the lists, lowest first. */
    method BuildFreeLists()
      requires Laid() && Fresh(Memory())
      modifies pages, counts, free`lists, free.node, `part
      ensures Valid() && AllFree(AsWorld()) && Memory() == BuildFrom(old(Memory()), 0, last)
      ensures forall f: nat :: f in part <==> f <= last && KpageIsFree(old(pages[f].flags))
    {
      ghost var m := Memory();
      ghost var built := BuildLists(m, last);
      var i := 0;
      while i <= last
        invariant i <= last + 1 && Laid() && Linked(Memory())
        invariant BuildFrom(Memory(), i, last) == BuildFrom(m, 0, last)
        invariant forall f :: i <= f < pages.Length ==> pages[f] == m.pages[f]
      {
        ghost var m1 := Memory();
        FeedLinked(m1, i);
        forall x: nat | i < x < |m1.pages|
          ensures FeedFrame(m1, i).pages[x] == m1.pages[x]
        {
          FeedKeepsLater(m1, i, x);
        }
        pages[i] := pages[i].(order := 0);
        assert Memory() == SetPage(m1, i, m1.pages[i].(order := 0));
        if KpageIsFree(pages[i].flags) {
          AddToSlot(i, i);
        }
        assert Memory() == FeedFrame(m1, i);
        i := i + 1;
      }
      part := built;
    }

    /** mem_init, from the cleared kpages to the finished free lists: the managed frames are
        exactly those that no rule excludes, and all of them are free. */
    method Init(es: seq<Region>, kernelEnd: nat, apSize: nat)
      requires Laid() && Fresh(Memory()) && SortedMap(es) && NrKpages(es) == pages.Length
      requires forall f :: 0 <= f < pages.Length ==> pages[f] == Page(0, Flags(false, false, false, false, false), 0)
      requires FrameUp(AP_INIT_PHYS_TEXT + apSize) <= pages.Length
      modifies this, pages, counts, free`lists, free.node
      ensures Valid() && AllFree(AsWorld()) && last == pages.Length - 1
      ensures forall f: nat :: f in part <==> Managed(es, kernelEnd, apSize, f)
    {
      var at := MarkE820(es, kernelEnd);
      last := at - 1;
      MarkFixed(apSize);
      BuildFreeLists();
    }
  }

  /** Inserting an unlisted frame keeps flags and lists in step. */
  lemma InsertLinked(m: Mem, p: nat, k: nat)
    requires Linked(m) && k <= MAX_ALLOC_ORDER && p < |m.pages| && !m.pages[p].flags.buddy
    ensures Linked(Insert(m, p, k))
    ensures forall j: nat :: j <= MAX_ALLOC_ORDER ==> p !in m.lists[j]
  {
    AppendDistinct(m.lists[k], p);
  }

  /** Taking the newest block of the first stocked list. */
  lemma TakeNewest(w: World, k: nat, req: nat)
    requires Good(w) && k <= MAX_ALLOC_ORDER && w.mem.lists[k] != []
    requires FirstStocked(w.mem, req) == FirstStocked(w.mem, k)
    requires Listable(w.mem)
    ensures var p := w.mem.lists[k][|w.mem.lists[k]| - 1];
      var m1, part1 := Take(w.mem, k, p, req), Paint(w.part, p, k, Held(0));
      && p in w.mem.lists[k] && req <= k && Tracks(m1, part1) && Coalesced(part1) && Has(part1, p, k, Held(0))
      && p + Pow2(k) <= |w.mem.pages| && Aligned(p, k)
      && BuddyMem.PageAlloc(w.mem, req, w.last) == (Some(p), Split(m1, p, k, req, w.last))
  {
    var p := w.mem.lists[k][|w.mem.lists[k]| - 1];
    TakeTracks(w.mem, w.part, k, p, req, 0);
  }

  /** Splitting the block (p, k) of m down to order req gives goal. */
  ghost predicate SplitsTo(m: Mem, p: nat, k: nat, req: nat, last: nat, goal: Mem) {
    Shape(m) && last < |m.pages| && p + Pow2(k) <= |m.pages| && req <= k && Aligned(p, k)
      && Split(m, p, k, req, last) == goal
  }

  lemma SplitsOnce(m: Mem, p: nat, k: nat, req: nat, last: nat, goal: Mem)
    requires SplitsTo(m, p, k + 1, req, last, goal) && req <= k
    ensures p + Pow2(k + 1) <= |m.pages| && Buddy(p, k) < |m.pages|
    ensures SplitsTo(SplitRound(m, p, k, last), p, k, req, last, goal)
  {
    LowerHalf(p, k);
  }

  lemma SplitsNone(m: Mem, part: Part, p: nat, k: nat, req: nat, last: nat)
    requires Tracks(m, part) && last < |m.pages| && p + Pow2(k) <= |m.pages| && req <= k && Aligned(p, k)
    ensures Shape(m) && SplitsTo(m, p, k, req, last, Split(m, p, k, req, last))
  {
  }

  lemma SplitsDone(m: Mem, part: Part, p: nat, req: nat, last: nat, goal: Mem)
    requires Tracks(m, part) && SplitsTo(m, p, req, req, last, goal)
    ensures Linked(m) && m == goal
  {
  }

  lemma OwnHalfLinked(m: Mem, part: Part, p: nat, k: nat)
    requires Tracks(m, part) && Coalesced(part) && Has(part, p, k + 1, Held(0))
    ensures Buddy(p, k) < |m.pages| && Linked(OwnHalf(m, Buddy(p, k), k)) && !m.pages[Buddy(p, k)].flags.buddy
  {
    CutTracks(m, part, p, k, 0);
    HeldNotFlagged(OwnHalf(m, Buddy(p, k), k), Cut(part, p, k, Held(0)), Buddy(p, k));
  }

  /** The frame the marking loop has come to when it tests entry i. */
  function CameTo(es: seq<Region>, i: nat): nat
    requires es != [] && i <= |es|
  {
    if i == 0 then FirstFrame(es[0])
    else if i < |es| then Max(EndFrame(es[i - 1]), FirstFrame(es[i]))
    else EndFrame(es[i - 1])
  }

  /** The marks of frame f after the first n entries. */
  ghost predicate MarksFit(g: Flags, es: seq<Region>, kernelEnd: nat, n: nat, f: nat)
    requires n <= |es|
  {
    && (g.reserved <==> MarkedReserved(es, n, f))
    && (g.kernel ==> MarkedUsable(es, n, f) && f * PAGE_SIZE <= kernelEnd)
    && (MarkedUsable(es, n, f) && f * PAGE_SIZE <= kernelEnd ==> g.kernel || g.reserved)
  }

  /** One round of the marking loop, seen at one frame. */
  lemma MarkStep(was: Flags, now: Flags, es: seq<Region>, kernelEnd: nat, i: nat, f: nat)
    requires i < |es| && Reached(es, i) && MarksFit(was, es, kernelEnd, i, f)
    requires now.reserved == (was.reserved || (es[i].kind != 1 && Touches(es[i], f)) || InGap(es, i, f))
    requires now.kernel ==
      (was.kernel || (es[i].kind == 1 && Touches(es[i], f) && f * PAGE_SIZE <= kernelEnd && !was.reserved))
    ensures MarksFit(now, es, kernelEnd, i + 1, f)
  {
    assert MarkedReserved(es, i + 1, f) <==>
           MarkedReserved(es, i, f) || (es[i].kind != 1 && Touches(es[i], f)) || InGap(es, i, f);
    assert MarkedUsable(es, i + 1, f) <==> MarkedUsable(es, i, f) || (es[i].kind == 1 && Touches(es[i], f));
  }

  /** Entries past the end of kpages are not reached, so they mark nothing. */
  lemma MarkRest(g: Flags, es: seq<Region>, kernelEnd: nat, i: nat, f: nat)
    requires SortedMap(es) && i < |es| && MarksFit(g, es, kernelEnd, i, f) && CameTo(es, i) >= NrKpages(es)
    ensures MarksFit(g, es, kernelEnd, |es|, f)
  {
    forall j: nat | i <= j < |es| ensures !Reached(es, j) { NotReached(es, i, j); }
  }

  lemma NotReached(es: seq<Region>, i: nat, j: nat)
    requires SortedMap(es) && i <= j < |es| && CameTo(es, i) >= NrKpages(es)
    ensures !Reached(es, j)
  {
    SortedEnds(es, i, j);
    if i > 0 { SortedEnds(es, i - 1, j - 1); }
  }

  /** Feeding a frame starts from, and leaves, matching flags and lists. */
  lemma FeedLinked(m: Mem, i: nat)
    requires Linked(m) && i < |m.pages| && (KpageIsFree(m.pages[i].flags) || !m.pages[i].flags.buddy)
    ensures Linked(SetPage(m, i, m.pages[i].(order := 0)))
  {
    assert forall k: nat :: k <= MAX_ALLOC_ORDER ==> i !in m.lists[k];
  }
}
