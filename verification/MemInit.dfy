/** mem_init: which frames the E820 map and the fixed low-memory rules exclude, and the free
    lists built from the rest. */
module MemInit {
  import opened Dyadic
  import opened Partition
  import opened BuddyMem
  import opened BuddySteps
  import opened BuddyTheorems

  const MAX_SUPPORTED_MEMORY: nat := 0x1_0000_0000
  /** Frame of BASE_WRITE_PAGE. */
  const BASE_WRITE_FRAME: nat := 2
  const AP_INIT_PHYS_TEXT: nat := 0x7c00

  /** One entry of the E820 map; kind 1 is usable memory. */
  datatype Region = Region(base: nat, length: nat, kind: nat)

  /** Frame of the first byte, and first frame at or after the end. */
  function FirstFrame(r: Region): nat { r.base / PAGE_SIZE }

  function EndFrame(r: Region): nat { FrameUp(r.base + r.length) }

  function FrameUp(a: nat): nat { (a + PAGE_SIZE - 1) / PAGE_SIZE }

  /** Entries are in address order and do not overlap; the map starts in page 0 and ends at
      or below 4 GB, far enough for the fixed low-memory frames to exist. */
  ghost predicate SortedMap(es: seq<Region>) {
    && es != [] && FirstFrame(es[0]) == 0
    && (forall i :: 0 <= i < |es| - 1 ==> es[i].base + es[i].length <= es[i + 1].base)
    && 0x100 <= NrKpages(es) && Total(es) <= MAX_SUPPORTED_MEMORY
  }

  function Total(es: seq<Region>): nat
    requires es != []
  {
    es[|es| - 1].base + es[|es| - 1].length
  }

  function NrKpages(es: seq<Region>): nat
    requires es != []
  {
    FrameUp(Total(es))
  }

  predicate Touches(r: Region, f: nat) {
    FirstFrame(r) <= f < EndFrame(r)
  }

  /** A frame is touched by a nonempty entry exactly when they share a byte. */
  lemma TouchesIffShareByte(r: Region, f: nat)
    requires r.length > 0
    ensures Touches(r, f) <==> exists b: nat :: r.base <= b < r.base + r.length && b / PAGE_SIZE == f
  {
    if Touches(r, f) {
      var b := if f * PAGE_SIZE < r.base then r.base else f * PAGE_SIZE;
      assert r.base <= b < r.base + r.length && b / PAGE_SIZE == f;
    }
  }

  /** The marking loop reaches entry i: the address it has come to is still inside kpages. */
  predicate Reached(es: seq<Region>, i: nat)
    requires i < |es|
  {
    i == 0 || (EndFrame(es[i - 1]) < NrKpages(es) && FirstFrame(es[i]) < NrKpages(es))
  }

  /** Frame f lies wholly between entry i and the next. */
  predicate InGap(es: seq<Region>, i: nat, f: nat)
    requires i < |es|
  {
    i + 1 < |es| && EndFrame(es[i]) <= f < FirstFrame(es[i + 1])
  }

  /** Marked RESERVED by the first n entries of the loop. */
  ghost predicate MarkedReserved(es: seq<Region>, n: nat, f: nat)
    requires n <= |es|
  {
    exists i: nat :: i < n && Reached(es, i) && ((es[i].kind != 1 && Touches(es[i], f)) || InGap(es, i, f))
  }

  /** Touched by a usable entry among the first n that the loop reaches. */
  ghost predicate MarkedUsable(es: seq<Region>, n: nat, f: nat)
    requires n <= |es|
  {
    exists i: nat :: i < n && Reached(es, i) && es[i].kind == 1 && Touches(es[i], f)
  }

  /** Frames set aside whatever the map says: the BIOS data page, the boot information page,
      the AP start code, and 512 KB to 1 MB. */
  predicate FixedFrame(apSize: nat, f: nat) {
    f == 0 || f == BASE_WRITE_FRAME || AP_INIT_PHYS_TEXT / PAGE_SIZE <= f < FrameUp(AP_INIT_PHYS_TEXT + apSize)
    || 0x80 <= f < 0x100
  }

  /** By address: the frames of byte 0x0, of byte 0x2000, of the bytes of the AP start code from
      0x7c00 on, and of 512 KB to 1 MB. */
  lemma FixedByAddress(apSize: nat, f: nat)
    ensures FixedFrame(apSize, f) <==>
            exists b: nat :: b / 4096 == f &&
              (b == 0 || b == 0x2000 || b == 0x7c00 || 0x7c00 <= b < 0x7c00 + apSize || 0x80000 <= b <= 0xfffff)
  {
    if FixedFrame(apSize, f) {
      var b := if f == 7 then 0x7c00 else f * 4096;
      assert b / 4096 == f;
    }
  }

  /** The frames that pass kpage_is_free after all marking. */
  ghost predicate Managed(es: seq<Region>, kernelEnd: nat, apSize: nat, f: nat)
    requires es != []
  {
    && f < NrKpages(es) && !FixedFrame(apSize, f) && !MarkedReserved(es, |es|, f)
    && (f * PAGE_SIZE <= kernelEnd ==> !MarkedUsable(es, |es|, f))
  }

  /** Entries that come later start and end no earlier. */
  lemma {:induction false} SortedEnds(es: seq<Region>, i: nat, j: nat)
    requires SortedMap(es) && i <= j < |es|
    ensures es[i].base <= es[j].base && es[i].base + es[i].length <= es[j].base + es[j].length
    ensures i < j ==> es[i].base + es[i].length <= es[j].base
    ensures FirstFrame(es[i]) <= FirstFrame(es[j]) && EndFrame(es[i]) <= EndFrame(es[j])
    ensures EndFrame(es[j]) <= NrKpages(es)
    decreases j - i
  {
    if i < j { SortedEnds(es, i, j - 1); }
    SortedEndsLast(es, j);
  }

  lemma {:induction false} SortedEndsLast(es: seq<Region>, j: nat)
    requires SortedMap(es) && j < |es|
    ensures es[j].base + es[j].length <= Total(es) && EndFrame(es[j]) <= NrKpages(es)
    decreases |es| - j
  {
    if j < |es| - 1 { SortedEndsLast(es, j + 1); }
  }

  /** An entry that the loop does not reach lies in the last frame, and so does the end of
      the entry before it. */
  lemma UnreachedInLastFrame(es: seq<Region>, i: nat, f: nat)
    requires SortedMap(es) && i < |es| && !Reached(es, i) && Touches(es[i], f)
    ensures f == NrKpages(es) - 1 && EndFrame(es[i - 1]) == NrKpages(es)
  {
    SortedEnds(es, i - 1, i);
    SortedEnds(es, i, i);
  }

  /** The first entry, from i on, that ends in the last page. */
  function FirstEnding(es: seq<Region>, i: nat): (j: nat)
    requires i < |es|
    ensures i <= j < |es| && EndFrame(es[j]) == NrKpages(es)
    ensures forall k :: i <= k < j ==> EndFrame(es[k]) != NrKpages(es)
    decreases |es| - i
  {
    if EndFrame(es[i]) == NrKpages(es) then i else FirstEnding(es, i + 1)
  }

  /** The last page is set aside by a fixed rule, by the first entry that ends in it, or as
      kernel data. */
  predicate LastPageSetAside(es: seq<Region>, kernelEnd: nat, apSize: nat)
    requires es != [] && NrKpages(es) > 0
  {
    var f := NrKpages(es) - 1;
    FixedFrame(apSize, f) || es[FirstEnding(es, 0)].kind != 1 || f * PAGE_SIZE <= kernelEnd
  }

  /** When an entry i lies in a last page in which an earlier one ends, the loop reaches the first
      entry that ends there, and that one alone decides how the page is marked. */
  lemma LastPageDecided(es: seq<Region>, i: nat)
    requires SortedMap(es) && 0 < i < |es| && FirstFrame(es[i]) < EndFrame(es[i]) && EndFrame(es[i - 1]) == NrKpages(es)
    ensures var j, f := FirstEnding(es, 0), NrKpages(es) - 1;
      && Reached(es, j) && Touches(es[j], f)
      && (MarkedReserved(es, |es|, f) <==> es[j].kind != 1) && (MarkedUsable(es, |es|, f) <==> es[j].kind == 1)
  {
    var j, f := FirstEnding(es, 0), NrKpages(es) - 1;
    FirstEndingReached(es, i);
    hide FirstEnding, Touches, InGap, Reached, SortedMap;
    forall k: nat | k < |es| && Reached(es, k) && k != j ensures !Touches(es[k], f) && !InGap(es, k, f) {
      OthersSpareLastPage(es, j, k);
    }
  }

  lemma FirstEndingReached(es: seq<Region>, i: nat)
    requires SortedMap(es) && 0 < i < |es| && FirstFrame(es[i]) < EndFrame(es[i]) && EndFrame(es[i - 1]) == NrKpages(es)
    ensures var j, f := FirstEnding(es, 0), NrKpages(es) - 1;
      f >= 0 && Reached(es, j) && Touches(es[j], f) && !InGap(es, j, f) && FirstFrame(es[j]) < NrKpages(es)
  {
    var j := FirstEnding(es, 0);
    SortedEnds(es, j, i);
    if j > 0 { SortedEnds(es, j - 1, j); }
  }

  /** No other entry that the loop reaches touches the last page, or leaves it in a gap. */
  lemma OthersSpareLastPage(es: seq<Region>, j: nat, k: nat)
    requires SortedMap(es) && j < |es| && j == FirstEnding(es, 0) && k < |es| && Reached(es, k) && k != j
    requires FirstFrame(es[j]) < NrKpages(es)
    ensures !Touches(es[k], NrKpages(es) - 1) && !InGap(es, k, NrKpages(es) - 1)
  {
    if k < j {
      SortedEnds(es, k, j);
      SortedEnds(es, k + 1, j);
    } else {
      SortedEnds(es, j, k - 1);
    }
  }

  /** Entry i is reserved, but the entry before it already ends in the last page. */
  predicate HiddenReserved(es: seq<Region>, i: nat)
    requires i < |es|
  {
    0 < i && es[i].kind != 1 && FirstFrame(es[i]) < EndFrame(es[i]) && EndFrame(es[i - 1]) == NrKpages(es)
  }

  /** No managed frame is touched by a reserved entry. */
  ghost predicate ReservedRespected(es: seq<Region>, kernelEnd: nat, apSize: nat)
    requires es != []
  {
    forall f: nat, i: nat {:trigger Touches(es[i], f)} ::
      i < |es| && es[i].kind != 1 && Touches(es[i], f) ==> !Managed(es, kernelEnd, apSize, f)
  }

  ghost predicate SomeHiddenReserved(es: seq<Region>) {
    exists i: nat :: i < |es| && HiddenReserved(es, i)
  }

  /** Reserved entries are respected if and only if, when one of them is hidden in a last page
      that an earlier entry ends in, that page is set aside for another reason. */
  lemma ReservedRespectedIff(es: seq<Region>, kernelEnd: nat, apSize: nat)
    requires SortedMap(es)
    ensures ReservedRespected(es, kernelEnd, apSize) <==>
            (SomeHiddenReserved(es) ==> LastPageSetAside(es, kernelEnd, apSize))
  {
    if SomeHiddenReserved(es) {
      var i: nat :| i < |es| && HiddenReserved(es, i);
      SortedEnds(es, i - 1, i);
      LastPageDecided(es, i);
      assert Touches(es[i], NrKpages(es) - 1);
    }
    if SomeHiddenReserved(es) ==> LastPageSetAside(es, kernelEnd, apSize) {
      forall f: nat, i: nat | i < |es| && es[i].kind != 1 && Touches(es[i], f)
        ensures !Managed(es, kernelEnd, apSize, f)
      {
        ReservedEntryExcluded(es, kernelEnd, apSize, i, f);
      }
    }
  }

  lemma ReservedEntryExcluded(es: seq<Region>, kernelEnd: nat, apSize: nat, i: nat, f: nat)
    requires SortedMap(es) && i < |es| && es[i].kind != 1 && Touches(es[i], f)
    requires SomeHiddenReserved(es) ==> LastPageSetAside(es, kernelEnd, apSize)
    ensures !Managed(es, kernelEnd, apSize, f)
  {
    if !Reached(es, i) {
      UnreachedInLastFrame(es, i, f);
      assert HiddenReserved(es, i);
      LastPageDecided(es, i);
    }
  }

  /** A map on which a reserved region is handed out: it shares the last page with usable memory. */
  lemma ReservedTailHandedOut()
    ensures var es := [Region(0, 0x1FF800, 1), Region(0x1FF800, 0x800, 2)];
            SortedMap(es) && Touches(es[1], 0x1FF) && Managed(es, 0x150000, 0x100, 0x1FF)
  {
    var es := [Region(0, 0x1FF800, 1), Region(0x1FF800, 0x800, 2)];
    assert !Reached(es, 1);
  }

  /** Whole frames between entries, and usable frames up to the end of kernel data, are never
      managed, whether the loop reaches their entry or not. */
  lemma GapsAndKernelExcluded(es: seq<Region>, kernelEnd: nat, apSize: nat, i: nat, f: nat)
    requires SortedMap(es) && i < |es|
    requires InGap(es, i, f) || (es[i].kind == 1 && Touches(es[i], f) && f * PAGE_SIZE <= kernelEnd)
    ensures !Managed(es, kernelEnd, apSize, f)
  {
    if InGap(es, i, f) {
      SortedEnds(es, i, i + 1);
      if i > 0 { SortedEnds(es, i - 1, i); }
      SortedEnds(es, i + 1, i + 1);
      assert Reached(es, i);
    } else if !Reached(es, i) {
      UnreachedInLastFrame(es, i, f);
      LastPageDecided(es, i);
    }
  }

  /** Every frame of the map lies in an entry or in a gap. */
  lemma {:induction false} Covering(es: seq<Region>, i: nat, f: nat) returns (j: nat)
    requires SortedMap(es) && i < |es| && FirstFrame(es[i]) <= f < NrKpages(es)
    ensures j < |es| && (Touches(es[j], f) || InGap(es, j, f))
    decreases |es| - i
  {
    if i + 1 < |es| && FirstFrame(es[i + 1]) <= f {
      j := Covering(es, i + 1, f);
    } else {
      j := i;
    }
  }

  /** So no frame up to the end of kernel data is managed, whatever the map says of it. */
  lemma KernelDataExcluded(es: seq<Region>, kernelEnd: nat, apSize: nat, f: nat)
    requires SortedMap(es) && f * PAGE_SIZE <= kernelEnd
    ensures !Managed(es, kernelEnd, apSize, f)
  {
    if f < NrKpages(es) {
      var i := Covering(es, 0, f);
      if InGap(es, i, f) || es[i].kind == 1 {
        GapsAndKernelExcluded(es, kernelEnd, apSize, i, f);
      } else if !Reached(es, i) {
        UnreachedInLastFrame(es, i, f);
        LastPageDecided(es, i);
      }
    }
  }

  /** Every frame but the last is decided by the entries it touches: it is managed exactly when there
      is one, they are all usable, it lies above the end of kernel data, and no fixed rule has it. */
  lemma ManagedIff(es: seq<Region>, kernelEnd: nat, apSize: nat, f: nat)
    requires SortedMap(es) && f + 1 < NrKpages(es)
    ensures Managed(es, kernelEnd, apSize, f) <==>
            && !FixedFrame(apSize, f) && f * PAGE_SIZE > kernelEnd
            && (exists i: nat :: i < |es| && Touches(es[i], f))
            && forall i: nat :: i < |es| && Touches(es[i], f) ==> es[i].kind == 1
  {
    hide FixedFrame;
    if f * PAGE_SIZE <= kernelEnd {
      KernelDataExcluded(es, kernelEnd, apSize, f);
    } else {
      MarkedIff(es, f);
    }
  }

  lemma MarkedIff(es: seq<Region>, f: nat)
    requires SortedMap(es) && f + 1 < NrKpages(es)
    ensures MarkedReserved(es, |es|, f) <==>
            (forall i: nat :: i < |es| ==> !Touches(es[i], f)) ||
            exists i: nat :: i < |es| && Touches(es[i], f) && es[i].kind != 1
  {
    forall i: nat | i < |es| && Touches(es[i], f) ensures Reached(es, i) {
      if !Reached(es, i) { UnreachedInLastFrame(es, i, f); }
    }
    forall i: nat, j: nat | i < |es| && InGap(es, i, f) && j < |es| ensures !Touches(es[j], f) {
      if j <= i { SortedEnds(es, j, i); } else { SortedEnds(es, i + 1, j); }
    }
    if forall i: nat :: i < |es| ==> !Touches(es[i], f) {
      var i := Covering(es, 0, f);
      SortedEnds(es, i, i + 1);
      if i > 0 { SortedEnds(es, i - 1, i); }
      assert Reached(es, i);
    }
  }

  /** The last frame is decided by the first entry that ends in it. */
  lemma LastManagedIff(es: seq<Region>, kernelEnd: nat, apSize: nat)
    requires SortedMap(es)
    ensures var f, e := NrKpages(es) - 1, es[FirstEnding(es, 0)];
      Managed(es, kernelEnd, apSize, f) <==>
      !FixedFrame(apSize, f) && f * PAGE_SIZE > kernelEnd && Touches(e, f) && e.kind == 1
  {
    hide FixedFrame;
    var f, j := NrKpages(es) - 1, FirstEnding(es, 0);
    if f * PAGE_SIZE <= kernelEnd {
      KernelDataExcluded(es, kernelEnd, apSize, f);
    } else if Touches(es[j], f) {
      if j > 0 { SortedEnds(es, j - 1, j); }
      assert Reached(es, j) && !InGap(es, j, f);
      forall k: nat | k < |es| && Reached(es, k) && k != j ensures !Touches(es[k], f) && !InGap(es, k, f) {
        OthersSpareLastPage(es, j, k);
      }
    } else {
      SortedEnds(es, j - 1, j);
      if j > 1 { SortedEnds(es, j - 2, j - 1); }
      assert Reached(es, j - 1) && InGap(es, j - 1, f);
    }
  }

  /** No usable memory is lost: a frame from 1 MB on whose bytes all lie in one usable entry, above the
      end of kernel data and behind the AP start code, is managed. */
  lemma UsableIsManaged(es: seq<Region>, kernelEnd: nat, apSize: nat, i: nat, f: nat)
    requires SortedMap(es) && i < |es| && es[i].kind == 1
    requires es[i].base <= f * 4096 && (f + 1) * 4096 <= es[i].base + es[i].length
    requires f >= 0x100 && f * 4096 > kernelEnd && f * 4096 >= 0x7c00 + apSize
    ensures Managed(es, kernelEnd, apSize, f)
  {
    SortedEndsLast(es, i);
    forall k: nat | k < |es| && k != i ensures !Touches(es[k], f) && !InGap(es, k, f) {
      if k < i { SortedEnds(es, k + 1, i); SortedEnds(es, k, i); } else { SortedEnds(es, i, k); }
    }
  }

  /** The free-list loop of mem_init from frame i on: clear the order, and feed a free frame
      with itself as the upper limit. */
  function BuildFrom(m: Mem, i: nat, last: nat): (r: Mem)
    requires Shape(m) && last < |m.pages|
    ensures Shape(r) && |r.pages| == |m.pages|
    decreases last + 1 - i
  {
    if i > last then m else BuildFrom(FeedFrame(m, i), i + 1, last)
  }

  function FeedFrame(m: Mem, i: nat): (r: Mem)
    requires Shape(m) && i < |m.pages|
    ensures Shape(r) && |r.pages| == |m.pages|
  {
    var m1 := SetPage(m, i, m.pages[i].(order := 0));
    if KpageIsFree(m1.pages[i].flags) then AddToSlot(m1, i, 0, i) else m1
  }

  /** The limit keeps every frame above it as it was. */
  lemma {:induction false} SlotBelowLimit(m: Mem, p: nat, k: nat, end: nat, x: nat)
    requires Shape(m) && p <= end < x < |m.pages|
    ensures AddToSlot(m, p, k, end).pages[x] == m.pages[x]
    decreases ORDERS - k
  {
    if k <= MAX_ALLOC_ORDER && BuddyTest(m, p, k, end) {
      SlotBelowLimit(Merge(m, p, k), Min(p, Buddy(p, k)), k + 1, end, x);
    }
  }

  /** A frame not yet fed still has the flags it had before the loop. */
  lemma FeedKeepsLater(m: Mem, i: nat, x: nat)
    requires Shape(m) && i < x < |m.pages|
    ensures FeedFrame(m, i).pages[x] == m.pages[x]
  {
    var m1 := SetPage(m, i, m.pages[i].(order := 0));
    if KpageIsFree(m1.pages[i].flags) { SlotBelowLimit(m1, i, 0, i, x); }
  }

  /** Every managed frame is free-listed and free_pages_count is exact. */
  ghost predicate AllFree(w: World) {
    && Good(w) && (forall f :: f in w.part ==> w.part[f].place == Listed)
    && forall k: nat :: k <= MAX_ALLOC_ORDER ==> Drift(w.mem, k) == 0
  }

  /** A frame new to the partition is a held block of one frame. */
  lemma AddFrameTracks(m: Mem, part: Part, i: nat)
    requires Tracks(m, part) && Coalesced(part) && i < |m.pages| && i !in part && !m.pages[i].flags.buddy
    ensures var m1, part1 := SetPage(m, i, m.pages[i].(order := 0)), part[i := Piece(i, 0, Held(0))];
            Tracks(m1, part1) && Coalesced(part1) && Has(part1, i, 0, Held(0))
  {
    var m1, part1 := SetPage(m, i, m.pages[i].(order := 0)), part[i := Piece(i, 0, Held(0))];
    assert forall f: nat :: InBlock(f, i, 0) <==> f == i;
    forall f | f in part1 ensures FitsAt(part1, f) {
      assert f != i ==> FitsAt(part, f);
    }
    assert forall p: nat, k: nat :: Has(part1, p, k, Listed) <==> Has(part, p, k, Listed);
    assert m1.lists == m.lists;
  }

  lemma FeedTracks(m: Mem, part: Part, i: nat) returns (part': Part)
    requires Shape(m) && i < |m.pages| && AllFree(World(m, part, i)) && i !in part
    requires KpageIsFree(m.pages[i].flags)
    ensures AllFree(World(FeedFrame(m, i), part', i)) && part'.Keys == part.Keys + {i}
  {
    hide Coalesced, Linked, Whole, AddToSlot, SlotPart;
    AddFrameTracks(m, part, i);
    var m1, part1 := SetPage(m, i, m.pages[i].(order := 0)), part[i := Piece(i, 0, Held(0))];
    SlotTracks(m1, part1, i, 0, i, 0);
    part' := SlotPart(m1, part1, i, 0, i, 0);
    assert forall f :: f in part1 && InBlock(f, i, 0) ==> f == i;
    forall k: nat | k <= MAX_ALLOC_ORDER ensures Drift(FeedFrame(m, i), k) == 0 {
      SlotDrift(m1, i, 0, i, k);
      assert Drift(m, k) == 0;
    }
  }

  /** The state the loop starts from: the marking done, nothing listed. */
  ghost predicate Fresh(m: Mem) {
    && Shape(m) && (forall k: nat :: k <= MAX_ALLOC_ORDER ==> m.lists[k] == [] && m.counts[k] == 0)
    && forall f: nat :: f < |m.pages| ==> !m.pages[f].flags.buddy
  }

  /** Free-list construction: feeding the frames in ascending order, each with itself as the
      limit, lists exactly the frames that pass kpage_is_free, in their canonical blocks
      (ListedIffMaximalRun), with exact counts. */
  lemma BuildLists(m: Mem, last: nat) returns (part: Part)
    requires Fresh(m) && last < |m.pages|
    ensures AllFree(World(BuildFrom(m, 0, last), part, last))
    ensures forall f: nat :: f in part <==> f <= last && KpageIsFree(m.pages[f].flags)
  {
    hide AllFree, FeedFrame, BuildFrom, KpageIsFree, Fresh;
    part := map[];
    var i, m' := 0, m;
    NoneFree(m, last);
    while i <= last
      invariant i <= last + 1 && Shape(m') && |m'.pages| == |m.pages|
      invariant AllFree(World(m', part, last))
      invariant forall f: nat :: f in part <==> f < i && KpageIsFree(m.pages[f].flags)
      invariant forall f: nat :: i <= f < |m.pages| ==> m'.pages[f] == m.pages[f]
      invariant BuildFrom(m', i, last) == BuildFrom(m, 0, last)
    {
      forall x: nat | i < x < |m.pages| ensures FeedFrame(m', i).pages[x] == m.pages[x] { FeedKeepsLater(m', i, x); }
      BuildUnfolds(m', i, last);
      part := FeedOne(m', part, i, last);
      m', i := FeedFrame(m', i), i + 1;
    }
    BuildUnfolds(m', i, last);
  }

  lemma NoneFree(m: Mem, last: nat)
    requires Fresh(m) && last < |m.pages|
    ensures Shape(m) && AllFree(World(m, map[], last))
  {
    assert forall k: nat :: k <= MAX_ALLOC_ORDER ==> Drift(m, k) == 0;
  }

  lemma BuildUnfolds(m: Mem, i: nat, last: nat)
    requires Shape(m) && last < |m.pages|
    ensures BuildFrom(m, i, last) == if i > last then m else BuildFrom(FeedFrame(m, i), i + 1, last)
  {
  }

  /** Feeding frame i, free or not, to lists of lower frames. */
  lemma FeedOne(m: Mem, part: Part, i: nat, last: nat) returns (part': Part)
    requires Shape(m) && i <= last < |m.pages| && AllFree(World(m, part, last)) && forall f :: f in part ==> f < i
    ensures AllFree(World(FeedFrame(m, i), part', last))
    ensures part'.Keys == part.Keys + if KpageIsFree(m.pages[i].flags) then {i} else {}
  {
    if KpageIsFree(m.pages[i].flags) {
      assert AllFree(World(m, part, i));
      part' := FeedTracks(m, part, i);
    } else {
      part' := part;
      SkipTracks(m, part, i);
      forall k: nat | k <= MAX_ALLOC_ORDER ensures Drift(FeedFrame(m, i), k) == 0 { assert Drift(m, k) == 0; }
    }
  }

  /** Clearing the order of a frame outside the partition. */
  lemma SkipTracks(m: Mem, part: Part, i: nat)
    requires Tracks(m, part) && i < |m.pages| && i !in part
    ensures Tracks(SetPage(m, i, m.pages[i].(order := 0)), part)
    ensures forall k: nat :: k <= MAX_ALLOC_ORDER ==> Drift(SetPage(m, i, m.pages[i].(order := 0)), k) == Drift(m, k)
  {
    assert forall k: nat :: k <= MAX_ALLOC_ORDER ==> (i in m.lists[k] <==> Has(part, i, k, Listed));
  }
}
