/** How alloc_user_page sizes its request and finds its page tables: NPAGES_TO_ORDER, the
    32-bit range check, and the count of directory slots without a table. */
module TableDemand {
  import opened Dyadic
  import opened BuddyMem
  import opened PageTables
  import opened PageByPage
  import opened KernelMap

  /** 31 - __builtin_clz and __builtin_ctz. */
  function HighBit(n: nat): nat
    requires n > 0
  {
    if n == 1 then 0 else 1 + HighBit(n / 2)
  }

  function LowBit(n: nat): nat
    requires n > 0
  {
    if n % 2 == 1 then 0 else 1 + LowBit(n / 2)
  }

  function NpagesToOrder(n: nat): nat
    requires n > 0
  {
    if HighBit(n) != LowBit(n) then HighBit(n) + 1 else HighBit(n)
  }

  lemma {:induction false} BitsOf(n: nat)
    requires n > 0
    ensures Pow2(HighBit(n)) <= n < 2 * Pow2(HighBit(n)) && LowBit(n) <= HighBit(n)
    ensures LowBit(n) == HighBit(n) <==> n == Pow2(HighBit(n))
  {
    if n > 1 { BitsOf(n / 2); }
  }

  /** NPAGES_TO_ORDER is the smallest order whose block holds n frames. */
  lemma OrderIsCeilLog2(n: nat)
    requires n > 0
    ensures n <= Pow2(NpagesToOrder(n))
    ensures forall k: nat :: n <= Pow2(k) ==> NpagesToOrder(n) <= k
  {
    BitsOf(n);
    forall k: nat | n <= Pow2(k) ensures NpagesToOrder(n) <= k {
      if k < NpagesToOrder(n) { PowMono(k, NpagesToOrder(n) - 1); }
    }
  }

  /** The order is exact, with no frame to spare, for powers of two only. */
  lemma SpareFrame(n: nat)
    requires n > 0
    ensures n + 1 <= Pow2(NpagesToOrder(n)) <==> n != Pow2(HighBit(n))
  {
    BitsOf(n);
  }

  /** ALIGN_PAGE in 32 bits. */
  function AlignPage(length: nat): nat {
    ((length + (PAGE_SIZE - 1)) / PAGE_SIZE * PAGE_SIZE) % ADDRESSES
  }

  /** How a call ends. OutOfReach ends it, in the model, before it would write a table that has no
      linear address; the code has no such test. */
  datatype Code = Done | NotSupported | Invalid | NoMem | OutOfReach

  /** The checks before anything is allocated. */
  function Check(virt: nat, length: nat): Code {
    if virt == 0 then NotSupported
    else if virt % PAGE_SIZE != 0 then Invalid
    else if (virt + AlignPage(length)) % ADDRESSES >= KVA * PAGE_SIZE then Invalid
    else Done
  }

  /** The range check adds in 32 bits: it lets through the ranges that end below the kernel
      half, and those that wrap around to it. */
  lemma CheckExact(virt: nat, length: nat)
    requires 0 < virt < ADDRESSES && virt % PAGE_SIZE == 0
    ensures Check(virt, length) == Done <==>
            virt + AlignPage(length) < KVA * PAGE_SIZE ||
            ADDRESSES <= virt + AlignPage(length) < ADDRESSES + KVA * PAGE_SIZE
  {
  }

  /** How the checks end a call: at address 0, at an address inside a page, and, for a range that
      ends before the last page of the 32-bit addresses, below the last page of the user half or not. */
  lemma CheckCodes(virt: nat, length: nat)
    requires virt < ADDRESSES && length < ADDRESSES
    ensures Check(virt, length) == NotSupported <==> virt == 0
    ensures virt % 4096 != 0 ==> Check(virt, length) == Invalid
    ensures virt != 0 && virt % 4096 == 0 && virt + length <= 0xffff_f000 ==>
      Check(virt, length) == if virt + length <= 0x7fff_f000 then Done else Invalid
    ensures Check(virt, length) in {Done, NotSupported, Invalid}
  {
  }

  /** The number of the n slots from slot on that have no table. */
  function Missing(m: Words, dir: nat, slot: nat, n: nat): nat {
    if n == 0 then 0 else Missing(m, dir, slot, n - 1) + if At(m, Word(dir, slot + n - 1)) == ZERO then 1 else 0
  }

  /** The slots the counting loop looks at, from ALIGN_PGD(length), and those the range meets. */
  function Counted(pages: nat): nat {
    (pages + (SLOTS - 1)) / SLOTS
  }

  function Straddled(first: nat, pages: nat): nat
    requires pages > 0
  {
    Slot(first + pages - 1) - Slot(first) + 1
  }

  /** The counting loop looks at the fewest slots that hold as many pages as the range has. */
  lemma CountedLeast(pages: nat)
    ensures pages <= Counted(pages) * 1024 && forall n: nat :: pages <= n * 1024 ==> Counted(pages) <= n
  {
  }

  /** The range meets the slots in which one of its pages lies. */
  lemma StraddledMet(first: nat, pages: nat, s: nat)
    requires pages > 0
    ensures Slot(first) <= s < Slot(first) + Straddled(first, pages) <==>
            exists v: nat :: first <= v < first + pages && v / 1024 == s
  {
    if Slot(first) <= s < Slot(first) + Straddled(first, pages) {
      var v := if s * 1024 < first then first else s * 1024;
      assert first <= v < first + pages && v / 1024 == s;
    }
  }

  lemma CountedOrOneMore(first: nat, pages: nat)
    requires pages > 0
    ensures Straddled(first, pages) == Counted(pages) <==> first % SLOTS + pages <= Counted(pages) * SLOTS
    ensures Straddled(first, pages) == Counted(pages) || Straddled(first, pages) == Counted(pages) + 1
  {
  }

  /** The frames of the block allocated for nr tables. */
  function Capacity(nr: nat): nat {
    if nr == 0 then 0 else Pow2(NpagesToOrder(nr))
  }

  /** Every table the mapping loop takes for an empty slot is a frame of the block allocated for
      the tables. */
  ghost predicate TakesOwnFrames(m: Words, dir: nat, first: nat, pages: nat)
    requires pages > 0
  {
    forall i: nat {:trigger Missing(m, dir, Slot(first), i)} ::
      i < Straddled(first, pages) && At(m, Word(dir, Slot(first) + i)) == ZERO ==>
      Missing(m, dir, Slot(first), i) < Capacity(Missing(m, dir, Slot(first), Counted(pages)))
  }

  lemma {:induction false} MissingGrows(m: Words, dir: nat, slot: nat, i: nat, n: nat)
    requires i <= n
    ensures Missing(m, dir, slot, i) <= Missing(m, dir, slot, n)
    ensures i < n && At(m, Word(dir, slot + i)) == ZERO ==> Missing(m, dir, slot, i) < Missing(m, dir, slot, n)
    decreases n
  {
    if i < n { MissingGrows(m, dir, slot, i, n - 1); }
  }

  /** The count misses the last slot of a range that straddles one more slot than its length
      fills. That goes wrong exactly when this slot is empty and the block for the counted tables
      has no frame to spare: no table was counted, or a power of two of them. */
  lemma TakesOwnFramesIff(m: Words, dir: nat, first: nat, pages: nat)
    requires pages > 0
    ensures var nr := Missing(m, dir, Slot(first), Counted(pages));
      TakesOwnFrames(m, dir, first, pages) <==>
      !(first % SLOTS + pages > Counted(pages) * SLOTS && At(m, Word(dir, Slot(first) + Counted(pages))) == ZERO
        && (nr == 0 || nr == Pow2(HighBit(nr))))
  {
    var n, slot := Counted(pages), Slot(first);
    var nr := Missing(m, dir, slot, n);
    CountedOrOneMore(first, pages);
    if nr > 0 { SpareFrame(nr); OrderIsCeilLog2(nr); }
    forall i: nat | i < n && At(m, Word(dir, slot + i)) == ZERO ensures Missing(m, dir, slot, i) < Capacity(nr) {
      MissingGrows(m, dir, slot, i, n);
    }
  }

  /** Then the block holds all the tables that the range needs. */
  lemma {:induction false} OwnFramesBound(m: Words, dir: nat, first: nat, pages: nat, n: nat)
    requires pages > 0 && TakesOwnFrames(m, dir, first, pages) && n <= Straddled(first, pages)
    ensures Missing(m, dir, Slot(first), n) <= Capacity(Missing(m, dir, Slot(first), Counted(pages)))
    decreases n
  {
    if n > 0 {
      OwnFramesBound(m, dir, first, pages, n - 1);
      assert At(m, Word(dir, Slot(first) + (n - 1))) == ZERO ==>
        Missing(m, dir, Slot(first), n - 1) < Capacity(Missing(m, dir, Slot(first), Counted(pages)));
    }
  }

  /** A two-page range across a slot boundary, its first slot in use and its second empty: no
      table is allocated, yet one is taken. */
  lemma StraddleShortfall()
    ensures var m := seq(2 * SLOTS, i => if i == SLOTS then Entry(5, PRESENT) else ZERO);
      && 1023 % SLOTS + 2 > Counted(2) * SLOTS && Missing(m, 1, Slot(1023), Counted(2)) == 0
      && !TakesOwnFrames(m, 1, 1023, 2)
  {
    var m := seq(2 * SLOTS, i => if i == SLOTS then Entry(5, PRESENT) else ZERO);
    assert At(m, Word(1, 0)) != ZERO && At(m, Word(1, 1)) == ZERO;
    assert Missing(m, 1, 0, 1) == Missing(m, 1, 0, 0) == 0;
    TakesOwnFramesIff(m, 1, 1023, 2);
  }
}
