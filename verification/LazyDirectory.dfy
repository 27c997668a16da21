/** The lazy filling of the CPUs' directories from the master directory: setup32.c's copy and
    page-fault fix, and the directory and table writes of page32.c, each one a step that any CPU
    may take; the copy byte by byte, as the memcpy of util.h makes it. So are the writes with which
    smp.c gives every other CPU its first directory. */
module LazyDirectory {
  import opened BuddyMem
  import opened PageTables
  import opened PageByPage
  import opened KernelMap

  /** The bytes of a directory. */
  const BYTES: nat := 4 * SLOTS

  /** The flag bits in byte 0 of a paging word. */
  const LOW: Bits := {0, 1, 2, 3, 4, 5, 6, 7}

  /** Word e with its byte b taken from another word: byte 0 is the low flags, byte 1 the high
      flags and the low 4 bits of the frame, bytes 2 and 3 the rest of the frame. */
  function WithByte(e: Entry, b: nat, from: Entry): Entry {
    if b == 0 then Entry(e.frame, from.flags * LOW + (e.flags - LOW))
    else if b == 1 then Entry(e.frame / 16 * 16 + from.frame % 16, e.flags * LOW + (from.flags - LOW))
    else if b == 2 then Entry(e.frame / 4096 * 4096 + from.frame / 16 % 256 * 16 + e.frame % 16, e.flags)
    else Entry(from.frame / 4096 * 4096 + e.frame % 4096, e.flags)
  }

  /** Word e with its bytes from b on taken from another word. */
  function Completed(e: Entry, b: nat, from: Entry): Entry {
    if b == 0 then from
    else if b == 1 then Entry(from.frame, e.flags * LOW + (from.flags - LOW))
    else if b == 2 then Entry(from.frame / 16 * 16 + e.frame % 16, e.flags)
    else Entry(from.frame / 4096 * 4096 + e.frame % 4096, e.flags)
  }

  /** Copying byte b and then the rest is copying from byte b on. */
  lemma NextByte(e: Entry, b: nat, from: Entry)
    requires b < 4
    ensures b < 3 ==> Completed(WithByte(e, b, from), b + 1, from) == Completed(e, b, from)
    ensures b == 3 ==> WithByte(e, b, from) == Completed(e, b, from)
  {
    if b == 0 {
      assert (from.flags * LOW + (e.flags - LOW)) * LOW + (from.flags - LOW) == from.flags;
    } else if b == 1 {
      LowBits(e.frame, from.frame);
    } else if b == 2 {
      MiddleBits(e.frame, from.frame);
    }
  }

  lemma LowBits(f: nat, g: nat)
    ensures g / 16 * 16 + (f / 16 * 16 + g % 16) % 16 == g
  {
  }

  lemma MiddleBits(f: nat, g: nat)
    ensures g / 4096 * 4096 + (f / 4096 * 4096 + g / 16 % 256 * 16 + f % 16) % 4096 == g / 16 * 16 + f % 16
  {
    var y := g / 16 % 256 * 16 + f % 16;
    assert (f / 4096 * 4096 + y) % 4096 == y;
    assert g / 16 == g / 4096 * 256 + g / 16 % 256;
  }

  /** copied[c] counts the bytes setup32 has copied on CPU c; at BYTES it is set up. */
  datatype Sys = Sys(m: Words, master: nat, copied: seq<nat>)

  datatype Event =
    /** The copy of setup32, one byte. */
    | Copy(cpu: nat)
    /** A write of smp.c's first copies: to the directory of a CPU whose own copy has not begun. */
    | Seed(cpu: nat, slot: nat, e: Entry)
    /** The directory write of a kernel mapping, in the master or in the CPU's own directory. */
    | Enter(cpu: nat, slot: nat, local: bool)
    /** The table write of a kernel mapping or unmapping. */
    | Put(page: nat, e: Entry)
    /** A page fault at page, from kernel code or not. */
    | Fault(cpu: nat, kernelCode: bool, page: nat)
    /** initialize_usermode's clearing of its user half. */
    | Wipe(cpu: nat)
    /** A write of alloc_user_page: to the CPU's own user half, or into a frame that is neither a
        directory nor a kernel table. */
    | UserWrite(cpu: nat, word: nat, e: Entry)

  predicate Sized(s: Sys) {
    |s.copied| == CPUS && InMemory(s.m, s.master + CPUS) && forall c :: 0 <= c < CPUS ==> s.copied[c] <= BYTES
  }

  predicate SetUp(s: Sys, c: nat)
    requires |s.copied| == CPUS
  {
    c < CPUS && s.copied[c] == BYTES
  }

  function Dir(s: Sys, c: nat): nat { CpuDir(s.master, c) }

  /** The entry of slot x in the master directory, and in CPU c's. */
  function MasterEntry(s: Sys, x: nat): Entry
    requires Sized(s) && x < SLOTS
  {
    s.m[Word(s.master, x)]
  }

  function LocalEntry(s: Sys, c: nat, x: nat): Entry
    requires Sized(s) && c < CPUS && x < SLOTS
  {
    s.m[Word(Dir(s, c), x)]
  }

  predicate Enabled(s: Sys, ev: Event)
    requires Sized(s)
  {
    match ev
    case Copy(c) => c < CPUS && s.copied[c] < BYTES
    case Seed(c, slot, e) => c < CPUS && s.copied[c] == 0 && slot < SLOTS
    case Enter(c, slot, local) => c < CPUS && KSLOT <= slot < SLOTS && (local ==> SetUp(s, c))
    case Put(v, e) => KVA <= v < FRAMES && KernelWord(s.master, v) < |s.m|
    case Fault(c, _, v) => SetUp(s, c) && v < FRAMES
    case Wipe(c) => SetUp(s, c)
    case UserWrite(c, w, e) =>
      SetUp(s, c) && w < |s.m|
        && (Word(Dir(s, c), 0) <= w < Word(Dir(s, c), KSLOT) || !KernelFrame(s.master, KVA - 1, w / SLOTS))
  }

  /** The memory in which the user half of a directory is zero. */
  function Wiped(m: Words, dir: nat): (r: Words)
    requires InMemory(m, dir)
    ensures |r| == |m|
    ensures forall w: nat :: w < |m| ==> r[w] == if Word(dir, 0) <= w < Word(dir, KSLOT) then ZERO else m[w]
  {
    m[..Word(dir, 0)] + seq(KSLOT, i => ZERO) + m[Word(dir, KSLOT)..]
  }

  /** The fix of trap_handler. */
  function Fixed(s: Sys, c: nat, v: nat): (r: Words)
    requires Sized(s) && c < CPUS && v < FRAMES
    ensures |r| == |s.m|
  {
    var x := Slot(v);
    if LocalEntry(s, c, x) == ZERO && MasterEntry(s, x) != ZERO then s.m[Word(Dir(s, c), x) := MasterEntry(s, x)]
      else s.m
  }

  function After(s: Sys, ev: Event): (r: Sys)
    requires Sized(s) && Enabled(s, ev)
    ensures Sized(r) && |r.m| == |s.m| && r.master == s.master
  {
    match ev
    case Copy(c) =>
      var x, b := s.copied[c] / 4, s.copied[c] % 4;
      s.(m := s.m[Word(Dir(s, c), x) := WithByte(LocalEntry(s, c, x), b, MasterEntry(s, x))],
        copied := s.copied[c := s.copied[c] + 1])
    case Seed(c, slot, e) => s.(m := s.m[Word(Dir(s, c), slot) := e])
    case Enter(c, slot, local) =>
      var w := Word(if local then Dir(s, c) else s.master, slot);
      s.(m := s.m[w := PdeAfter(s.m[w], KernelTable(s.master, slot), KERNEL_PDE)])
    case Put(v, e) => s.(m := s.m[KernelWord(s.master, v) := e])
    case Fault(c, kernelCode, v) => if kernelCode then s.(m := Fixed(s, c, v)) else s
    case Wipe(c) => s.(m := Wiped(s.m, Dir(s, c)))
    case UserWrite(c, w, e) => s.(m := s.m[w := e])
  }

  /** A kernel-half entry: zero, or present and naming the kernel table of its slot. */
  predicate EntryOk(s: Sys, e: Entry, x: nat)
    requires x >= KSLOT
  {
    e == ZERO || (PRESENT <= e.flags && e.frame == KernelTable(s.master, x))
  }

  /** The master directory: its user half is zero, its kernel half is in order. */
  ghost predicate MasterOk(s: Sys) {
    Sized(s) && forall x: nat {:trigger MasterEntry(s, x)} :: x < SLOTS ==>
      if x < KSLOT then MasterEntry(s, x) == ZERO else EntryOk(s, MasterEntry(s, x), x)
  }

  /** Slot x of CPU c: in order once all its bytes are copied. While some are, what the rest of
      the copy will make of it is in order, and the bytes so far are zero if the master's entry is. */
  predicate SlotOk(s: Sys, c: nat, x: nat)
    requires Sized(s) && c < CPUS && KSLOT <= x < SLOTS
  {
    var b := s.copied[c] - 4 * x;
    && (b >= 4 ==> EntryOk(s, LocalEntry(s, c, x), x))
    && (0 < b < 4 ==> EntryOk(s, Completed(LocalEntry(s, c, x), b, MasterEntry(s, x)), x))
    && (0 < b < 4 && MasterEntry(s, x) == ZERO ==> Completed(LocalEntry(s, c, x), b, ZERO) == ZERO)
  }

  /** The coherence of CPU c's directory, and of all of them. */
  ghost predicate LocalOk(s: Sys, c: nat)
    requires Sized(s) && c < CPUS
  {
    forall x: nat {:trigger SlotOk(s, c, x)} :: KSLOT <= x < SLOTS ==> SlotOk(s, c, x)
  }

  ghost predicate Coherent(s: Sys) {
    MasterOk(s) && forall c: nat :: c < CPUS ==> LocalOk(s, c)
  }

  /** After mem_init: no CPU is set up, and only the master directory is in order. */
  ghost predicate Booted(s: Sys) {
    MasterOk(s) && forall c :: 0 <= c < CPUS ==> s.copied[c] == 0
  }

  /** Byte b of a word that names table t, or a later byte, is not zero; for b > 0. */
  predicate RestShows(t: nat, b: nat) {
    if b == 1 then t > 0 else if b == 2 then t >= 16 else t >= 4096
  }

  /** The event enters a slot of the master that CPU c is in the midst of copying, and what is
      left to copy of the new entry is not zero. */
  predicate Tears(s: Sys, ev: Event, c: nat)
    requires Sized(s) && Enabled(s, ev) && c < CPUS
  {
    && ev.Enter? && !ev.local && MasterEntry(s, ev.slot) == ZERO
    && 0 < s.copied[c] - 4 * ev.slot < 4 && RestShows(KernelTable(s.master, ev.slot), s.copied[c] - 4 * ev.slot)
  }

  lemma WordsDiffer(f: nat, x: nat, g: nat, y: nat)
    requires x < SLOTS && y < SLOTS
    ensures Word(f, x) == Word(g, y) <==> f == g && x == y
  {
  }

  /** What an event makes of the master's entry of slot x. */
  lemma MasterAfter(s: Sys, ev: Event, x: nat)
    requires Sized(s) && Enabled(s, ev) && x < SLOTS
    ensures MasterEntry(After(s, ev), x) ==
            if ev.Enter? && !ev.local && ev.slot == x
              then PdeAfter(MasterEntry(s, x), KernelTable(s.master, x), KERNEL_PDE) else MasterEntry(s, x)
  {
    match ev
    case Copy(d) => WordsDiffer(s.master, x, Dir(s, d), s.copied[d] / 4);
    case Seed(d, slot, e) => WordsDiffer(s.master, x, Dir(s, d), slot);
    case Enter(d, slot, local) => WordsDiffer(s.master, x, if local then Dir(s, d) else s.master, slot);
    case Put(v, e) =>
    case Fault(d, kernelCode, v) => WordsDiffer(s.master, x, Dir(s, d), Slot(v));
    case Wipe(d) =>
    case UserWrite(d, w, e) =>
  }

  /** What an event makes of CPU c's kernel-half entry of slot x. */
  lemma LocalAfter(s: Sys, ev: Event, c: nat, x: nat)
    requires Sized(s) && Enabled(s, ev) && c < CPUS && KSLOT <= x < SLOTS
    ensures LocalEntry(After(s, ev), c, x) ==
      match ev {
        case Copy(d) =>
          if d == c && s.copied[c] / 4 == x then WithByte(LocalEntry(s, c, x), s.copied[c] % 4, MasterEntry(s, x))
            else LocalEntry(s, c, x)
        case Seed(d, slot, e) => if d == c && slot == x then e else LocalEntry(s, c, x)
        case Enter(d, slot, local) =>
          if local && d == c && slot == x then PdeAfter(LocalEntry(s, c, x), KernelTable(s.master, x), KERNEL_PDE)
            else LocalEntry(s, c, x)
        case Fault(d, kernelCode, v) =>
          if kernelCode && d == c && Slot(v) == x && LocalEntry(s, c, x) == ZERO then MasterEntry(s, x)
            else LocalEntry(s, c, x)
        case _ => LocalEntry(s, c, x)
      }
  {
    match ev
    case Copy(d) => WordsDiffer(Dir(s, c), x, Dir(s, d), s.copied[d] / 4);
    case Seed(d, slot, e) => WordsDiffer(Dir(s, c), x, Dir(s, d), slot);
    case Enter(d, slot, local) => WordsDiffer(Dir(s, c), x, if local then Dir(s, d) else s.master, slot);
    case Put(v, e) =>
    case Fault(d, kernelCode, v) => WordsDiffer(Dir(s, c), x, Dir(s, d), Slot(v));
    case Wipe(d) =>
    case UserWrite(d, w, e) =>
  }

  /** Entering keeps an entry in order, and never makes it zero. */
  lemma EnteredOk(s: Sys, e: Entry, x: nat)
    requires x >= KSLOT && EntryOk(s, e, x)
    ensures var e' := PdeAfter(e, KernelTable(s.master, x), KERNEL_PDE); EntryOk(s, e', x) && e' != ZERO
    ensures PdeAfter(e, KernelTable(s.master, x), KERNEL_PDE) != ZERO
  {
    assert 0 in KERNEL_PDE && 0 !in ZERO.flags;
  }

  /** Every event keeps the master directory in order, and what is in use in it. */
  lemma MasterKept(s: Sys, ev: Event)
    requires MasterOk(s) && Enabled(s, ev)
    ensures MasterOk(After(s, ev))
    ensures forall x: nat {:trigger MasterEntry(s, x)} ::
      x < SLOTS && MasterEntry(s, x) != ZERO ==> MasterEntry(After(s, ev), x) != ZERO
  {
    hide After, EntryOk;
    var s' := After(s, ev);
    forall x: nat | x < SLOTS
      ensures if x < KSLOT then MasterEntry(s', x) == ZERO else EntryOk(s', MasterEntry(s', x), x)
      ensures MasterEntry(s, x) != ZERO ==> MasterEntry(s', x) != ZERO
    {
      MasterAfter(s, ev, x);
      SameOk(s, s', MasterEntry(s', x), x);
      if x >= KSLOT { EnteredOk(s, MasterEntry(s, x), x); }
    }
  }

  lemma SameOk(s: Sys, s': Sys, e: Entry, x: nat)
    requires s'.master == s.master
    ensures x >= KSLOT ==> (EntryOk(s', e, x) <==> EntryOk(s, e, x))
  {
  }

  /** One byte more of the slot. */
  lemma CopyKeepsSlot(s: Sys, c: nat, x: nat)
    requires MasterOk(s) && c < CPUS && s.copied[c] < BYTES && KSLOT <= x < SLOTS && SlotOk(s, c, x)
    ensures SlotOk(After(s, Copy(c)), c, x)
  {
    hide After, MasterOk, WithByte, Completed, PdeAfter;
    MasterSlot(s, x);
    var s', b := After(s, Copy(c)), s.copied[c] % 4;
    MasterAfter(s, Copy(c), x);
    LocalAfter(s, Copy(c), c, x);
    CopyCounts(s, c);
    if s.copied[c] / 4 == x {
      NextByte(LocalEntry(s, c, x), b, MasterEntry(s, x));
      NextByte(LocalEntry(s, c, x), b, ZERO);
      if b == 0 { FromStart(LocalEntry(s, c, x), MasterEntry(s, x)); }
    }
  }

  lemma CopyElsewhere(s: Sys, c: nat, x: nat)
    requires Sized(s) && c < CPUS && s.copied[c] < BYTES && x < SLOTS
    ensures s.copied[c] / 4 != x ==> LocalEntry(After(s, Copy(c)), c, x) == LocalEntry(s, c, x)
  {
    WordsDiffer(Dir(s, c), x, Dir(s, c), s.copied[c] / 4);
  }

  lemma CopyCounts(s: Sys, c: nat)
    requires Sized(s) && c < CPUS && s.copied[c] < BYTES
    ensures After(s, Copy(c)).copied == s.copied[c := s.copied[c] + 1]
  {
  }

  lemma MasterSlot(s: Sys, x: nat)
    requires MasterOk(s) && KSLOT <= x < SLOTS
    ensures Sized(s) && EntryOk(s, MasterEntry(s, x), x)
  {
  }

  lemma FromStart(e: Entry, from: Entry)
    ensures Completed(e, 0, from) == from
  {
  }

  /** The master's entry is entered while the copy of the slot is under way. */
  lemma EnterMeetsCopy(s: Sys, c: nat, x: nat, b: nat)
    requires MasterOk(s) && c < CPUS && KSLOT <= x < SLOTS && SlotOk(s, c, x) && b == s.copied[c] - 4 * x && 0 < b < 4
    ensures var t := KernelTable(s.master, x); var e' := PdeAfter(MasterEntry(s, x), t, KERNEL_PDE);
      EntryOk(s, Completed(LocalEntry(s, c, x), b, e'), x) <==> !(MasterEntry(s, x) == ZERO && RestShows(t, b))
  {
    var e, m, t := LocalEntry(s, c, x), MasterEntry(s, x), KernelTable(s.master, x);
    var m' := PdeAfter(m, t, KERNEL_PDE);
    MasterSlot(s, x);
    assert m'.flags - LOW == m.flags - LOW;
    if m != ZERO {
      assert Completed(e, b, m') == Completed(e, b, m);
    } else if b == 1 {
      assert e.flags * LOW == {};
      assert Completed(e, 1, m') == Entry(t, {});
    } else {
      assert e.flags == {};
      assert Completed(e, b, m').flags == {} && 0 !in Completed(e, b, m').flags;
    }
  }

  /** Every event keeps slot x of CPU c in order, but for a tear, which does not. */
  lemma SlotKeptIff(s: Sys, ev: Event, c: nat, x: nat)
    requires MasterOk(s) && Enabled(s, ev) && c < CPUS && KSLOT <= x < SLOTS && SlotOk(s, c, x)
    ensures SlotOk(After(s, ev), c, x) <==> !(Tears(s, ev, c) && ev.slot == x)
  {
    hide After, MasterOk, Completed, PdeAfter, RestShows, WithByte;
    MasterSlot(s, x);
    MasterAfter(s, ev, x);
    LocalAfter(s, ev, c, x);
    CopiedAfter(s, ev, c);
    EnteredOk(s, MasterEntry(s, x), x);
    if ev == Copy(c) {
      CopyKeepsSlot(s, c, x);
    } else {
      var b := s.copied[c] - 4 * x;
      if ev.Enter? && ev.slot == x {
        if !ev.local {
          if 0 < b < 4 { EnterMeetsCopy(s, c, x, b); }
        } else if ev.cpu == c {
          EnteredOk(s, LocalEntry(s, c, x), x);
        }
      }
    }
  }

  lemma CopiedAfter(s: Sys, ev: Event, c: nat)
    requires Sized(s) && Enabled(s, ev) && c < CPUS
    ensures After(s, ev).copied[c] == if ev == Copy(c) then s.copied[c] + 1 else s.copied[c]
  {
  }

  /** So the directory of CPU c stays coherent, unless the event tears its copy. */
  lemma LocalKeptIff(s: Sys, ev: Event, c: nat)
    requires MasterOk(s) && Enabled(s, ev) && c < CPUS && LocalOk(s, c)
    ensures LocalOk(After(s, ev), c) <==> !Tears(s, ev, c)
  {
    hide After, SlotOk, EntryOk, RestShows;
    forall x: nat | KSLOT <= x < SLOTS ensures SlotOk(After(s, ev), c, x) <==> !(Tears(s, ev, c) && ev.slot == x) {
      SlotKeptIff(s, ev, c, x);
    }
    if Tears(s, ev, c) {
      TornSlot(s, ev, c);
      assert !SlotOk(After(s, ev), c, ev.slot);
    }
  }

  lemma TornSlot(s: Sys, ev: Event, c: nat)
    requires Sized(s) && Enabled(s, ev) && c < CPUS && Tears(s, ev, c)
    ensures ev.Enter? && KSLOT <= ev.slot < SLOTS
  {
  }

  /** Every event keeps the directories coherent exactly when it tears no copy: when it does not
      enter, in the master, a slot that is empty there and half copied by some CPU. */
  lemma StepKeepsIff(s: Sys, ev: Event)
    requires Coherent(s) && Enabled(s, ev)
    ensures Coherent(After(s, ev)) <==> forall c: nat :: c < CPUS ==> !Tears(s, ev, c)
  {
    hide After, LocalOk, Tears, EntryOk;
    MasterKept(s, ev);
    forall c: nat | c < CPUS ensures LocalOk(After(s, ev), c) <==> !Tears(s, ev, c) { LocalKeptIff(s, ev, c); }
  }

  /** A CPU that is set up stays so, and loses no kernel entry that it has. */
  lemma SetUpKept(s: Sys, ev: Event, c: nat)
    requires MasterOk(s) && Enabled(s, ev) && SetUp(s, c) && LocalOk(s, c)
    ensures SetUp(After(s, ev), c) && LocalOk(After(s, ev), c)
    ensures forall x: nat {:trigger LocalEntry(s, c, x)} :: KSLOT <= x < SLOTS && LocalEntry(s, c, x) != ZERO ==>
              LocalEntry(After(s, ev), c, x) != ZERO
  {
    hide After, LocalOk, EntryOk;
    LocalKeptIff(s, ev, c);
    CopiedAfter(s, ev, c);
    forall x: nat | KSLOT <= x < SLOTS && LocalEntry(s, c, x) != ZERO ensures LocalEntry(After(s, ev), c, x) != ZERO {
      LocalAfter(s, ev, c, x);
      Entered(LocalEntry(s, c, x), KernelTable(s.master, x));
    }
  }

  lemma Entered(e: Entry, t: nat)
    ensures PdeAfter(e, t, KERNEL_PDE) != ZERO
  {
    assert 0 in KERNEL_PDE && 0 !in ZERO.flags;
  }

  /** A run of the machine. */
  predicate EnabledRun(s: Sys, run: seq<Event>)
    requires Sized(s)
    decreases |run|
  {
    run == [] || (Enabled(s, run[0]) && EnabledRun(After(s, run[0]), run[1..]))
  }

  function Run(s: Sys, run: seq<Event>): (r: Sys)
    requires Sized(s) && EnabledRun(s, run)
    ensures Sized(r) && |r.m| == |s.m| && r.master == s.master
    decreases |run|
  {
    if run == [] then s else Run(After(s, run[0]), run[1..])
  }

  /** No event of the run tears a copy. */
  predicate TearFree(s: Sys, run: seq<Event>)
    requires Sized(s) && EnabledRun(s, run)
    decreases |run|
  {
    run == [] || ((forall c: nat :: c < CPUS ==> !Tears(s, run[0], c)) && TearFree(After(s, run[0]), run[1..]))
  }

  /** The directories are coherent all along the run. */
  ghost predicate CoherentAlong(s: Sys, run: seq<Event>)
    requires Sized(s) && EnabledRun(s, run)
    decreases |run|
  {
    Coherent(s) && (run == [] || CoherentAlong(After(s, run[0]), run[1..]))
  }

  /** Over any run, the directories stay coherent exactly when no event tears a copy. */
  lemma {:induction false} RunCoherentIff(s: Sys, run: seq<Event>)
    requires Coherent(s) && EnabledRun(s, run)
    ensures CoherentAlong(s, run) <==> TearFree(s, run)
    ensures TearFree(s, run) ==> Coherent(Run(s, run))
    decreases |run|
  {
    hide LocalOk, EntryOk, After, Tears;
    if run != [] {
      StepKeepsIff(s, run[0]);
      if Coherent(After(s, run[0])) { RunCoherentIff(After(s, run[0]), run[1..]); }
      else { NotAlong(After(s, run[0]), run[1..]); }
    }
  }

  lemma NotAlong(s: Sys, run: seq<Event>)
    requires Sized(s) && EnabledRun(s, run) && !Coherent(s)
    ensures !CoherentAlong(s, run)
  {
  }

  /** Slot x of CPU c is lost: the master's entry is in use, and what the copy has made of it, or
      will make of it, is not in order. */
  predicate Torn(s: Sys, c: nat, x: nat)
    requires Sized(s) && c < CPUS && KSLOT <= x < SLOTS
  {
    var b := s.copied[c] - 4 * x;
    MasterEntry(s, x) != ZERO && b > 0 &&
    !EntryOk(s, if b < 4 then Completed(LocalEntry(s, c, x), b, MasterEntry(s, x)) else LocalEntry(s, c, x), x)
  }

  lemma TearsTorn(s: Sys, ev: Event, c: nat)
    requires MasterOk(s) && Enabled(s, ev) && c < CPUS && LocalOk(s, c) && Tears(s, ev, c)
    ensures ev.Enter? && KSLOT <= ev.slot < SLOTS && Torn(After(s, ev), c, ev.slot)
  {
    hide After, Completed, PdeAfter, RestShows;
    var x := ev.slot;
    assert SlotOk(s, c, x);
    MasterAfter(s, ev, x);
    LocalAfter(s, ev, c, x);
    CopiedAfter(s, ev, c);
    EnterMeetsCopy(s, c, x, s.copied[c] - 4 * x);
    Entered(MasterEntry(s, x), KernelTable(s.master, x));
    SameOk(s, After(s, ev), Completed(LocalEntry(s, c, x), s.copied[c] - 4 * x, MasterEntry(After(s, ev), x)), x);
  }

  /** Until the CPU is set up nothing mends a torn slot. */
  lemma TornKept(s: Sys, ev: Event, c: nat, x: nat)
    requires MasterOk(s) && Enabled(s, ev) && c < CPUS && s.copied[c] < BYTES && KSLOT <= x < SLOTS && Torn(s, c, x)
    ensures Torn(After(s, ev), c, x)
  {
    hide After, Completed, PdeAfter, EntryOk, WithByte;
    var b := s.copied[c] - 4 * x;
    MasterAfter(s, ev, x);
    LocalAfter(s, ev, c, x);
    CopiedAfter(s, ev, c);
    Entered(MasterEntry(s, x), KernelTable(s.master, x));
    if b < 4 {
      SameRest(s, LocalEntry(s, c, x), b, x);
      if ev == Copy(c) { NextByte(LocalEntry(s, c, x), b, MasterEntry(s, x)); }
    }
    OkOfMaster(s, After(s, ev));
  }

  lemma OkOfMaster(s: Sys, s': Sys)
    requires s'.master == s.master
    ensures forall e: Entry, x: nat {:trigger EntryOk(s', e, x)} {:trigger EntryOk(s, e, x)} ::
              x >= KSLOT ==> (EntryOk(s', e, x) <==> EntryOk(s, e, x))
  {
  }

  lemma SameRest(s: Sys, e: Entry, b: nat, x: nat)
    requires MasterOk(s) && KSLOT <= x < SLOTS && MasterEntry(s, x) != ZERO && 0 < b < 4
    ensures Completed(e, b, PdeAfter(MasterEntry(s, x), KernelTable(s.master, x), KERNEL_PDE)) ==
      Completed(e, b, MasterEntry(s, x))
  {
    var m := MasterEntry(s, x);
    MasterSlot(s, x);
    assert m.flags + KERNEL_PDE - LOW == m.flags - LOW;
  }

  /** CPU c is not set up before the end of the run. */
  predicate CopyingIn(s: Sys, run: seq<Event>, c: nat)
    requires Sized(s) && EnabledRun(s, run) && c < CPUS
    decreases |run|
  {
    run == [] || (s.copied[c] < BYTES && CopyingIn(After(s, run[0]), run[1..], c))
  }

  /** No event of the run tears CPU c's copy. */
  predicate TearFreeFor(s: Sys, run: seq<Event>, c: nat)
    requires Sized(s) && EnabledRun(s, run) && c < CPUS
    decreases |run|
  {
    run == [] || (!Tears(s, run[0], c) && TearFreeFor(After(s, run[0]), run[1..], c))
  }

  /** A CPU's copy ends coherent exactly when no event of the run has torn it. */
  lemma {:induction false} CopyEndsCoherentIff(s: Sys, run: seq<Event>, c: nat)
    requires MasterOk(s) && EnabledRun(s, run) && c < CPUS && LocalOk(s, c) && CopyingIn(s, run, c)
    ensures LocalOk(Run(s, run), c) <==> TearFreeFor(s, run, c)
    decreases |run|
  {
    hide After, LocalOk, EntryOk, Tears;
    if run != [] {
      var s1 := After(s, run[0]);
      MasterKept(s, run[0]);
      LocalKeptIff(s, run[0], c);
      if Tears(s, run[0], c) {
        TearsTorn(s, run[0], c);
        TornToTheEnd(s1, run[1..], c, run[0].slot);
      } else {
        CopyEndsCoherentIff(s1, run[1..], c);
      }
    }
  }

  lemma {:induction false} TornToTheEnd(s: Sys, run: seq<Event>, c: nat, x: nat)
    requires MasterOk(s) && EnabledRun(s, run) && c < CPUS && CopyingIn(s, run, c) && KSLOT <= x < SLOTS
    requires Torn(s, c, x)
    ensures !LocalOk(Run(s, run), c)
    decreases |run|
  {
    hide After, Torn;
    if run == [] {
      TornNotOk(s, c, x);
    } else {
      MasterKept(s, run[0]);
      TornKept(s, run[0], c, x);
      TornToTheEnd(After(s, run[0]), run[1..], c, x);
    }
  }

  lemma TornNotOk(s: Sys, c: nat, x: nat)
    requires Sized(s) && c < CPUS && KSLOT <= x < SLOTS && Torn(s, c, x)
    ensures !LocalOk(s, c)
  {
    assert !SlotOk(s, c, x);
  }

  /** Whatever runs, the master directory and every CPU that is set up stay coherent, and no
      kernel entry of theirs ever goes away again. */
  lemma {:induction false} RunKeepsSetUp(s: Sys, run: seq<Event>, c: nat)
    requires MasterOk(s) && SetUp(s, c) && LocalOk(s, c) && EnabledRun(s, run)
    ensures MasterOk(Run(s, run)) && SetUp(Run(s, run), c) && LocalOk(Run(s, run), c)
    ensures forall x: nat {:trigger LocalEntry(s, c, x)} :: KSLOT <= x < SLOTS && LocalEntry(s, c, x) != ZERO ==>
              LocalEntry(Run(s, run), c, x) != ZERO
    decreases |run|
  {
    hide LocalOk, EntryOk, After;
    if run != [] {
      MasterKept(s, run[0]);
      SetUpKept(s, run[0], c);
      RunKeepsSetUp(After(s, run[0]), run[1..], c);
    }
  }

  /** From the boot on, too. */
  lemma BootedCoherent(s: Sys, run: seq<Event>)
    requires Booted(s) && EnabledRun(s, run)
    ensures Coherent(s) && (CoherentAlong(s, run) <==> TearFree(s, run))
  {
    RunCoherentIff(s, run);
  }

  /** The two directory entries of page v grant the rights of its table entry alike. */
  predicate RightsAlike(s: Sys, c: nat, v: nat) {
    var rights := At(s.m, Word(Pde(s.m, s.master, v).frame, v % SLOTS)).flags * RIGHTS;
    rights * Pde(s.m, Dir(s, c), v).flags == rights * Pde(s.m, s.master, v).flags
  }

  /** A page that the master maps, on a CPU whose own entry is there: reached, with the master's
      frame, and with the master's rights exactly when the two entries grant them alike. */
  lemma ReachedDirectly(s: Sys, c: nat, v: nat)
    requires MasterOk(s) && SetUp(s, c) && LocalOk(s, c) && KVA <= v < FRAMES
    requires Translate(s.m, s.master, v).Some? && Pde(s.m, Dir(s, c), v) != ZERO
    ensures Translate(s.m, Dir(s, c), v).Some?
    ensures Translate(s.m, Dir(s, c), v).value.frame == Translate(s.m, s.master, v).value.frame
    ensures Translate(s.m, Dir(s, c), v) == Translate(s.m, s.master, v) <==> RightsAlike(s, c, v)
  {
    var own, e := LocalEntry(s, c, Slot(v)), MasterEntry(s, Slot(v));
    MasterSlot(s, Slot(v));
    assert SlotOk(s, c, Slot(v)) && 0 !in ZERO.flags;
    AlikeIff(At(s.m, Word(e.frame, v % SLOTS)).flags, own.flags, e.flags);
  }

  lemma AlikeIff(p: Bits, a: Bits, b: Bits)
    ensures p - (RIGHTS - a) == p - (RIGHTS - b) <==> p * RIGHTS * a == p * RIGHTS * b
  {
    if p * RIGHTS * a == p * RIGHTS * b {
      forall x | x in p ensures x in p - (RIGHTS - a) <==> x in p - (RIGHTS - b) {
        assert x in RIGHTS ==> (x in a <==> x in p * RIGHTS * a) && (x in b <==> x in p * RIGHTS * b);
      }
    }
    if p - (RIGHTS - a) == p - (RIGHTS - b) {
      forall x | x in p * RIGHTS ensures x in a <==> x in b {
        assert x in p - (RIGHTS - a) <==> x in a;
        assert x in p - (RIGHTS - b) <==> x in b;
      }
    }
  }

  /** And on a CPU whose entry is missing: one page fault in kernel code makes it translate
      exactly as in the master. */
  lemma ReachedAfterFault(s: Sys, c: nat, v: nat)
    requires MasterOk(s) && SetUp(s, c) && KVA <= v < FRAMES
    requires Translate(s.m, s.master, v).Some? && Pde(s.m, Dir(s, c), v) == ZERO
    ensures Translate(s.m, Dir(s, c), v) == None
    ensures Translate(After(s, Fault(c, true, v)).m, Dir(s, c), v) == Translate(s.m, s.master, v)
  {
    MasterSlot(s, Slot(v));
    assert 0 !in ZERO.flags && MasterEntry(s, Slot(v)) != ZERO;
    WordsDiffer(Dir(s, c), Slot(v), KernelTable(s.master, Slot(v)), v % SLOTS);
  }

  /** From then on that slot is never absent on that CPU: whatever runs, a page of the slot that
      the master maps is reached without a fault. */
  lemma NeverAbsentAgain(s: Sys, c: nat, v: nat, run: seq<Event>, u: nat)
    requires MasterOk(s) && SetUp(s, c) && LocalOk(s, c) && KVA <= v < FRAMES && Translate(s.m, s.master, v).Some?
    requires EnabledRun(After(s, Fault(c, true, v)), run) && u < FRAMES && Slot(u) == Slot(v)
    requires Translate(Run(After(s, Fault(c, true, v)), run).m, s.master, u).Some?
    ensures var s2 := Run(After(s, Fault(c, true, v)), run);
      && Translate(s2.m, Dir(s, c), u).Some?
        && Translate(s2.m, Dir(s, c), u).value.frame == Translate(s2.m, s.master, u).value.frame
  {
    var s1 := After(s, Fault(c, true, v));
    MasterKept(s, Fault(c, true, v));
    SetUpKept(s, Fault(c, true, v), c);
    FaultFills(s, c, v);
    RunKeepsSetUp(s1, run, c);
    ReachedDirectly(Run(s1, run), c, u);
  }

  lemma FaultFills(s: Sys, c: nat, v: nat)
    requires Sized(s) && SetUp(s, c) && KVA <= v < FRAMES && Translate(s.m, s.master, v).Some?
    ensures LocalEntry(After(s, Fault(c, true, v)), c, Slot(v)) != ZERO
  {
    assert 0 !in ZERO.flags && MasterEntry(s, Slot(v)) != ZERO;
  }

  /** The fix never touches a user slot: a fault at a user page changes nothing. */
  lemma FixSparesUserSlots(s: Sys, c: nat, kernelCode: bool, v: nat)
    requires MasterOk(s) && Enabled(s, Fault(c, kernelCode, v)) && v < KVA
    ensures After(s, Fault(c, kernelCode, v)) == s
  {
    assert MasterEntry(s, Slot(v)) == ZERO;
  }

  /** A torn entry is past repair by the fix: it is in use, so that every fault leaves it, and not
      present, so that none of its pages is reached. */
  lemma TornStays(s: Sys, c: nat, v: nat, kernelCode: bool)
    requires Sized(s) && SetUp(s, c) && v < FRAMES
    requires LocalEntry(s, c, Slot(v)) != ZERO && !(PRESENT <= LocalEntry(s, c, Slot(v)).flags)
    ensures After(s, Fault(c, kernelCode, v)) == s && Translate(s.m, Dir(s, c), v) == None
  {
  }

  /** n bytes of CPU c's copy. */
  function Copies(c: nat, n: nat): (r: seq<Event>)
    ensures |r| == n && forall i :: 0 <= i < n ==> r[i] == Copy(c)
  {
    seq(n, i => Copy(c))
  }

  /** Copying on, alone, changes only slots that are not yet copied in full. */
  lemma {:induction false} CopyOn(s: Sys, c: nat, n: nat, x: nat)
    requires Sized(s) && c < CPUS && s.copied[c] + n <= BYTES && x < SLOTS
    ensures EnabledRun(s, Copies(c, n))
    ensures var r := Run(s, Copies(c, n));
      r.copied == s.copied[c := s.copied[c] + n] && MasterEntry(r, x) == MasterEntry(s, x)
    ensures (4 * (x + 1) <= s.copied[c] || s.copied[c] + n <= 4 * x) ==>
      LocalEntry(Run(s, Copies(c, n)), c, x) == LocalEntry(s, c, x)
    decreases n
  {
    hide After, WithByte;
    if n > 0 {
      var s1 := After(s, Copy(c));
      MasterAfter(s, Copy(c), x);
      CopyCounts(s, c);
      CopyElsewhere(s, c, x);
      CopyOn(s1, c, n - 1, x);
      assert Copies(c, n)[1..] == Copies(c, n - 1);
      assert s1.copied[c := s1.copied[c] + (n - 1)] == s.copied[c := s.copied[c] + n];
    }
  }

  /** Two runs after each other. */
  lemma {:induction false} RunsJoin(s: Sys, a: seq<Event>, b: seq<Event>)
    requires Sized(s) && EnabledRun(s, a) && EnabledRun(Run(s, a), b)
    ensures EnabledRun(s, a + b) && Run(s, a + b) == Run(Run(s, a), b)
    decreases |a|
  {
    if a == [] {
      assert a + b == b;
    } else {
      RunsJoin(After(s, a[0]), a[1..], b);
      assert (a + b)[1..] == a[1..] + b;
    }
  }

  /** The run on which the copy of slot x is torn: its first byte is copied, another CPU enters
      the slot in the master, the copy goes on to its end. */
  function TearingRun(c: nat, d: nat, x: nat): seq<Event>
    requires x < SLOTS
  {
    Copies(c, 4 * x + 1) + ([Enter(d, x, false)] + Copies(c, BYTES - 4 * x - 1))
  }

  lemma TornBytes(e: Entry, t: nat)
    requires Completed(e, 1, ZERO) == ZERO
    ensures Completed(e, 1, Entry(t, KERNEL_PDE)) == Entry(t, {})
  {
    assert KERNEL_PDE - LOW == {};
  }

  /** From every state in which CPU c has not begun to copy, whichever others are set up, and for
      every slot the master has not entered yet, that run ends with the CPU set up and the slot
      torn: the master has it, and no fault on this CPU brings it. */
  lemma TornForGood(s: Sys, c: nat, d: nat, x: nat)
    requires MasterOk(s) && c < CPUS && d < CPUS && d != c && s.copied[c] == 0 && KSLOT <= x < SLOTS
    requires MasterEntry(s, x) == ZERO
    ensures EnabledRun(s, TearingRun(c, d, x))
    ensures var r := Run(s, TearingRun(c, d, x));
      && SetUp(r, c) && MasterEntry(r, x) == Entry(KernelTable(s.master, x), KERNEL_PDE)
      && LocalEntry(r, c, x) == Entry(KernelTable(s.master, x), {}) && !LocalOk(r, c)
      && forall v: nat {:trigger Slot(v)} :: v < FRAMES && Slot(v) == x ==>
           After(r, Fault(c, true, v)) == r && Translate(r.m, Dir(r, c), v) == None
  {
    hide After, MasterOk, Completed;
    MasterSlot(s, x);
    var a, b := Copies(c, 4 * x + 1), Copies(c, BYTES - 4 * x - 1);
    CopyOn(s, c, 4 * x + 1, x);
    var s1 := Run(s, a);
    FirstByte(s, c, x);
    var s2 := After(s1, Enter(d, x, false));
    EnterFacts(s1, d, x, c);
    TornRest(s2, c, x);
    assert ([Enter(d, x, false)] + b)[1..] == b;
    RunsJoin(s, a, [Enter(d, x, false)] + b);
    var r := Run(s2, b);
    TornBytes(LocalEntry(s1, c, x), KernelTable(s.master, x));
    assert !EntryOk(r, LocalEntry(r, c, x), x);
    assert !SlotOk(r, c, x);
    forall v: nat | v < FRAMES && Slot(v) == x
      ensures After(r, Fault(c, true, v)) == r && Translate(r.m, Dir(r, c), v) == None
    {
      TornStays(r, c, v, true);
    }
  }

  /** After the first byte of an empty slot. */
  lemma FirstByte(s: Sys, c: nat, x: nat)
    requires Sized(s) && c < CPUS && s.copied[c] == 0 && x < SLOTS && MasterEntry(s, x) == ZERO
    ensures EnabledRun(s, Copies(c, 4 * x + 1))
    ensures Completed(LocalEntry(Run(s, Copies(c, 4 * x + 1)), c, x), 1, ZERO) == ZERO
  {
    hide After, WithByte, Completed;
    CopyOn(s, c, 4 * x, x);
    var s1 := Run(s, Copies(c, 4 * x));
    assert Copies(c, 4 * x) + [Copy(c)] == Copies(c, 4 * x + 1);
    OneCopy(s1, c, x);
    FromStart(LocalEntry(s1, c, x), ZERO);
    RunsJoin(s, Copies(c, 4 * x), [Copy(c)]);
    NextByte(LocalEntry(s1, c, x), 0, ZERO);
  }

  lemma OneCopy(s: Sys, c: nat, x: nat)
    requires Sized(s) && c < CPUS && x < SLOTS && s.copied[c] == 4 * x
    ensures EnabledRun(s, [Copy(c)]) && Run(s, [Copy(c)]) == After(s, Copy(c))
    ensures LocalEntry(After(s, Copy(c)), c, x) == WithByte(LocalEntry(s, c, x), 0, MasterEntry(s, x))
  {
    hide WithByte;
  }

  lemma EnterFacts(s: Sys, d: nat, x: nat, c: nat)
    requires Sized(s) && KSLOT <= x < SLOTS && c < CPUS && d < CPUS && MasterEntry(s, x) == ZERO
    ensures Enabled(s, Enter(d, x, false))
    ensures var r := After(s, Enter(d, x, false));
      && r.copied == s.copied && MasterEntry(r, x) == Entry(KernelTable(s.master, x), KERNEL_PDE)
        && LocalEntry(r, c, x) == LocalEntry(s, c, x)
  {
    MasterAfter(s, Enter(d, x, false), x);
    LocalAfter(s, Enter(d, x, false), c, x);
    assert ZERO.flags + KERNEL_PDE == KERNEL_PDE;
  }

  /** The other three bytes come from the new entry, and nothing touches the slot after that. */
  lemma TornRest(s: Sys, c: nat, x: nat)
    requires Sized(s) && c < CPUS && KSLOT <= x < SLOTS && s.copied[c] == 4 * x + 1
    ensures EnabledRun(s, Copies(c, BYTES - 4 * x - 1))
    ensures var r := Run(s, Copies(c, BYTES - 4 * x - 1));
      && r.copied == s.copied[c := BYTES] && MasterEntry(r, x) == MasterEntry(s, x)
      && LocalEntry(r, c, x) == Completed(LocalEntry(s, c, x), 1, MasterEntry(s, x))
  {
    ByteAfterByte(s, c, x, 3);
    CopyOn(s, c, 3, x);
    var s3 := Run(s, Copies(c, 3));
    CopyOn(s3, c, BYTES - 4 * x - 4, x);
    RunsJoin(s, Copies(c, 3), Copies(c, BYTES - 4 * x - 4));
    assert Copies(c, 3) + Copies(c, BYTES - 4 * x - 4) == Copies(c, BYTES - 4 * x - 1);
    assert s3.copied[c := BYTES] == s.copied[c := BYTES];
  }

  lemma {:induction false} ByteAfterByte(s: Sys, c: nat, x: nat, n: nat)
    requires Sized(s) && c < CPUS && KSLOT <= x < SLOTS && n > 0 && s.copied[c] == 4 * x + (4 - n) && n <= 3
    ensures EnabledRun(s, Copies(c, n))
    ensures LocalEntry(Run(s, Copies(c, n)), c, x) == Completed(LocalEntry(s, c, x), 4 - n, MasterEntry(s, x))
    decreases n
  {
    hide Completed, WithByte;
    var s1 := After(s, Copy(c));
    MasterAfter(s, Copy(c), x);
    LocalAfter(s, Copy(c), c, x);
    CopyCounts(s, c);
    NextByte(LocalEntry(s, c, x), 4 - n, MasterEntry(s, x));
    assert Copies(c, n)[1..] == Copies(c, n - 1);
    if n > 1 {
      ByteAfterByte(s1, c, x, n - 1);
    } else {
      assert Copies(c, 0) == [];
    }
  }

  /** One page of map_kernel_with_pagetable is an Enter and a Put, one page of the unmapping a
      Put of zero where the slot is in use, so the runs above interleave these calls. */
  lemma PageCallsAreSteps(s: Sys, c: nat, v: nat, e: Entry, local: bool)
    requires Sized(s) && c < CPUS && Enabled(s, Enter(c, Slot(v), local)) && Enabled(s, Put(v, e)) && v + 1 < FRAMES
    ensures var dir, t := DirOf(s.master, c, MapFlags(false, local)), KernelTable(s.master, Slot(v));
      && Word(dir, Slot(v)) < |s.m| && Word(t, v % SLOTS) < |s.m|
      && PageBuilt(s.m, dir, t, v, e, KERNEL_PDE) == After(After(s, Enter(c, Slot(v), local)), Put(v, e)).m
      && PageUnmapped(s.m, dir, t, v) == (if s.m[Word(dir, Slot(v))] == ZERO then s else After(s, Put(v, ZERO))).m
  {
    assert KernelWord(s.master, v) == Word(KernelTable(s.master, Slot(v)), v % SLOTS);
  }

  /** Mapping page v with the entry e through CPU c's own directory. */
  function MappedLocally(s: Sys, c: nat, v: nat, e: Entry): Sys
    requires Sized(s) && Enabled(s, Enter(c, Slot(v), true)) && Enabled(s, Put(v, e))
  {
    After(After(s, Enter(c, Slot(v), true)), Put(v, e))
  }

  /** The kernel tables are shared: what CPU c maps through its own directory, CPU d reaches
      exactly when it is c or its slot is in use, and then at the same frame. */
  lemma LocalMappingSeenIff(s: Sys, c: nat, v: nat, e: Entry, d: nat)
    requires MasterOk(s) && Enabled(s, Enter(c, Slot(v), true)) && Enabled(s, Put(v, e)) && PRESENT <= e.flags
    requires SetUp(s, d) && LocalOk(s, d) && LocalOk(s, c)
    ensures var t := Translate(MappedLocally(s, c, v, e).m, Dir(s, d), v);
      && (t.Some? <==> d == c || Pde(s.m, Dir(s, d), v) != ZERO)
      && (t.Some? ==> t.value.frame == e.frame)
  {
    var x := Slot(v);
    var s1 := After(s, Enter(c, x, true));
    var s2 := After(s1, Put(v, e));
    hide After, MasterOk;
    MasterSlot(s, x);
    LocalAfter(s, Enter(c, x, true), d, x);
    LocalAfter(s1, Put(v, e), d, x);
    assert SlotOk(s, d, x) && SlotOk(s, c, x) && 0 !in ZERO.flags;
    EnteredOk(s, LocalEntry(s, d, x), x);
    PutWord(s1, v, e);
    CopiedAfter(s, Enter(c, x, true), d);
    assert Dir(s1, d) == Dir(s, d) && Dir(s2, d) == Dir(s, d);
    assert LocalEntry(s2, d, x) == Pde(s2.m, Dir(s, d), v);
  }

  lemma PutWord(s: Sys, v: nat, e: Entry)
    requires Sized(s) && Enabled(s, Put(v, e))
    ensures At(After(s, Put(v, e)).m, Word(KernelTable(s.master, Slot(v)), v % SLOTS)) == e
  {
    assert KernelWord(s.master, v) == Word(KernelTable(s.master, Slot(v)), v % SLOTS);
  }

  /** So it is local exactly when no other CPU that is set up has the slot in use. */
  lemma LocalMappingIsLocalIff(s: Sys, c: nat, v: nat, e: Entry)
    requires MasterOk(s) && Enabled(s, Enter(c, Slot(v), true)) && Enabled(s, Put(v, e)) && PRESENT <= e.flags
    requires forall d: nat :: SetUp(s, d) ==> LocalOk(s, d)
    ensures (forall d: nat {:trigger Dir(s, d)} ::
      SetUp(s, d) && d != c ==> Translate(MappedLocally(s, c, v, e).m, Dir(s, d), v) == None) <==>
            (forall d: nat {:trigger Dir(s, d)} :: SetUp(s, d) && d != c ==> Pde(s.m, Dir(s, d), v) == ZERO)
  {
    forall d: nat | SetUp(s, d) && d != c
      ensures Translate(MappedLocally(s, c, v, e).m, Dir(s, d), v) == None <==> Pde(s.m, Dir(s, d), v) == ZERO
    {
      LocalMappingSeenIff(s, c, v, e, d);
    }
  }

  /** Memory m' is m with the first n bytes of directory to copied from directory from. */
  ghost predicate CopiedTo(m: Words, m': Words, from: nat, to: nat, n: nat)
    requires InMemory(m, from) && InMemory(m, to) && n <= BYTES
  {
    |m'| == |m| && forall w: nat {:trigger m'[w]} :: w < |m| ==>
      var x, b := w - Word(to, 0), n - 4 * (w - Word(to, 0));
      if 0 <= x < SLOTS && b >= 4 then m'[w] == m[Word(from, x)]
      else if 0 <= x < SLOTS && b > 0 then Completed(m'[w], b, m[Word(from, x)]) == m[Word(from, x)]
      else m'[w] == m[w]
  }

  /** One byte more, while nobody writes the directory copied from. */
  lemma CopiedByte(m: Words, m1: Words, from: nat, to: nat, n: nat)
    requires InMemory(m, from) && InMemory(m, to) && n < BYTES && from != to && CopiedTo(m, m1, from, to, n)
    ensures Word(to, n / 4) < |m1| && Word(from, n / 4) < |m1|
    ensures CopiedTo(m, m1[Word(to, n / 4) := WithByte(m1[Word(to, n / 4)], n % 4, m1[Word(from, n / 4)])], from, to,
      n + 1)
  {
    hide WithByte, Completed;
    var x := n / 4;
    WordsDiffer(from, x, to, x);
    assert !(0 <= Word(from, x) - Word(to, 0) < SLOTS);
    assert m1[Word(from, x)] == m[Word(from, x)];
    NextByte(m1[Word(to, x)], n % 4, m[Word(from, x)]);
    if n % 4 == 0 { FromStart(m1[Word(to, x)], m[Word(from, x)]); }
  }

  /** The directories as the kernel code writes them. */
  class Directories {
    const mem: array<Entry>
    const master: nat

    constructor (paging: PageMemory, master: nat)
      requires InMemory(paging.mem[..], master + CPUS)
      ensures mem == paging.mem && this.master == master
    {
      this.mem, this.master := paging.mem, master;
    }

    /** The copy of the master directory that setup32 makes for its CPU, with nobody else about. */
    method CopyMaster(cpu: nat)
      requires cpu < CPUS && InMemory(mem[..], master + CPUS)
      modifies mem
      ensures forall x: nat {:trigger Word(CpuDir(master, cpu), x)} :: x < SLOTS ==>
        mem[Word(CpuDir(master, cpu), x)] == old(mem[Word(master, x)])
      ensures forall w: nat :: w < mem.Length && w / SLOTS != CpuDir(master, cpu) ==> mem[w] == old(mem[w])
    {
      hide WithByte, Completed;
      ghost var m := mem[..];
      var dir, i: nat := CpuDir(master, cpu), 0;
      while i < BYTES
        invariant i <= BYTES && CopiedTo(m, mem[..], master, dir, i)
      {
        ghost var cur := mem[..];
        CopiedByte(m, cur, master, dir, i);
        mem[Word(dir, i / 4)] := WithByte(mem[Word(dir, i / 4)], i % 4, mem[Word(master, i / 4)]);
        assert mem[..] == cur[Word(dir, i / 4) := WithByte(cur[Word(dir, i / 4)], i % 4, cur[Word(master, i / 4)])];
        i := i + 1;
      }
    }

    /** initialize_kernel_pg_tables: every other CPU starts on a copy of the master directory
        whose slot 0 is the first kernel slot. */
    method InitializeOthers()
      requires InMemory(mem[..], master + CPUS)
      modifies mem
      ensures FirstCopies(old(mem[..]), mem[..], master)
    {
      var i := 1;
      while i < CPUS
        invariant 1 <= i <= CPUS
        invariant forall c: nat, x: nat {:trigger Word(CpuDir(master, c), x)} :: 1 <= c < i && x < SLOTS ==>
          mem[Word(CpuDir(master, c), x)] == old(mem[Word(master, if x == 0 then KSLOT else x)])
        invariant forall w: nat ::
          w < mem.Length && !(CpuDir(master, 1) <= w / SLOTS < CpuDir(master, i)) ==> mem[w] == old(mem[w])
      {
        InitializeOther(i);
        i := i + 1;
      }
    }

    method InitializeOther(i: nat)
      requires 1 <= i < CPUS && InMemory(mem[..], master + CPUS)
      modifies mem
      ensures forall x: nat {:trigger Word(CpuDir(master, i), x)} :: x < SLOTS ==>
        mem[Word(CpuDir(master, i), x)] == old(mem[Word(master, if x == 0 then KSLOT else x)])
      ensures forall w: nat :: w < mem.Length && w / SLOTS != CpuDir(master, i) ==> mem[w] == old(mem[w])
    {
      CopyMaster(i);
      ghost var cur := mem[..];
      var pgd := Word(CpuDir(master, i), 0);
      assert pgd + KSLOT == Word(CpuDir(master, i), KSLOT);
      mem[pgd] := mem[pgd + KSLOT];
      assert mem[..] == cur[pgd := cur[pgd + KSLOT]];
    }

    /** The page-fault fix on a CPU that is set up. Every other word stays, all user pages translate
        as before, and so does everything on a fault outside the kernel. After a fault in the
        kernel, each page of the slot that the master maps is reached, with the master's frame. */
    method Fix(cpu: nat, kernelCode: bool, page: nat, ghost copied: seq<nat>)
      requires page < FRAMES
      requires var s := Sys(mem[..], master, copied); MasterOk(s) && SetUp(s, cpu) && LocalOk(s, cpu)
      modifies mem
      ensures var s := Sys(mem[..], master, copied); MasterOk(s) && LocalOk(s, cpu)
      ensures forall w: nat :: w < mem.Length && w != Word(CpuDir(master, cpu), Slot(page)) ==> mem[w] == old(mem[w])
      ensures !kernelCode || page < KVA ==> mem[..] == old(mem[..])
      ensures kernelCode ==> forall u: nat {:trigger Slot(u)} ::
        u < FRAMES && Slot(u) == Slot(page) && Translate(mem[..], master, u).Some? ==>
        var t := Translate(mem[..], CpuDir(master, cpu), u);
          t.Some? && t.value.frame == Translate(mem[..], master, u).value.frame
    {
      ghost var s := Sys(mem[..], master, copied);
      FixMeans(s, cpu, kernelCode, page);
      if kernelCode {
        var own := Word(CpuDir(master, cpu), Slot(page));
        var masters := Word(master, Slot(page));
        if mem[own] == ZERO && mem[masters] != ZERO {
          mem[own] := mem[masters];
        }
      }
      assert mem[..] == After(s, Fault(cpu, kernelCode, page)).m;
    }
  }

  lemma FixMeans(s: Sys, c: nat, kernelCode: bool, v: nat)
    requires MasterOk(s) && SetUp(s, c) && LocalOk(s, c) && v < FRAMES
    ensures var r := After(s, Fault(c, kernelCode, v));
      && MasterOk(r) && LocalOk(r, c) && r == Sys(r.m, s.master, s.copied) && (!kernelCode || v < KVA ==> r == s)
      && (kernelCode ==> forall u: nat {:trigger Slot(u)} ::
        u < FRAMES && Slot(u) == Slot(v) && Translate(r.m, s.master, u).Some? ==>
            var t := Translate(r.m, Dir(s, c), u); t.Some? && t.value.frame == Translate(r.m, s.master, u).value.frame)
  {
    var r := After(s, Fault(c, kernelCode, v));
    MasterKept(s, Fault(c, kernelCode, v));
    SetUpKept(s, Fault(c, kernelCode, v), c);
    if v < KVA { FixSparesUserSlots(s, c, kernelCode, v); }
    if kernelCode {
      forall u: nat | u < FRAMES && Slot(u) == Slot(v) && Translate(r.m, s.master, u).Some?
        ensures var t := Translate(r.m, Dir(s, c), u);
          t.Some? && t.value.frame == Translate(r.m, s.master, u).value.frame
      {
        MasterAfter(s, Fault(c, true, v), Slot(v));
        assert 0 !in ZERO.flags && MasterEntry(r, Slot(u)) != ZERO;
        assert u >= KVA;
        assert LocalEntry(r, c, Slot(u)) != ZERO;
        ReachedDirectly(r, c, u);
      }
    }
  }

  /** Memory after initialize_kernel_pg_tables. */
  ghost predicate FirstCopies(m: Words, m': Words, master: nat)
    requires InMemory(m, master + CPUS)
  {
    && |m'| == |m|
    && (forall c: nat, x: nat {:trigger Word(CpuDir(master, c), x)} :: 1 <= c < CPUS && x < SLOTS ==>
          m'[Word(CpuDir(master, c), x)] == m[Word(master, if x == 0 then KSLOT else x)])
    && (forall w: nat {:trigger m'[w]} ::
      w < |m| && !(CpuDir(master, 1) <= w / SLOTS < CpuDir(master, CPUS)) ==> m'[w] == m[w])
  }

  /** No CPU but CPU 0 has begun its own copy, as when smp_start runs. */
  predicate OnlyFirst(s: Sys) {
    Sized(s) && forall c :: 1 <= c < CPUS ==> s.copied[c] == 0
  }

  /** Word i of the directories of CPU 1 and up. */
  function OtherWord(s: Sys, i: nat): nat { Word(CpuDir(s.master, 1), i) }

  /** The writes of the first n words of those directories. */
  function Seeds(s: Sys, m': Words, n: nat): (r: seq<Event>)
    requires |m'| >= OtherWord(s, n)
    ensures |r| == n
  {
    seq(n, (i: nat) requires i < n => Seed(1 + i / SLOTS, i % SLOTS, m'[OtherWord(s, i)]))
  }

  /** Memory m with the first n words of those directories from m'. */
  function Seeded(s: Sys, m': Words, n: nat): Words
    requires |m'| == |s.m| >= OtherWord(s, n)
  {
    s.m[..OtherWord(s, 0)] + m'[OtherWord(s, 0)..OtherWord(s, n)] + s.m[OtherWord(s, n)..]
  }

  lemma OneSeed(s: Sys, s1: Sys, m': Words, n: nat)
    requires OnlyFirst(s) && n < (CPUS - 1) * SLOTS && |m'| == |s.m| && s1 == s.(m := Seeded(s, m', n))
    ensures OtherWord(s, n + 1) <= |s.m|
    ensures var ev := Seed(1 + n / SLOTS, n % SLOTS, m'[OtherWord(s, n)]);
      EnabledRun(s1, [ev]) && Run(s1, [ev]) == s.(m := Seeded(s, m', n + 1))
  {
    var ev := Seed(1 + n / SLOTS, n % SLOTS, m'[OtherWord(s, n)]);
    assert Word(Dir(s1, 1 + n / SLOTS), n % SLOTS) == OtherWord(s, n);
    assert Seeded(s, m', n)[OtherWord(s, n) := m'[OtherWord(s, n)]] == Seeded(s, m', n + 1);
    assert After(s1, ev) == s.(m := Seeded(s, m', n + 1));
  }

  lemma NoSeeds(s: Sys, m': Words)
    requires OnlyFirst(s) && |m'| == |s.m|
    ensures OtherWord(s, 0) <= |s.m| && Seeds(s, m', 0) == [] && Seeded(s, m', 0) == s.m
  {
  }

  lemma NextSeed(s: Sys, m': Words, n: nat)
    requires |m'| >= OtherWord(s, n + 1)
    ensures Seeds(s, m', n + 1) == Seeds(s, m', n) + [Seed(1 + n / SLOTS, n % SLOTS, m'[OtherWord(s, n)])]
  {
  }

  lemma SeedsFit(s: Sys, n: nat)
    requires OnlyFirst(s) && n <= (CPUS - 1) * SLOTS
    ensures OtherWord(s, n) <= |s.m|
  {
  }

  lemma {:induction false} SeedsRun(s: Sys, m': Words, n: nat)
    requires OnlyFirst(s) && n <= (CPUS - 1) * SLOTS && |m'| == |s.m|
    ensures OtherWord(s, n) <= |s.m| && EnabledRun(s, Seeds(s, m', n))
    ensures Run(s, Seeds(s, m', n)) == s.(m := Seeded(s, m', n))
    decreases n
  {
    hide Seeded, Seeds, After;
    SeedsFit(s, n);
    if n == 0 {
      NoSeeds(s, m');
    } else {
      SeedsRun(s, m', n - 1);
      OneSeed(s, s.(m := Seeded(s, m', n - 1)), m', n - 1);
      NextSeed(s, m', n - 1);
      RunsJoin(s, Seeds(s, m', n - 1), [Seed(1 + (n - 1) / SLOTS, (n - 1) % SLOTS, m'[OtherWord(s, n - 1)])]);
    }
  }

  lemma AllSeeded(s: Sys, m': Words)
    requires OnlyFirst(s) && FirstCopies(s.m, m', s.master)
    ensures |m'| == |s.m| >= OtherWord(s, (CPUS - 1) * SLOTS) && Seeded(s, m', (CPUS - 1) * SLOTS) == m'
  {
    var n := (CPUS - 1) * SLOTS;
    SeedsFit(s, n);
    forall w: nat | w < |s.m| ensures Seeded(s, m', n)[w] == m'[w] {
      if !(OtherWord(s, 0) <= w < OtherWord(s, n)) {
        assert !(CpuDir(s.master, 1) <= w / SLOTS < CpuDir(s.master, CPUS));
      }
    }
  }

  /** initialize_kernel_pg_tables is a run of the machine. */
  lemma FirstCopiesRun(s: Sys, m': Words)
    requires OnlyFirst(s) && FirstCopies(s.m, m', s.master)
    ensures |m'| == |s.m| >= OtherWord(s, (CPUS - 1) * SLOTS)
    ensures var run := Seeds(s, m', (CPUS - 1) * SLOTS); EnabledRun(s, run) && Run(s, run) == s.(m := m')
  {
    hide Seeded, Seeds, FirstCopies;
    AllSeeded(s, m');
    SeedsRun(s, m', (CPUS - 1) * SLOTS);
  }

  /** It keeps the directories coherent, and on the first directory of each other CPU the lowest
      4 MB are mapped like the first 4 MB of the kernel half, and the rest like the master. */
  lemma FirstDirectory(s: Sys, m': Words, c: nat, v: nat)
    requires Coherent(s) && OnlyFirst(s) && FirstCopies(s.m, m', s.master) && 1 <= c < CPUS && v < FRAMES
    ensures Coherent(s.(m := m'))
    ensures v < SLOTS ==> Translate(m', Dir(s, c), v) == Translate(m', Dir(s, c), KVA + v)
    ensures v >= SLOTS ==> Translate(m', Dir(s, c), v) == Translate(m', s.master, v)
    ensures v >= KVA ==> EntryOk(s, Pde(m', Dir(s, c), v), Slot(v))
  {
    hide Coherent;
    FirstCopiesCoherent(s, m');
    MasterOfCoherent(s);
    var s' := s.(m := m');
    forall x: nat | x < SLOTS ensures MasterEntry(s', x) == MasterEntry(s, x) {
      assert Word(s.master, x) / SLOTS == s.master;
    }
    assert Dir(s, c) == CpuDir(s.master, c);
    assert m'[Word(CpuDir(s.master, c), Slot(v))] == MasterEntry(s, if Slot(v) == 0 then KSLOT else Slot(v));
    assert m'[Word(CpuDir(s.master, c), KSLOT)] == MasterEntry(s, KSLOT);
    assert MasterEntry(s', Slot(v)) == MasterEntry(s, Slot(v));
  }

  lemma MasterOfCoherent(s: Sys)
    requires Coherent(s)
    ensures MasterOk(s)
  {
  }

  lemma FirstCopiesCoherent(s: Sys, m': Words)
    requires Coherent(s) && OnlyFirst(s) && FirstCopies(s.m, m', s.master)
    ensures Coherent(s.(m := m'))
  {
    hide After, EntryOk;
    var s', run := s.(m := m'), Seeds(s, m', (CPUS - 1) * SLOTS);
    FirstCopiesRun(s, m');
    SeedsTearFree(s, run);
    RunCoherentIff(s, run);
  }

  /** Seeding tears no copy. */
  lemma {:induction false} SeedsTearFree(s: Sys, run: seq<Event>)
    requires Sized(s) && EnabledRun(s, run) && forall i :: 0 <= i < |run| ==> run[i].Seed?
    ensures TearFree(s, run)
    decreases |run|
  {
    if run != [] { SeedsTearFree(After(s, run[0]), run[1..]); }
  }
}
