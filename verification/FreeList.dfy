/** The intrusive circular lists of util.h. Node f < frames is the free_page link of kpage f;
    node frames + k is the list head free_pages[k]. */
module FreeList {
  import opened Partition
  import opened BuddyMem

  datatype Link = Link(prev: nat, next: nat)

  /** The node after entry i of l on the ring of head h, and the node before it. */
  function NextOf(h: nat, l: seq<nat>, i: nat): nat {
    if i + 1 < |l| then l[i + 1] else h
  }

  function PrevOf(h: nat, l: seq<nat>, i: nat): nat {
    if 0 < i <= |l| then l[i - 1] else h
  }

  /** Head h and the entries l, in order, form one closed ring: each node's next names the
      node after it and each node's prev the node before it. */
  ghost predicate Ring(nodes: seq<Link>, h: nat, l: seq<nat>) {
    && h < |nodes| && nodes[h] == Link(PrevOf(h, l, |l|), if l == [] then h else l[0])
    && forall i :: 0 <= i < |l| ==> l[i] < |nodes| && nodes[l[i]] == Link(PrevOf(h, l, i), NextOf(h, l, i))
  }

  /** The links after list_insert_tail(h, x), node by node. */
  function LinkIn(nodes: seq<Link>, h: nat, x: nat): (r: seq<Link>)
    requires h < |nodes|
    ensures |r| == |nodes|
  {
    seq(|nodes|, (y: nat) requires y < |nodes| =>
      if y == x then Link(nodes[h].prev, h)
      else Link(if y == h then x else nodes[y].prev, if y == nodes[h].prev then x else nodes[y].next))
  }

  /** The links after list_remove_entry(x), for an x on a list, node by node. */
  function LinkOut(nodes: seq<Link>, x: nat): (r: seq<Link>)
    requires x < |nodes|
    ensures |r| == |nodes|
  {
    seq(|nodes|, (y: nat) requires y < |nodes| =>
      if y == x then Link(x, x)
      else Link(if y == nodes[x].next then nodes[x].prev else nodes[y].prev,
                if y == nodes[x].prev then nodes[x].next else nodes[y].next))
  }

  /** Inserting at the tail appends. */
  lemma LinkInAppends(nodes: seq<Link>, h: nat, l: seq<nat>, x: nat)
    requires Ring(nodes, h, l) && x < |nodes| && x !in l && x != h && h !in l && Distinct(l)
    ensures nodes[h].prev < |nodes| && nodes[h].prev != x && Ring(LinkIn(nodes, h, x), h, l + [x])
  {
    var r, l' := LinkIn(nodes, h, x), l + [x];
    forall i | 0 <= i < |l'| ensures l'[i] < |r| && r[l'[i]] == Link(PrevOf(h, l', i), NextOf(h, l', i)) {
      if i < |l| {
        assert l[i] in l && nodes[l[i]] == Link(PrevOf(h, l, i), NextOf(h, l, i));
        assert l[i] == l[|l| - 1] <==> i == |l| - 1;
      }
    }
  }

  /** l' is l without its entry i, the others in order. */
  ghost predicate WithoutEntry(l: seq<nat>, i: nat, l': seq<nat>)
    requires i < |l|
  {
    |l'| == |l| - 1 && forall j :: 0 <= j < |l'| ==> l'[j] == l[if j < i then j else j + 1]
  }

  /** Removing an entry from the middle keeps the rest of the ring in order. */
  lemma LinkOutCuts(nodes: seq<Link>, h: nat, l: seq<nat>, i: nat, l': seq<nat>)
    requires Ring(nodes, h, l) && i < |l| && h !in l && Distinct(l) && WithoutEntry(l, i, l')
    ensures nodes[l[i]].next != l[i] && nodes[l[i]].prev != l[i]
    ensures Ring(LinkOut(nodes, l[i]), h, l')
  {
    forall j | 0 <= j < |l'|
      ensures l'[j] < |nodes| && LinkOut(nodes, l[i])[l'[j]] == Link(PrevOf(h, l', j), NextOf(h, l', j))
    {
      CutEntry(nodes, h, l, i, l', j);
    }
    CutHead(nodes, h, l, i, l');
  }

  /** What the removal finds and leaves around entry i. */
  lemma Neighbours(nodes: seq<Link>, h: nat, l: seq<nat>, i: nat)
    requires Ring(nodes, h, l) && i < |l| && h !in l && Distinct(l)
    ensures l[i] < |nodes| && l[i] != h && nodes[l[i]] == Link(PrevOf(h, l, i), NextOf(h, l, i))
    ensures PrevOf(h, l, i) != l[i] && NextOf(h, l, i) != l[i]
    ensures PrevOf(h, l, i) == h <==> i == 0
    ensures NextOf(h, l, i) == h <==> i + 1 == |l|
    ensures forall j: nat :: j < |l| && j != i ==> l[j] != l[i]
    ensures forall j: nat ::
      j < |l| ==> (l[j] == PrevOf(h, l, i) <==> j == i - 1) && (l[j] == NextOf(h, l, i) <==> j == i + 1)
  {
    assert l[i] in l;
    forall j: nat | j < |l|
      ensures (l[j] == PrevOf(h, l, i) <==> j == i - 1) && (l[j] == NextOf(h, l, i) <==> j == i + 1)
    {
      EntryIs(h, l, i, j);
    }
    if i > 0 { assert l[i - 1] in l; }
    if i + 1 < |l| { assert l[i + 1] in l; }
  }

  /** Entry j comes before, or after, entry i exactly when its position does. */
  lemma EntryIs(h: nat, l: seq<nat>, i: nat, j: nat)
    requires i < |l| && j < |l| && h !in l && Distinct(l)
    ensures (l[j] == PrevOf(h, l, i) <==> j == i - 1) && (l[j] == NextOf(h, l, i) <==> j == i + 1)
  {
    assert l[j] in l;
  }

  lemma CutEnds(h: nat, l: seq<nat>, i: nat, l': seq<nat>)
    requires i < |l| && WithoutEntry(l, i, l')
    ensures PrevOf(h, l', |l'|) == if i + 1 == |l| then PrevOf(h, l, i) else l[|l| - 1]
    ensures (if l' == [] then h else l'[0]) == if i == 0 then NextOf(h, l, i) else l[0]
  {
    if l' != [] {
      assert l'[|l'| - 1] == l[if |l'| - 1 < i then |l'| - 1 else |l'|];
      assert l'[0] == l[if 0 < i then 0 else 1];
    }
  }

  lemma CutHead(nodes: seq<Link>, h: nat, l: seq<nat>, i: nat, l': seq<nat>)
    requires Ring(nodes, h, l) && i < |l| && h !in l && Distinct(l) && WithoutEntry(l, i, l')
    ensures nodes[l[i]].next != l[i] && nodes[l[i]].prev != l[i]
    ensures LinkOut(nodes, l[i])[h] == Link(PrevOf(h, l', |l'|), if l' == [] then h else l'[0])
  {
    Neighbours(nodes, h, l, i);
    CutEnds(h, l, i, l');
    hide Distinct, WithoutEntry, PrevOf, NextOf;
    assert nodes[h].next == l[0];
    assert PrevOf(h, l, |l|) == l[|l| - 1];
  }

  lemma CutNeighbours(h: nat, l: seq<nat>, i: nat, l': seq<nat>, j: nat)
    requires i < |l| && WithoutEntry(l, i, l') && j < |l'|
    ensures var j' := if j < i then j else j + 1;
      && l'[j] == l[j'] && PrevOf(h, l', j) == (if j' == i + 1 then PrevOf(h, l, i) else PrevOf(h, l, j'))
      && NextOf(h, l', j) == (if j' + 1 == i then NextOf(h, l, i) else NextOf(h, l, j'))
  {
    if j > 0 { assert l'[j - 1] == l[if j - 1 < i then j - 1 else j]; }
    if j + 1 < |l'| { assert l'[j + 1] == l[if j + 1 < i then j + 1 else j + 2]; }
  }

  lemma CutEntry(nodes: seq<Link>, h: nat, l: seq<nat>, i: nat, l': seq<nat>, j: nat)
    requires Ring(nodes, h, l) && i < |l| && h !in l && Distinct(l) && WithoutEntry(l, i, l') && j < |l'|
    ensures l'[j] < |nodes| && LinkOut(nodes, l[i])[l'[j]] == Link(PrevOf(h, l', j), NextOf(h, l', j))
  {
    hide Distinct, WithoutEntry, PrevOf, NextOf, Ring;
    var j' := if j < i then j else j + 1;
    CutLength(l, i, l');
    Neighbours(nodes, h, l, i);
    Neighbours(nodes, h, l, j');
    CutNeighbours(h, l, i, l', j);
  }

  lemma CutLength(l: seq<nat>, i: nat, l': seq<nat>)
    requires i < |l| && WithoutEntry(l, i, l')
    ensures |l'| == |l| - 1
  {
  }

  /** The links of an entry lead to the head or to entries of its own list. */
  lemma LinkTargets(nodes: seq<Link>, h: nat, l: seq<nat>, i: nat)
    requires Ring(nodes, h, l) && i < |l|
    ensures nodes[l[i]].next == h || nodes[l[i]].next in l
    ensures nodes[l[i]].prev == h || nodes[l[i]].prev in l
  {
    assert nodes[l[i]] == Link(PrevOf(h, l, i), NextOf(h, l, i));
  }

  /** A ring none of whose nodes changed is still a ring. */
  lemma RingFrame(nodes: seq<Link>, nodes': seq<Link>, h: nat, l: seq<nat>)
    requires Ring(nodes, h, l) && |nodes'| == |nodes| && nodes'[h] == nodes[h]
    requires forall p :: p in l ==> p < |nodes| && nodes'[p] == nodes[p]
    ensures Ring(nodes', h, l)
  {
    forall i | 0 <= i < |l| ensures nodes'[l[i]] == nodes[l[i]] { assert l[i] in l; }
  }

  /** One list per order over disjoint frames, each a ring of links. */
  ghost predicate Linkage(nodes: seq<Link>, frames: nat, lists: seq<seq<nat>>) {
    && |lists| == ORDERS && |nodes| == frames + ORDERS
    && (forall k: nat :: k <= MAX_ALLOC_ORDER ==> ListFits(nodes, frames, lists, k))
    && Apart(lists)
  }

  ghost predicate Apart(lists: seq<seq<nat>>)
    requires |lists| == ORDERS
  {
    forall k: nat, j: nat, p: nat {:trigger p in lists[k], p in lists[j]} ::
      k <= MAX_ALLOC_ORDER && j <= MAX_ALLOC_ORDER && p in lists[k] && p in lists[j] ==> k == j
  }

  lemma ApartKeeps(lists: seq<seq<nat>>, k: nat, l: seq<nat>, x: nat)
    requires |lists| == ORDERS && Apart(lists) && k <= MAX_ALLOC_ORDER
    requires forall p :: p in l ==> p in lists[k] || p == x
    requires forall j: nat :: j <= MAX_ALLOC_ORDER && j != k ==> x !in lists[j]
    ensures Apart(lists[k := l])
  {
    var lists' := lists[k := l];
    forall i: nat, j: nat, p: nat | i <= MAX_ALLOC_ORDER && j <= MAX_ALLOC_ORDER && p in lists'[i] && p in lists'[j]
      ensures i == j
    {
      assert i != k ==> lists'[i] == lists[i];
      assert j != k ==> lists'[j] == lists[j];
    }
  }

  ghost predicate ListFits(nodes: seq<Link>, frames: nat, lists: seq<seq<nat>>, k: nat)
    requires |lists| == ORDERS && k <= MAX_ALLOC_ORDER
  {
    Ring(nodes, frames + k, lists[k]) && Distinct(lists[k]) && forall p :: p in lists[k] ==> p < frames
  }

  lemma LinkInKeeps(nodes: seq<Link>, frames: nat, lists: seq<seq<nat>>, k: nat, x: nat)
    requires Linkage(nodes, frames, lists) && k <= MAX_ALLOC_ORDER && x < frames
    requires forall j: nat :: j <= MAX_ALLOC_ORDER ==> x !in lists[j]
    ensures nodes[frames + k].prev < |nodes| && nodes[frames + k].prev != x
    ensures Linkage(LinkIn(nodes, frames + k, x), frames, lists[k := lists[k] + [x]])
  {
    var nodes', lists' := LinkIn(nodes, frames + k, x), lists[k := lists[k] + [x]];
    LinkInThis(nodes, frames, lists, k, x);
    forall j: nat | j <= MAX_ALLOC_ORDER ensures ListFits(nodes', frames, lists', j) {
      if j != k { LinkInOther(nodes, frames, lists, k, x, j); }
    }
    ApartKeeps(lists, k, lists[k] + [x], x);
  }

  lemma LinkInThis(nodes: seq<Link>, frames: nat, lists: seq<seq<nat>>, k: nat, x: nat)
    requires |lists| == ORDERS && |nodes| == frames + ORDERS && k <= MAX_ALLOC_ORDER
    requires ListFits(nodes, frames, lists, k)
    requires x < frames && x !in lists[k]
    ensures nodes[frames + k].prev < |nodes| && nodes[frames + k].prev != x
    ensures ListFits(LinkIn(nodes, frames + k, x), frames, lists[k := lists[k] + [x]], k)
    ensures forall p :: p in lists[k] + [x] ==> p in lists[k] || p == x
  {
    LinkInAppends(nodes, frames + k, lists[k], x);
    AppendDistinct(lists[k], x);
  }

  lemma AppendDistinct(l: seq<nat>, x: nat)
    requires Distinct(l) && x !in l
    ensures Distinct(l + [x])
    ensures forall p :: p in l + [x] <==> p in l || p == x
  {
    forall i, j | 0 <= i < j < |l + [x]| ensures (l + [x])[i] != (l + [x])[j] {
      assert (l + [x])[i] == l[i] && l[i] in l;
    }
  }

  /** The tail of a list is its head or an entry, and other heads are not linked from it. */
  lemma HeadOf(nodes: seq<Link>, frames: nat, lists: seq<seq<nat>>, k: nat)
    requires Linkage(nodes, frames, lists) && k <= MAX_ALLOC_ORDER
    ensures frames + k < |nodes|
    ensures nodes[frames + k].prev == frames + k || nodes[frames + k].prev in lists[k]
  {
    assert ListFits(nodes, frames, lists, k);
  }

  lemma LinkInElsewhere(nodes: seq<Link>, h: nat, x: nat, y: nat)
    requires h < |nodes| && y < |nodes| && y != x && y != h && y != nodes[h].prev
    ensures LinkIn(nodes, h, x)[y] == nodes[y]
  {
  }

  lemma LinkInOther(nodes: seq<Link>, frames: nat, lists: seq<seq<nat>>, k: nat, x: nat, j: nat)
    requires Linkage(nodes, frames, lists) && k <= MAX_ALLOC_ORDER && x < frames
    requires j <= MAX_ALLOC_ORDER && j != k && x !in lists[j]
    ensures ListFits(LinkIn(nodes, frames + k, x), frames, lists[k := lists[k] + [x]], j)
  {
    hide Ring, Distinct, Apart, LinkIn;
    HeadOf(nodes, frames, lists, k);
    OtherRing(nodes, frames, lists, j, k);
    assert ListFits(nodes, frames, lists, j);
    forall p | p in lists[j] ensures LinkIn(nodes, frames + k, x)[p] == nodes[p] {
      LinkInElsewhere(nodes, frames + k, x, p);
    }
    LinkInElsewhere(nodes, frames + k, x, frames + j);
    OtherListFits(nodes, LinkIn(nodes, frames + k, x), frames, lists, lists[k := lists[k] + [x]], j);
  }

  /** An entry of one list is neither the head nor an entry of another. */
  lemma OtherRing(nodes: seq<Link>, frames: nat, lists: seq<seq<nat>>, j: nat, k: nat)
    requires Linkage(nodes, frames, lists) && j <= MAX_ALLOC_ORDER && k <= MAX_ALLOC_ORDER && j != k
    ensures forall p :: p in lists[j] ==> p != frames + k && p !in lists[k] && p < |nodes|
    ensures frames + j !in lists[k]
  {
    assert ListFits(nodes, frames, lists, j) && ListFits(nodes, frames, lists, k);
  }

  lemma OtherListFits(nodes: seq<Link>, nodes': seq<Link>, frames: nat, lists: seq<seq<nat>>, lists': seq<seq<nat>>,
                      j: nat)
    requires |lists| == ORDERS && |lists'| == ORDERS && j <= MAX_ALLOC_ORDER && lists'[j] == lists[j]
    requires ListFits(nodes, frames, lists, j) && |nodes'| == |nodes| && nodes'[frames + j] == nodes[frames + j]
    requires forall p :: p in lists[j] ==> nodes'[p] == nodes[p]
    ensures ListFits(nodes', frames, lists', j)
  {
    RingFrame(nodes, nodes', frames + j, lists[j]);
  }

  lemma LinkOutKeeps(nodes: seq<Link>, frames: nat, lists: seq<seq<nat>>, k: nat, i: nat)
    requires Linkage(nodes, frames, lists) && k <= MAX_ALLOC_ORDER && i < |lists[k]|
    ensures var x := lists[k][i];
      x < frames && nodes[x].next < |nodes| && nodes[x].prev < |nodes| && nodes[x].next != x && nodes[x].prev != x &&
      Linkage(LinkOut(nodes, x), frames, lists[k := Unlink(lists[k], x)])
  {
    var x := lists[k][i];
    LinkOutThis(nodes, frames, lists, k, i);
    var nodes', lists' := LinkOut(nodes, x), lists[k := Unlink(lists[k], x)];
    forall j: nat | j <= MAX_ALLOC_ORDER ensures ListFits(nodes', frames, lists', j) {
      if j != k { LinkOutOther(nodes, frames, lists, k, i, j); }
    }
    ApartKeeps(lists, k, Unlink(lists[k], x), x);
  }

  lemma LinkOutThis(nodes: seq<Link>, frames: nat, lists: seq<seq<nat>>, k: nat, i: nat)
    requires Linkage(nodes, frames, lists) && k <= MAX_ALLOC_ORDER && i < |lists[k]|
    ensures var x := lists[k][i];
      x in lists[k] && x < frames && nodes[x].next < |nodes| && nodes[x].prev < |nodes| && nodes[x].next != x
        && nodes[x].prev != x &&
      ListFits(LinkOut(nodes, x), frames, lists[k := Unlink(lists[k], x)], k) &&
      (forall p :: p in Unlink(lists[k], x) ==> p in lists[k])
  {
    hide Ring, LinkOut, Unlink;
    var l, x := lists[k], lists[k][i];
    assert ListFits(nodes, frames, lists, k) && x in l;
    UnlinkWithout(l, i);
    LinkOutCuts(nodes, frames + k, l, i, Unlink(l, x));
    LinkTargets(nodes, frames + k, l, i);
    UnlinkMembers(l, x);
  }

  lemma UnlinkWithout(l: seq<nat>, i: nat)
    requires Distinct(l) && i < |l|
    ensures WithoutEntry(l, i, Unlink(l, l[i]))
  {
    UnlinkAt(l, i);
  }

  lemma LinkOutOther(nodes: seq<Link>, frames: nat, lists: seq<seq<nat>>, k: nat, i: nat, j: nat)
    requires Linkage(nodes, frames, lists) && k <= MAX_ALLOC_ORDER && i < |lists[k]| && j <= MAX_ALLOC_ORDER && j != k
    ensures lists[k][i] < |nodes|
    ensures ListFits(LinkOut(nodes, lists[k][i]), frames, lists[k := Unlink(lists[k], lists[k][i])], j)
  {
    hide Ring, Unlink, Distinct;
    var x := lists[k][i];
    assert ListFits(nodes, frames, lists, k) && ListFits(nodes, frames, lists, j) && x in lists[k];
    LinkTargets(nodes, frames + k, lists[k], i);
    OtherRing(nodes, frames, lists, j, k);
    OtherListFits(nodes, LinkOut(nodes, x), frames, lists, lists[k := Unlink(lists[k], x)], j);
  }

  /** The link fields of all kpages and list heads. */
  class FreeLists {
    const frames: nat
    const node: array<Link>
    ghost var lists: seq<seq<nat>>

    ghost predicate Valid()
      reads this, node
    {
      Linkage(node[..], frames, lists)
    }

    /** list_init on every head, over links whose entries are not yet on any list. */
    constructor (frames: nat)
      ensures Valid() && fresh(node) && this.frames == frames
      ensures lists == seq(ORDERS, i => [])
    {
      this.frames := frames;
      node := new Link[frames + ORDERS](i => Link(0, 0));
      lists := seq(ORDERS, i => []);
      new;
      var h := frames;
      while h < frames + ORDERS
        invariant frames <= h <= frames + ORDERS
        invariant lists == seq(ORDERS, i => [])
        invariant forall j :: frames <= j < h ==> node[j] == Link(j, j)
      {
        node[h] := Link(h, h);
        h := h + 1;
      }
      forall j: nat | j <= MAX_ALLOC_ORDER ensures ListFits(node[..], frames, lists, j) {
        assert node[frames + j] == Link(frames + j, frames + j) && lists[j] == [];
      }
    }

    /** list_empty on the link x */
    method IsEmpty(x: nat) returns (r: bool)
      requires x < node.Length
      ensures r <==> node[x].next == x && node[x].next == node[x].prev
    {
      r := node[x].next == x && node[x].next == node[x].prev;
    }

    /** list_prev_entry(&free_pages[k]): the newest entry, or NULL. */
    method Last(k: nat) returns (r: Option<nat>)
      requires Valid() && k <= MAX_ALLOC_ORDER
      ensures r == if lists[k] == [] then None else Some(lists[k][|lists[k]| - 1])
    {
      assert ListFits(node[..], frames, lists, k);
      assert lists[k] != [] ==> lists[k][0] in lists[k];
      var e := IsEmpty(frames + k);
      r := if e then None else Some(node[frames + k].prev);
    }

    /** list_insert_tail(&free_pages[k], &kpages[x].free_page) */
    method InsertTail(k: nat, x: nat)
      requires Valid() && k <= MAX_ALLOC_ORDER && x < frames
      requires forall j: nat :: j <= MAX_ALLOC_ORDER ==> x !in lists[j]
      modifies node, this`lists
      ensures Valid() && lists == old(lists)[k := old(lists)[k] + [x]]
    {
      var h := frames + k;
      ghost var was := node[..];
      LinkInKeeps(was, frames, lists, k, x);
      node[x] := Link(node[h].prev, h);
      var t := node[h].prev;
      node[t] := node[t].(next := x);
      node[h] := node[h].(prev := x);
      assert node[..] == LinkIn(was, h, x);
      lists := lists[k := lists[k] + [x]];
    }

    /** list_remove_entry(&kpages[x].free_page) */
    method RemoveEntry(ghost k: nat, x: nat)
      requires Valid() && k <= MAX_ALLOC_ORDER && x in lists[k]
      modifies node, this`lists
      ensures Valid() && lists == old(lists)[k := Unlink(old(lists)[k], x)]
    {
      ghost var was := node[..];
      ghost var i :| 0 <= i < |lists[k]| && lists[k][i] == x;
      LinkOutKeeps(was, frames, lists, k, i);
      var e := IsEmpty(x);
      if !e {
        var a, b := node[x].next, node[x].prev;
        node[a] := node[a].(prev := b);
        node[b] := node[b].(next := a);
        node[x] := Link(x, x);
      }
      assert node[..] == LinkOut(was, x);
      lists := lists[k := Unlink(lists[k], x)];
    }
  }
}
