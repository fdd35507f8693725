/**
 The shell's indexed arrays (bin/bash/array.c): a circular doubly-linked list with a dummy
 head, kept in index order, and a roving pointer from which searches start in either
 direction.  Each operation is proved to do what ArrayContents says.
 */
module SparseArrays {
  import opened Options
  import opened Folding
  import opened ArrayContents

  class Element {
    var ind: int
    var value: string
    var next: Element?
    var prev: Element?

    constructor (ind: int, value: string)
      ensures this.ind == ind && this.value == value && next == null && prev == null
    {
      this.ind, this.value, this.next, this.prev := ind, value, null, null;
    }
  }

  /** The nodes, head first, form one ring. */
  ghost predicate Ring(nodes: seq<Element>)
    reads nodes
  {
    |nodes| > 0
    && (forall i, j :: 0 <= i < j < |nodes| ==> nodes[i] != nodes[j])
    && (forall i {:trigger nodes[i].next} :: 0 <= i < |nodes| ==> nodes[i].next == Around(nodes, i + 1))
    && (forall i {:trigger nodes[i].prev} :: 0 <= i < |nodes| ==> nodes[i].prev == Around(nodes, i - 1))
  }

  /** The node at a position that may be one past either end. */
  ghost function Around(nodes: seq<Element>, i: int): Element
    requires |nodes| > 0 && -1 <= i <= |nodes|
  {
    if i == -1 then nodes[|nodes| - 1] else if i == |nodes| then nodes[0] else nodes[i]
  }

  /** The entries of the nodes after the head. */
  ghost function EntriesOf(nodes: seq<Element>): (s: seq<Entry>)
    requires |nodes| > 0
    reads nodes
    ensures |s| == |nodes| - 1 && forall k :: 0 <= k < |s| ==> s[k] == Entry(nodes[k + 1].ind, nodes[k + 1].value)
  {
    seq(|nodes| - 1, k requires 0 <= k < |nodes| - 1 reads nodes => Entry(nodes[k + 1].ind, nodes[k + 1].value))
  }

  ghost function WrapIndex(nodes: seq<Element>, k: nat): nat {
    if k < |nodes| then k else 0
  }

  /** A ring but for a node x that has been hooked in before the k-th node. */
  ghost predicate Hooking(nodes: seq<Element>, k: nat, x: Element)
    requires 1 <= k <= |nodes|
    reads nodes, x
  {
    x.next == Around(nodes, k) && x.prev == nodes[k - 1] && nodes[k - 1].next == x && Around(nodes, k).prev == x
    && (forall i, j :: 0 <= i < j < |nodes| ==> nodes[i] != nodes[j])
    && (forall i {:trigger nodes[i].next} :: 0 <= i < |nodes| && i != k - 1 ==> nodes[i].next == Around(nodes, i + 1))
    && (forall i {:trigger nodes[i].prev} :: 0 <= i < |nodes| && i != WrapIndex(nodes, k) ==>
          nodes[i].prev == Around(nodes, i - 1))
  }

  lemma HookedRing(nodes: seq<Element>, k: nat, x: Element)
    requires 1 <= k <= |nodes| && x !in nodes && Hooking(nodes, k, x)
    ensures Ring(nodes[..k] + [x] + nodes[k..])
  {
    var longer := nodes[..k] + [x] + nodes[k..];
    var n := |longer|;
    assert (forall i :: 0 <= i < k ==> longer[i] == nodes[i]) && longer[k] == x;
    assert forall i :: k <= i < |nodes| ==> longer[i + 1] == nodes[i];
    forall i | 0 <= i < n ensures longer[i].next == Around(longer, i + 1) && longer[i].prev == Around(longer, i - 1) {
      RingNode(nodes, k, x, longer, i);
    }
    forall i, j | 0 <= i < j < n ensures longer[i] != longer[j] {
      var i', j' := if i < k then i else i - 1, if j < k then j else j - 1;
      if i != k && j != k {
        assert longer[i] == nodes[i'] && longer[j] == nodes[j'];
      }
    }
    assert Ring(longer);
  }

  lemma RingNode(nodes: seq<Element>, k: nat, x: Element, longer: seq<Element>, i: nat)
    requires 1 <= k <= |nodes| && Hooking(nodes, k, x) && |longer| == |nodes| + 1 && i < |longer|
    requires (forall i :: 0 <= i < k ==> longer[i] == nodes[i]) && longer[k] == x
    requires forall i :: k <= i < |nodes| ==> longer[i + 1] == nodes[i]
    ensures longer[i].next == Around(longer, i + 1) && longer[i].prev == Around(longer, i - 1)
  {
    var m := if i < k then i else i - 1;
    assert i != k ==> longer[i] == nodes[m];
    assert k < |nodes| ==> longer[k + 1] == nodes[k];
    assert m > k ==> longer[m] == nodes[m - 1];
    assert k <= m && m + 1 < |nodes| ==> longer[m + 2] == nodes[m + 1];
  }

  /** Put a new node in front of `at`, which is the k-th node, or the head if k is past the last. */
  method AddBefore(at: Element, fresh': Element, ghost nodes: seq<Element>, ghost k: nat)
    requires Ring(nodes) && 1 <= k <= |nodes| && at == Around(nodes, k)
    requires fresh' !in nodes
    requires at.prev != null
    modifies at`prev, at.prev`next, fresh'`next, fresh'`prev
    ensures Ring(nodes[..k] + [fresh'] + nodes[k..])
  {
    at.prev.next := fresh';
    fresh'.prev := at.prev;
    at.prev := fresh';
    fresh'.next := at;
    HookedRing(nodes, k, fresh');
  }

  /** Put a new node behind `at`, the k-th node. */
  method AddAfter(at: Element, fresh': Element, ghost nodes: seq<Element>, ghost k: nat)
    requires Ring(nodes) && k < |nodes| && at == nodes[k]
    requires fresh' !in nodes
    requires at.next != null
    modifies at`next, at.next`prev, fresh'`next, fresh'`prev
    ensures Ring(nodes[..k + 1] + [fresh'] + nodes[k + 1..])
  {
    at.next.prev := fresh';
    fresh'.next := at.next;
    fresh'.prev := at;
    at.next := fresh';
    HookedRing(nodes, k + 1, fresh');
  }

  /** Take the k-th node out of the ring. */
  method Unlink(at: Element, ghost nodes: seq<Element>, ghost k: nat)
    requires Ring(nodes) && 1 <= k < |nodes| && at == nodes[k]
    requires at.next != null && at.prev != null
    modifies at.next`prev, at.prev`next
    ensures Ring(nodes[..k] + nodes[k + 1..])
  {
    at.next.prev := at.prev;
    at.prev.next := at.next;
  }

  /** The dummy head has index -1 and the indices increase from there. */
  ghost predicate Increasing(nodes: seq<Element>)
    reads nodes
  {
    |nodes| > 0 && nodes[0].ind == -1 && forall i, j :: 0 <= i < j < |nodes| ==> nodes[i].ind < nodes[j].ind
  }

  lemma EntriesOrdered(nodes: seq<Element>)
    requires Increasing(nodes)
    ensures Ordered(EntriesOf(nodes)) && MaxIndex(EntriesOf(nodes)) == nodes[|nodes| - 1].ind
  {
  }

  /** The shape of a list: one ring, indices increasing behind the dummy head. */
  ghost predicate Shaped(nodes: seq<Element>)
    reads nodes
  {
    |nodes| > 0 && FoldedIn(|nodes| + 4, ShapedFact, nodes)
  }

  ghost predicate ShapedFact(nodes: seq<Element>)
    reads nodes
  {
    Ring(nodes) && Increasing(nodes)
  }

  lemma Unfold(nodes: seq<Element>)
    ensures Shaped(nodes) <==> Ring(nodes) && Increasing(nodes)
  {
    UnfoldedIn(|nodes| + 4, ShapedFact, nodes);
  }

  lemma Neighbours(nodes: seq<Element>, k: nat)
    requires Shaped(nodes) && k < |nodes|
    ensures nodes[k].next == Around(nodes, k + 1) && nodes[k].prev == Around(nodes, k - 1)
    ensures nodes[0].ind == -1 && (k > 0 ==> nodes[k].ind >= 0 && nodes[k] != nodes[0])
    ensures k + 1 < |nodes| ==> nodes[k].ind < nodes[k + 1].ind
    ensures k > 0 ==> nodes[k - 1].ind < nodes[k].ind
    ensures nodes[k].ind <= nodes[|nodes| - 1].ind && (k + 1 < |nodes| ==> nodes[k].ind < nodes[|nodes| - 1].ind)
  {
    Unfold(nodes);
  }

  lemma ShapedEntries(nodes: seq<Element>)
    requires Shaped(nodes)
    ensures Ordered(EntriesOf(nodes)) && MaxIndex(EntriesOf(nodes)) == nodes[|nodes| - 1].ind
  {
    Unfold(nodes);
    EntriesOrdered(nodes);
  }

  /** A node linked in as the k-th, between a smaller and a larger index. */
  lemma HookShape(nodes: seq<Element>, k: nat, x: Element)
    requires Increasing(nodes) && 1 <= k <= |nodes| && Ring(nodes[..k] + [x] + nodes[k..])
    requires nodes[k - 1].ind < x.ind && (k < |nodes| ==> x.ind < nodes[k].ind)
    ensures Shaped(nodes[..k] + [x] + nodes[k..])
  {
    Unfold(nodes[..k] + [x] + nodes[k..]);
  }

  lemma HookEntries(nodes: seq<Element>, k: nat, x: Element)
    requires 1 <= k <= |nodes|
    ensures var s := EntriesOf(nodes);
            EntriesOf(nodes[..k] + [x] + nodes[k..]) == s[..k - 1] + [Entry(x.ind, x.value)] + s[k - 1..]
  {
    var s, nodes' := EntriesOf(nodes), nodes[..k] + [x] + nodes[k..];
    var t := s[..k - 1] + [Entry(x.ind, x.value)] + s[k - 1..];
    forall j | 0 <= j < |t| ensures EntriesOf(nodes')[j] == t[j] {
      assert nodes'[j + 1] == if j + 1 < k then nodes[j + 1] else if j + 1 == k then x else nodes[j];
    }
  }

  lemma UnlinkEntries(nodes: seq<Element>, k: nat)
    requires 1 <= k < |nodes|
    ensures EntriesOf(nodes[..k] + nodes[k + 1..]) == EntriesOf(nodes)[..k - 1] + EntriesOf(nodes)[k..]
  {
  }

  lemma UnlinkShape(nodes: seq<Element>, k: nat)
    requires Increasing(nodes) && 1 <= k < |nodes| && Ring(nodes[..k] + nodes[k + 1..])
    ensures Shaped(nodes[..k] + nodes[k + 1..])
  {
    Unfold(nodes[..k] + nodes[k + 1..]);
  }

  lemma RestWithout(nodes: seq<Element>, k: nat)
    requires Shaped(nodes) && 1 <= k < |nodes|
    ensures var rest := nodes[..k] + nodes[k + 1..];
            nodes[k] !in rest && rest[0] == nodes[0] && |rest| == |nodes| - 1
            && (k + 1 < |nodes| ==> rest[k] == nodes[k + 1] && rest[|rest| - 1] == nodes[|nodes| - 1])
            && (k + 1 == |nodes| ==> rest[|rest| - 1] == nodes[k - 1])
  {
    Unfold(nodes);
  }

  lemma Distinct(nodes: seq<Element>, i: nat, j: nat)
    requires Shaped(nodes) && 1 <= i <= j <= |nodes|
    ensures Around(nodes, i) == Around(nodes, j) <==> i == j
  {
    Unfold(nodes);
  }

  lemma OutOfBounds(nodes: seq<Element>, i: int)
    requires Shaped(nodes) && |nodes| > 1 && (i > nodes[|nodes| - 1].ind || i < nodes[1].ind)
    ensures Find(EntriesOf(nodes), i) == None && Drop(EntriesOf(nodes), i) == EntriesOf(nodes)
  {
    ShapedEntries(nodes);
    AbsentBetween(EntriesOf(nodes), if i < nodes[1].ind then 0 else |nodes| - 1, i);
  }

  lemma NodeFound(nodes: seq<Element>, k: nat)
    requires Shaped(nodes) && 1 <= k < |nodes|
    ensures Find(EntriesOf(nodes), nodes[k].ind) == Some(nodes[k].value)
  {
    ShapedEntries(nodes);
    FindAt(EntriesOf(nodes), k - 1);
  }

  lemma NotFound(nodes: seq<Element>, k: nat, i: int)
    requires Shaped(nodes) && 1 <= k < |nodes| && nodes[k - 1].ind < i < nodes[k].ind
    ensures Find(EntriesOf(nodes), i) == None && Drop(EntriesOf(nodes), i) == EntriesOf(nodes)
  {
    ShapedEntries(nodes);
    AbsentBetween(EntriesOf(nodes), k - 1, i);
  }

  /** Nodes that carry the entries of s, one after the other. */
  lemma FromEntries(nodes: seq<Element>, s: seq<Entry>)
    requires Ring(nodes) && |nodes| == |s| + 1 && nodes[0].ind == -1 && Ordered(s)
    requires forall j :: 1 <= j < |nodes| ==> nodes[j].ind == s[j - 1].ind && nodes[j].value == s[j - 1].value
    ensures Shaped(nodes) && EntriesOf(nodes) == s
  {
    Unfold(nodes);
  }

  /** The nodes are a list that holds `all`. */
  ghost predicate Carries(nodes: seq<Element>, all: seq<Entry>)
    reads nodes
  {
    Shaped(nodes) && |nodes| == |all| + 1 && FoldedIn(|nodes| + 4, CarriesFact, (nodes, all))
  }

  ghost predicate CarriesFact(x: (seq<Element>, seq<Entry>))
    reads x.0
  {
    |x.0| > 0 && EntriesOf(x.0) == x.1
  }

  lemma Opened(nodes: seq<Element>, all: seq<Entry>)
    requires Shaped(nodes)
    ensures Carries(nodes, all) <==> EntriesOf(nodes) == all
    ensures Carries(nodes, all) ==> nodes[|nodes| - 1].ind == MaxIndex(all) && Ordered(all)
  {
    UnfoldedIn(|nodes| + 4, CarriesFact, (nodes, all));
    ShapedEntries(nodes);
  }

  lemma CarriesPart(nodes: seq<Element>, all: seq<Entry>, from: nat, k: nat, done: seq<Entry>)
    requires Carries(nodes, all) && Part(all, from, k, done)
    ensures done == EntriesOf(nodes)[from..k] && (from == 0 && k == |all| ==> done == EntriesOf(nodes))
    ensures from == 0 && k == |all| ==> MaxIndex(done) == nodes[|nodes| - 1].ind
  {
    Opened(nodes, all);
  }

  /** What a walk over a list that holds `all` meets; it ends at `end`. */
  ghost predicate Walk(nodes: seq<Element>, all: seq<Entry>, from: nat, end: nat)
    reads nodes
  {
    |nodes| == |all| + 1 && 1 <= from <= end <= |nodes|
    && (forall k {:trigger nodes[k].next} :: from <= k < end ==> nodes[k].next == Around(nodes, k + 1))
    && (forall k {:trigger nodes[k].ind} :: from <= k < end ==> nodes[k].ind == all[k - 1].ind)
    && (forall k {:trigger nodes[k].value} :: from <= k < end ==> nodes[k].value == all[k - 1].value)
    && (forall k {:trigger nodes[k]} :: from <= k < end ==> nodes[k] != Around(nodes, end))
  }

  lemma CanWalk(nodes: seq<Element>, from: nat, end: nat) returns (all: seq<Entry>)
    requires Shaped(nodes) && 1 <= from <= end <= |nodes|
    ensures Carries(nodes, all) && Walk(nodes, all, from, end) && Part(all, from - 1, from - 1, [])
  {
    all := EntriesOf(nodes);
    Opened(nodes, all);
    Unfold(nodes);
  }

  /** `done` are the entries from the one at `from` up to the one at k. */
  ghost predicate Part(all: seq<Entry>, from: nat, k: nat, done: seq<Entry>) {
    from <= k <= |all| && Ordered(all) && done == all[from..k]
  }

  lemma NextPart(all: seq<Entry>, from: nat, k: nat, done: seq<Entry>) returns (more: seq<Entry>)
    requires Part(all, from, k, done) && k < |all|
    ensures more == done + [all[k]] && Part(all, from, k + 1, more)
    ensures all[k].ind > MaxIndex(done) && MaxIndex(more) == all[k].ind
  {
    more := done + [all[k]];
    assert all[from..k] + [all[k]] == all[from..k + 1];
  }

  /** Linked through `next` alone, null at the end. */
  ghost predicate Chain(first: Element?, s: seq<Element>)
    reads s
  {
    |s| > 0 && first == s[0] && forall i :: 0 <= i < |s| ==> s[i].next == if i + 1 < |s| then s[i + 1] else null
  }

  /** The first n nodes behind the head, or all of them. */
  ghost function FirstOf(nodes: seq<Element>, n: int): seq<Element>
    requires n > 0 && |nodes| > 0
  {
    nodes[1..if n < |nodes| then n + 1 else |nodes|]
  }

  /** Add delta to the index of every node from the k-th on. */
  method Renumber(first: Element, head: Element, delta: int, ghost nodes: seq<Element>, ghost k: nat)
    requires Ring(nodes) && nodes[0] == head && 1 <= k <= |nodes| && first == Around(nodes, k)
    modifies nodes`ind
    ensures Ring(nodes)
    ensures forall j :: 0 <= j < |nodes| ==> nodes[j].ind == old(nodes[j].ind) + if j < k then 0 else delta
  {
    var ae := first;
    ghost var m := k;
    while ae != head
      invariant k <= m <= |nodes| && ae == Around(nodes, m) && Ring(nodes)
      invariant forall j :: 0 <= j < |nodes| ==> nodes[j].ind == old(nodes[j].ind) + if k <= j < m then delta else 0
      decreases |nodes| - m
    {
      ae.ind := ae.ind + delta;
      ae := ae.next;
      m := m + 1;
    }
  }

  /** Cut the ring behind the n-th node after the head: what is left, and the chain cut out. */
  method CutRing(head: Element, ae: Element, ghost nodes: seq<Element>, ghost n: nat)
    requires Ring(nodes) && nodes[0] == head && 1 <= n && n + 1 < |nodes| && ae == nodes[n + 1]
    requires ae.prev != null
    modifies ae.prev`next, head`next, ae`prev
    ensures Ring([head] + nodes[n + 1..]) && Chain(nodes[1], nodes[1..n + 1])
    ensures forall j :: 1 <= j < n + 1 ==> nodes[j] !in [head] + nodes[n + 1..]
  {
    ae.prev.next := null;
    head.next := ae;
    ae.prev := head;
  }

  /** Same nodes, same indices and values. */
  twostate lemma Untouched(nodes: seq<Element>)
    requires |nodes| > 0
    requires forall x :: x in nodes ==> x.ind == old(x.ind) && x.value == old(x.value)
    ensures EntriesOf(nodes) == old(EntriesOf(nodes))
    ensures old(Increasing(nodes)) ==> Increasing(nodes)
  {
  }

  /** A new node, linked in as the k-th between a smaller and a larger index. */
  method HookBefore(at: Element, x: Element, ghost nodes: seq<Element>, ghost k: nat)
    requires Shaped(nodes) && 1 <= k <= |nodes| && at == Around(nodes, k) && x !in nodes
    requires at.prev != null && nodes[k - 1].ind < x.ind && (k < |nodes| ==> x.ind < nodes[k].ind)
    modifies at`prev, at.prev`next, x`next, x`prev
    ensures Shaped(nodes[..k] + [x] + nodes[k..])
    ensures Puts(old(EntriesOf(nodes)), x.ind, x.value, EntriesOf(nodes[..k] + [x] + nodes[k..]))
  {
    ShapedEntries(nodes);
    PutsBetween(EntriesOf(nodes), k - 1, x.ind, x.value);
    Unfold(nodes);
    AddBefore(at, x, nodes, k);
    Untouched(nodes);
    HookShape(nodes, k, x);
    HookEntries(nodes, k, x);
  }

  method HookAfter(at: Element, x: Element, ghost nodes: seq<Element>, ghost k: nat)
    requires Shaped(nodes) && k < |nodes| && at == nodes[k] && x !in nodes
    requires at.next != null && nodes[k].ind < x.ind && (k + 1 < |nodes| ==> x.ind < nodes[k + 1].ind)
    modifies at`next, at.next`prev, x`next, x`prev
    ensures Shaped(nodes[..k + 1] + [x] + nodes[k + 1..])
    ensures Puts(old(EntriesOf(nodes)), x.ind, x.value, EntriesOf(nodes[..k + 1] + [x] + nodes[k + 1..]))
  {
    ShapedEntries(nodes);
    PutsBetween(EntriesOf(nodes), k, x.ind, x.value);
    Unfold(nodes);
    AddAfter(at, x, nodes, k);
    Untouched(nodes);
    HookShape(nodes, k + 1, x);
    HookEntries(nodes, k + 1, x);
  }

  /** t is s with v stored at i. */
  ghost predicate Puts(s: seq<Entry>, i: int, v: string, t: seq<Entry>) {
    t == Put(s, i, v)
  }

  lemma PutsBetween(s: seq<Entry>, k: nat, i: int, v: string)
    requires Ordered(s) && k <= |s| && (k > 0 ==> s[k - 1].ind < i) && (k < |s| ==> i < s[k].ind)
    ensures Puts(s, i, v, s[..k] + [Entry(i, v)] + s[k..])
  {
    PutBetween(s, k, i, v);
  }

  lemma PutsOver(nodes: seq<Element>, k: nat, v: string)
    requires Shaped(nodes) && 1 <= k < |nodes|
    ensures var s := EntriesOf(nodes); Puts(s, nodes[k].ind, v, s[k - 1 := Entry(nodes[k].ind, v)])
  {
    ShapedEntries(nodes);
    PutOver(EntriesOf(nodes), k - 1, v);
  }

  method SetValue(ae: Element, v: string, ghost nodes: seq<Element>, ghost k: nat)
    requires Shaped(nodes) && 1 <= k < |nodes| && ae == nodes[k]
    modifies ae`value
    ensures Shaped(nodes) && EntriesOf(nodes) == old(EntriesOf(nodes))[k - 1 := Entry(ae.ind, v)]
  {
    Unfold(nodes);
    assert forall j :: 0 <= j < |nodes| && j != k ==> nodes[j] != ae;
    ae.value := v;
    Unfold(nodes);
  }

  method Unhook(at: Element, ghost nodes: seq<Element>, ghost k: nat)
    requires Shaped(nodes) && 1 <= k < |nodes| && at == nodes[k]
    requires at.next != null && at.prev != null
    modifies at.next`prev, at.prev`next
    ensures Shaped(nodes[..k] + nodes[k + 1..])
    ensures EntriesOf(nodes[..k] + nodes[k + 1..]) == old(EntriesOf(nodes)[..k - 1] + EntriesOf(nodes)[k..])
  {
    Unfold(nodes);
    Unlink(at, nodes, k);
    Untouched(nodes);
    UnlinkShape(nodes, k);
    UnlinkEntries(nodes, k);
  }

  class SparseArray {
    var maxIndex: int
    var numElements: int
    var head: Element
    var lastref: Element?
    /** The head and the elements behind it, in list order. */
    ghost var nodes: seq<Element>

    ghost predicate Valid()
      reads this, nodes
    {
      Shaped(nodes) && nodes[0] == head
      && numElements == |nodes| - 1 && maxIndex == nodes[|nodes| - 1].ind
      && (lastref != null ==> lastref in nodes && lastref != head)
    }

    ghost function Entries(): seq<Entry>
      requires |nodes| > 0
      reads this, nodes
    {
      EntriesOf(nodes)
    }

    /** array_create. */
    constructor ()
      ensures Valid() && Entries() == [] && Building([]) && lastref == null && fresh(nodes)
    {
      var h := new Element(-1, "");
      h.prev, h.next := h, h;
      maxIndex, numElements, lastref := -1, 0, null;
      head, nodes := h, [h];
      new;
      Unfold(nodes);
      Opened(nodes, []);
    }

    method Flush()
      requires Valid()
      modifies this, head`next, head`prev
      ensures Valid() && Entries() == [] && head == old(head) && nodes == [head]
    {
      Neighbours(nodes, 0);
      head.next, head.prev := head, head;
      maxIndex, numElements := -1, 0;
      lastref := null;
      nodes := [head];
      Unfold(nodes);
    }

    /** Where a search for i starts, and in which direction it goes. */
    method SearchStart(i: int) returns (start: Element, forward: bool, ghost k: nat)
      requires Valid() && |nodes| > 1 && nodes[1].ind <= i <= maxIndex
      ensures 1 <= k < |nodes| && start == nodes[k]
      ensures if forward then nodes[k - 1].ind < i && nodes[k].ind <= i else i < nodes[k].ind
    {
      Neighbours(nodes, 0);
      start := if lastref != null then lastref else head.next;
      k :| 1 <= k < |nodes| && nodes[k] == start;
      Neighbours(nodes, k);
      if i < start.ind / 2 {
        start, k := head.next, 1;
        forward := true;
        Neighbours(nodes, 1);
      } else {
        forward := i >= start.ind;
      }
    }

    /** array_insert. */
    method Insert(i: int, v: string) returns (r: int)
      requires Valid() && i >= 0
      modifies this, nodes
      ensures Valid() && head == old(head) && r == 0
      ensures Entries() == Put(old(Entries()), i, v)
      ensures forall x :: x in nodes ==> x in old(nodes) || fresh(x)
    {
      var new' := new Element(i, v);
      r := InsertElement(new');
    }

    method InsertElement(new': Element) returns (r: int)
      requires Valid() && new' !in nodes && new'.ind >= 0
      modifies this, nodes, new'
      ensures Valid() && head == old(head) && r == 0
      ensures Puts(old(Entries()), old(new'.ind), old(new'.value), Entries())
      ensures forall x :: x in nodes ==> x in old(nodes) || x == new'
    {
      r := 0;
      var i := new'.ind;
      Neighbours(nodes, 0);
      if i > maxIndex {
        Neighbours(nodes, |nodes| - 1);
        maxIndex := i;
        LinkBefore(head, new', |nodes|);
      } else if i < head.next.ind {
        LinkAfter(head, new', 0);
      } else {
        InsertWithin(new');
      }
    }

    method InsertWithin(new': Element)
      requires Valid() && |nodes| > 1 && nodes[1].ind <= new'.ind <= maxIndex && new' !in nodes
      modifies this, nodes, new'
      ensures Valid() && head == old(head)
      ensures Puts(old(Entries()), old(new'.ind), old(new'.value), Entries())
      ensures forall x :: x in nodes ==> x in old(nodes) || x == new'
    {
      var ae, forward, k := Place(new'.ind);
      Neighbours(nodes, k);
      if ae.ind == new'.ind {
        Overwrite(ae, new'.value, k);
      } else if forward {
        LinkBefore(ae, new', k);
      } else {
        LinkAfter(ae, new', k);
      }
    }

    /** The search loop of array_insert.  It never comes round to the head. */
    method Place(i: int) returns (ae: Element, forward: bool, ghost k: nat)
      requires Valid() && |nodes| > 1 && nodes[1].ind <= i <= maxIndex
      ensures 1 <= k < |nodes| && ae == nodes[k]
      ensures ae.ind == i || (if forward then nodes[k - 1].ind < i < ae.ind
                              else ae.ind < i && (k + 1 < |nodes| ==> i < nodes[k + 1].ind))
    {
      ae, forward, k := SearchStart(i);
      Neighbours(nodes, k);
      while ae != head
        invariant 0 <= k <= |nodes| && ae == Around(nodes, k)
        invariant if forward then k > 0 && nodes[k - 1].ind < i
                  else k < |nodes| && (k + 1 < |nodes| ==> i < nodes[k + 1].ind)
        decreases if forward then |nodes| - k else k
      {
        Neighbours(nodes, k);
        if ae.ind == i || (forward && ae.ind > i) || (!forward && ae.ind < i) {
          return;
        }
        ae := if forward then ae.next else ae.prev;
        k := if forward then k + 1 else k - 1;
      }
      Neighbours(nodes, if forward then k - 1 else k);
      assert false;
    }

    /** Valid, but for a maxIndex that may already be that of the node to be linked in at k. */
    ghost predicate Awaits(x: Element, k: nat)
      reads this, nodes, x
    {
      Shaped(nodes) && nodes[0] == head && 1 <= k <= |nodes| && x !in nodes
      && numElements == |nodes| - 1 && maxIndex == (if k < |nodes| then nodes[|nodes| - 1].ind else x.ind)
      && nodes[k - 1].ind < x.ind && (k < |nodes| ==> x.ind < nodes[k].ind)
    }

    /** ADD_BEFORE, and the bookkeeping that goes with it. */
    method LinkBefore(at: Element, x: Element, ghost k: nat)
      requires Awaits(x, k) && at == Around(nodes, k) && at.prev != null
      modifies this`numElements, this`lastref, this`nodes, at`prev, at.prev`next, x`next, x`prev
      ensures Valid() && Puts(old(Entries()), x.ind, x.value, Entries())
      ensures forall y :: y in nodes ==> y in old(nodes) || y == x
    {
      HookBefore(at, x, nodes, k);
      Hooked(x, k);
    }

    method LinkAfter(at: Element, x: Element, ghost k: nat)
      requires Awaits(x, k + 1) && at == nodes[k] && at.next != null
      modifies this`numElements, this`lastref, this`nodes, at`next, at.next`prev, x`next, x`prev
      ensures Valid() && Puts(old(Entries()), x.ind, x.value, Entries())
      ensures forall y :: y in nodes ==> y in old(nodes) || y == x
    {
      HookAfter(at, x, nodes, k);
      Hooked(x, k + 1);
    }

    /** The bookkeeping after a new node has been linked in as the k-th. */
    method Hooked(hooked: Element, ghost k: nat)
      requires nodes != [] && nodes[0] == head && 1 <= k <= |nodes|
      requires Shaped(nodes[..k] + [hooked] + nodes[k..])
      requires numElements == |nodes| - 1 && maxIndex == if k < |nodes| then nodes[|nodes| - 1].ind else hooked.ind
      modifies this`numElements, this`lastref, this`nodes
      ensures Valid() && nodes == old(nodes[..k] + [hooked] + nodes[k..])
    {
      Neighbours(nodes[..k] + [hooked] + nodes[k..], k);
      numElements := numElements + 1;
      lastref := hooked;
      nodes := nodes[..k] + [hooked] + nodes[k..];
    }

    /** Swap in a new value for the k-th node. */
    method Overwrite(ae: Element, v: string, ghost k: nat)
      requires Valid() && 1 <= k < |nodes| && ae == nodes[k]
      modifies this`lastref, ae`value
      ensures Valid() && Puts(old(Entries()), ae.ind, v, Entries())
    {
      PutsOver(nodes, k, v);
      Neighbours(nodes, k);
      SetValue(ae, v, nodes, k);
      lastref := ae;
    }

    /**
     The search loop that array_remove and array_reference share: the element with index i,
     if there is one, and a live element at which the next search may start.
     */
    method Seek(i: int) returns (ae: Element, found: bool, near: Element, ghost k: nat)
      requires Valid() && |nodes| > 1 && nodes[1].ind <= i <= maxIndex
      ensures near in nodes && near != head
      ensures if found then 1 <= k < |nodes| && ae == nodes[k] && ae.ind == i
              else 0 < k < |nodes| && nodes[k - 1].ind < i < nodes[k].ind
    {
      var forward;
      near, forward, k := SearchStart(i);
      ae := near;
      Neighbours(nodes, k);
      while ae != head
        invariant 0 <= k <= |nodes| && ae == Around(nodes, k)
        invariant near in nodes && near != head
        invariant if forward then k > 0 && nodes[k - 1].ind < i && (k < |nodes| ==> nodes[k].ind <= i)
                  else k < |nodes| && (k + 1 < |nodes| ==> i < nodes[k + 1].ind) && (k > 0 ==> i <= nodes[k].ind)
        decreases if forward then |nodes| - k else k
      {
        Neighbours(nodes, k);
        if ae.ind == i {
          found := true;
          return;
        }
        ae := if forward then ae.next else ae.prev;
        k := if forward then k + 1 else k - 1;
        if k < |nodes| {
          Neighbours(nodes, k);
        }
        if forward && ae.ind > i {
          found, near := false, ae;
          return;
        }
        if !forward && ae.ind < i {
          Neighbours(nodes, 0);
          found, near, k := false, ae, k + 1;
          return;
        }
      }
      Neighbours(nodes, if forward then k - 1 else k);
      assert false;
    }

    /** array_reference. */
    method Reference(i: int) returns (r: Option<string>)
      requires Valid()
      modifies this`lastref
      ensures Valid() && Entries() == old(Entries())
      ensures r == Find(Entries(), i)
    {
      Neighbours(nodes, 0);
      if numElements == 0 {
        return None;
      }
      if i > maxIndex || i < head.next.ind {
        OutOfBounds(nodes, i);
        return None;
      }
      var ae, found, near, k := Seek(i);
      if found {
        NodeFound(nodes, k);
        lastref := ae;
        return Some(ae.value);
      }
      NotFound(nodes, k, i);
      lastref := near;
      r := None;
    }

    /** array_remove: the element taken out, for the caller to dispose of. */
    method Remove(i: int) returns (r: Element?)
      requires Valid()
      modifies this, nodes
      ensures Valid() && head == old(head)
      ensures Entries() == Drop(old(Entries()), i)
      ensures r == null <==> Find(old(Entries()), i) == None
      ensures r != null ==> Find(old(Entries()), i) == Some(r.value) && r.ind == i && r in old(nodes) && r !in nodes
      ensures forall x :: x in nodes ==> x in old(nodes)
    {
      Neighbours(nodes, 0);
      if numElements == 0 {
        return null;
      }
      if i > maxIndex || i < head.next.ind {
        OutOfBounds(nodes, i);
        return null;
      }
      var ae, found, near, k := Seek(i);
      if found {
        NodeFound(nodes, k);
        ShapedEntries(nodes);
        DropAt(Entries(), k - 1);
        RemoveNode(ae, k);
        return ae;
      }
      NotFound(nodes, k, i);
      r := null;
    }

    /** Take the k-th node out; the search goes on from its neighbour. */
    method RemoveNode(ae: Element, ghost k: nat)
      requires Valid() && 1 <= k < |nodes| && ae == nodes[k]
      modifies this, nodes
      ensures Valid() && head == old(head) && nodes == old(nodes[..k] + nodes[k + 1..]) && ae !in nodes
      ensures Entries() == old(Entries()[..k - 1] + Entries()[k..])
      ensures ae.ind == old(ae.ind) && ae.value == old(ae.value)
    {
      Neighbours(nodes, k);
      RestWithout(nodes, k);
      ghost var rest := nodes[..k] + nodes[k + 1..];
      Unhook(ae, nodes, k);
      Neighbours(rest, k - 1);
      numElements := numElements - 1;
      if ae.ind == maxIndex {
        maxIndex := ae.prev.ind;
      }
      lastref := if ae.next != head then ae.next else if ae.prev != head then ae.prev else null;
      nodes := rest;
    }

    /** A list under construction: the elements of `done`, the bookkeeping still to come. */
    ghost predicate Building(done: seq<Entry>)
      reads this, nodes
    {
      Carries(nodes, done) && nodes[0] == head && (lastref != null ==> lastref in nodes && lastref != head)
    }

    /** With the bookkeeping done, the list is an array again: the part of another that was walked. */
    lemma Finished(ns: seq<Element>, all: seq<Entry>, from: nat, k: nat, done: seq<Entry>)
      requires Building(done) && numElements == |done|
      requires Carries(ns, all) && Part(all, from, k, done)
      ensures Entries() == EntriesOf(ns)[from..k] && (Valid() <==> maxIndex == MaxIndex(done))
      ensures from == 0 && k == |all| ==> Entries() == EntriesOf(ns) && MaxIndex(done) == ns[|ns| - 1].ind
    {
      Opened(nodes, done);
      CarriesPart(ns, all, from, k, done);
    }

    /** One more element at the end; it may become the roving pointer. */
    method Append(ind: int, value: string, mark: bool, ghost last: Element, ghost done: seq<Entry>,
                  ghost more: seq<Entry>)
      returns (x: Element)
      requires Building(done) && last == nodes[|nodes| - 1] && ind > MaxIndex(done)
      requires more == done + [Entry(ind, value)]
      modifies this`nodes, this`lastref, head`prev, last`next
      ensures fresh(x) && nodes == old(nodes) + [x] && x != head && x.ind == ind
      ensures Building(more)
    {
      x := new Element(ind, value);
      Opened(nodes, done);
      PutLast(done, ind, value);
      Neighbours(nodes, 0);
      ghost var n, longer := |nodes|, nodes + [x];
      assert nodes[..n] + [x] + nodes[n..] == longer;
      HookBefore(head, x, nodes, n);
      Opened(longer, more);
      nodes := longer;
      if mark {
        lastref := x;
      }
    }

    /** array_copy. */
    method Copy() returns (a1: SparseArray)
      requires Valid()
      ensures fresh(a1) && fresh(a1.nodes) && a1.Valid() && a1.Entries() == Entries()
    {
      a1 := new SparseArray();
      a1.maxIndex, a1.numElements := maxIndex, numElements;
      CopyElements(a1);
    }

    /** The loop of array_copy. */
    method CopyElements(a1: SparseArray)
      requires Valid() && a1.Building([]) && a1.lastref == null && a1.head !in nodes
      requires a1.maxIndex == maxIndex && a1.numElements == numElements && a1.nodes == [a1.head] && a1 != this
      modifies a1`nodes, a1`lastref, a1.head`prev, a1.head`next
      ensures a1.Valid() && a1.Entries() == Entries() && a1.head == old(a1.head)
      ensures forall i :: 1 <= i < |a1.nodes| ==> fresh(a1.nodes[i])
    {
      Neighbours(nodes, 0);
      var ae := head.next;
      ghost var ns, k, done := nodes, 1, [];
      ghost var all := CanWalk(ns, 1, |ns|);
      while ae != head
        invariant 1 <= k <= |ns| && ae == Around(ns, k) && Part(all, 0, k - 1, done)
        invariant a1.head == old(a1.head) && a1.Building(done)
        invariant forall i :: 1 <= i < |a1.nodes| ==> fresh(a1.nodes[i])
        decreases |ns| - k
      {
        ghost var more := NextPart(all, 0, k - 1, done);
        var mark := ae == if lastref != null then lastref else head.next;
        var x := a1.Append(ae.ind, ae.value, mark, a1.nodes[k - 1], done, more);
        done := more;
        ae := ae.next;
        k := k + 1;
      }
      a1.Finished(ns, all, 0, k - 1, done);
    }

    /** array_slice: the elements from s up to, but without, e.  An empty slice has no largest index to record. */
    method Slice(s: Element, e: Element, ghost ks: nat, ghost ke: nat) returns (a: SparseArray)
      requires Valid() && 1 <= ks <= ke <= |nodes| && s == Around(nodes, ks) && e == Around(nodes, ke)
      ensures fresh(a) && fresh(a.nodes) && a.nodes != [] && a.Entries() == Entries()[ks - 1..ke - 1]
      ensures a.Valid() <==> ks < ke
    {
      a := new SparseArray();
      var mi, p, i := 0, s, 0;
      ghost var ns, k, done := nodes, ks, [];
      ghost var all := CanWalk(ns, ks, ke);
      while p != e
        invariant ks <= k <= ke && p == Around(ns, k) && i == k - ks && Part(all, ks - 1, k - 1, done)
        invariant fresh(a.nodes) && a.Building(done)
        invariant mi == if k > ks then MaxIndex(done) else 0
        decreases ke - k
      {
        ghost var more := NextPart(all, ks - 1, k - 1, done);
        var n := a.Append(p.ind, p.value, false, a.nodes[k - ks], done, more);
        done := more;
        mi := n.ind;
        p := p.next;
        i := i + 1;
        k := k + 1;
      }
      a.numElements := i;
      a.maxIndex := mi;
      a.Finished(ns, all, ks - 1, k - 1, done);
    }

    /** The element behind the first n, or the head if there are no more than n. */
    method Behind(n: int) returns (ae: Element)
      requires Valid() && n > 0
      ensures if n + 1 < |nodes| then ae == nodes[n + 1] && ae != head else ae == head
    {
      Neighbours(nodes, 0);
      var i := 0;
      ae := head.next;
      while ae != head && i < n
        invariant 0 <= i <= n && i + 1 <= |nodes| && ae == Around(nodes, i + 1)
      {
        Neighbours(nodes, i + 1);
        ae := ae.next;
        i := i + 1;
      }
      Distinct(nodes, i + 1, |nodes|);
    }

    /** array_shift. */
    method Shift(n: int, dispose: bool) returns (ret: Element?)
      requires Valid()
      modifies this, nodes
      ensures Valid() && head == old(head)
      ensures Entries() == Shifted(old(Entries()), n)
      ensures if n <= 0 || |old(nodes)| == 1 || dispose then ret == null
              else Chain(ret, FirstOf(old(nodes), n))
      ensures forall x :: x in nodes ==> x in old(nodes)
    {
      if numElements == 0 || n <= 0 {
        return null;
      }
      var ae := Behind(n);
      Neighbours(nodes, 0);
      ret := head.next;
      if ae == head {
        ShiftAll(n, dispose, ret);
        if dispose {
          ret := null;
        }
      } else {
        ShiftSome(n, ae);
        if dispose {
          ret := null;
        }
      }
    }

    /** array_rshift: the number of elements afterwards. */
    method Rshift(n: int, v: Option<string>) returns (count: int)
      requires Valid()
      modifies this, nodes
      ensures Valid() && head == old(head) && count == numElements
      ensures Entries() == Rshifted(old(Entries()), n, v)
      ensures forall x :: x in nodes ==> x in old(nodes) || fresh(x)
    {
      if numElements == 0 && v.None? {
        return 0;
      }
      if n <= 0 {
        return numElements;
      }
      Neighbours(nodes, 0);
      ghost var goal := Rshifted(Entries(), n, v);
      ghost var rest := ShiftIn(head, head.next, n, v, nodes, goal);
      count := if v.Some? then numElements + 1 else numElements;
      Adopt(rest, count);
    }

    /**
     The bookkeeping after a shift.  (Where the array was empty the source returns earlier: its one
     element has index 0, and lastref is null already.)
     */
    method Adopt(ghost rest: seq<Element>, count: int)
      requires Shaped(rest) && rest[0] == head && |rest| == count + 1
      modifies this
      ensures Valid() && head == old(head) && nodes == rest && numElements == count && lastref == null
    {
      Neighbours(rest, 0);
      numElements := count;
      maxIndex := head.prev.ind;
      lastref := null;
      nodes := rest;
    }

    /** array_push and array_pop. */
    method Push(v: string)
      requires Valid()
      modifies this, nodes
      ensures Valid() && Entries() == Rshifted(old(Entries()), 1, Some(v))
      ensures forall x :: x in nodes ==> x in old(nodes) || fresh(x)
    {
      var count := Rshift(1, Some(v));
    }

    method Pop()
      requires Valid()
      modifies this, nodes
      ensures Valid() && Entries() == Shifted(old(Entries()), 1)
      ensures forall x :: x in nodes ==> x in old(nodes)
    {
      var element := Shift(1, false);
    }

    /** A function call pushes its name and pops it again: the stack is as it was, bookkeeping included. */
    method CallFrame(name: string)
      requires Valid()
      modifies this, nodes
      ensures Valid() && Entries() == old(Entries())
      ensures numElements == old(numElements) && maxIndex == old(maxIndex)
    {
      PushPop(Entries(), name);
      ShapedEntries(nodes);
      Push(name);
      assert forall i :: 0 <= i < |nodes| ==> nodes[i] in old(nodes) || fresh(nodes[i]);
      Pop();
      ShapedEntries(nodes);
    }

    /** Shifting out all of the elements. */
    method ShiftAll(n: int, dispose: bool, ret: Element)
      requires Valid() && |nodes| > 1 && ret == nodes[1] && n + 1 >= |nodes|
      modifies this, nodes
      ensures Valid() && head == old(head) && forall x :: x in nodes ==> x in old(nodes)
      ensures Entries() == Shifted(old(Entries()), n)
      ensures !dispose ==> Chain(ret, FirstOf(old(nodes), n))
    {
      if dispose {
        Flush();
        return;
      }
      CutAll(head, ret, nodes);
      maxIndex, numElements, lastref := -1, 0, null;
      nodes := [head];
    }

    /** Shifting out the first n; ae is the first to be retained. */
    method ShiftSome(n: int, ae: Element)
      requires Valid() && 1 <= n && n + 1 < |nodes| && ae == nodes[n + 1]
      modifies this, nodes
      ensures Valid() && head == old(head) && forall x :: x in nodes ==> x in old(nodes)
      ensures Entries() == Shifted(old(Entries()), n) && Chain(old(nodes)[1], FirstOf(old(nodes), n))
    {
      ghost var rest := [head] + nodes[n + 1..];
      CutAndRenumber(head, ae, n, nodes);
      Adopt(rest, numElements - n);
    }
  }

  /** Cut all the elements out; they are left as a chain. */
  method CutAll(head: Element, first: Element, ghost nodes: seq<Element>)
    requires Shaped(nodes) && |nodes| > 1 && nodes[0] == head && nodes[1] == first
    modifies nodes
    ensures Shaped([head]) && Chain(first, nodes[1..|nodes|]) && head.ind == -1
  {
    Unfold(nodes);
    var ae := first;
    ghost var k := 1;
    while ae.next != head
      invariant 1 <= k < |nodes| && ae == nodes[k]
      decreases |nodes| - k
    {
      ae := ae.next;
      k := k + 1;
    }
    assert k + 1 == |nodes|;
    ae.next := null;
    head.next, head.prev := head, head;
    Unfold([head]);
  }

  /** Cut the first n elements out of a list and renumber the rest. */
  method CutAndRenumber(head: Element, ae: Element, n: int, ghost nodes: seq<Element>)
    requires Shaped(nodes) && nodes[0] == head && 1 <= n && n + 1 < |nodes| && ae == nodes[n + 1]
    modifies nodes
    ensures Shaped([head] + nodes[n + 1..]) && Chain(nodes[1], nodes[1..n + 1])
    ensures EntriesOf([head] + nodes[n + 1..]) == Shifted(old(EntriesOf(nodes)), n)
  {
    ghost var rest, all := [head] + nodes[n + 1..], EntriesOf(nodes);
    ShapedEntries(nodes);
    ShiftedOrdered(all, n);
    Neighbours(nodes, n + 1);
    Loosen(nodes);
    CutRing(head, ae, nodes, n);
    Renumber(ae, head, -n, rest, 1);
    FromEntries(rest, Shifted(all, n));
  }

  lemma Loosen(nodes: seq<Element>)
    requires Shaped(nodes)
    ensures Ring(nodes) && nodes[0].ind == -1
  {
    Unfold(nodes);
  }

  /** Add n to every index, and put a new element in front if there is a value for it. */
  method ShiftIn(head: Element, ae: Element, n: int, v: Option<string>, ghost nodes: seq<Element>,
                 ghost goal: seq<Entry>)
    returns (ghost rest: seq<Element>)
    requires Shaped(nodes) && nodes[0] == head && n > 0 && ae == Around(nodes, 1)
    requires goal == Rshifted(EntriesOf(nodes), n, v)
    modifies nodes
    ensures Shaped(rest) && rest[0] == head && EntriesOf(rest) == goal
    ensures |rest| == |nodes| + if v.Some? then 1 else 0
    ensures forall x :: x in rest ==> x in nodes || fresh(x)
  {
    if v.Some? {
      var new' := new Element(0, v.value);
      rest := PutInFront(head, ae, new', n, nodes);
    } else {
      RenumberAll(head, ae, n, nodes);
      rest := nodes;
    }
  }

  method RenumberAll(head: Element, ae: Element, n: int, ghost nodes: seq<Element>)
    requires Shaped(nodes) && nodes[0] == head && n > 0 && ae == Around(nodes, 1)
    modifies nodes
    ensures Shaped(nodes) && EntriesOf(nodes) == Rshifted(old(EntriesOf(nodes)), n, None)
  {
    ghost var all := EntriesOf(nodes);
    ShapedEntries(nodes);
    RshiftedOrdered(all, n, None);
    Loosen(nodes);
    Renumber(ae, head, n, nodes, 1);
    AllRenumbered(nodes, all, n);
  }

  lemma AllRenumbered(nodes: seq<Element>, all: seq<Entry>, n: int)
    requires Ring(nodes) && |nodes| == |all| + 1 && nodes[0].ind == -1 && n > 0
    requires forall j {:trigger nodes[j]} :: 1 <= j < |nodes| ==>
               nodes[j].ind == all[j - 1].ind + n && nodes[j].value == all[j - 1].value
    requires Ordered(Rshifted(all, n, None))
    ensures Shaped(nodes) && EntriesOf(nodes) == Rshifted(all, n, None)
  {
    var s := Renumbered(all, n);
    assert Rshifted(all, n, None) == s;
    assert forall j :: 1 <= j < |nodes| ==> s[j - 1] == Entry(nodes[j].ind, nodes[j].value);
    FromEntries(nodes, s);
  }

  method PutInFront(head: Element, ae: Element, x: Element, n: int, ghost nodes: seq<Element>)
    returns (ghost rest: seq<Element>)
    requires Shaped(nodes) && nodes[0] == head && n > 0 && ae == Around(nodes, 1) && x !in nodes && x.ind == 0
    modifies nodes, x
    ensures rest == [head, x] + nodes[1..] && Shaped(rest)
    ensures EntriesOf(rest) == Rshifted(old(EntriesOf(nodes)), n, Some(old(x.value)))
  {
    ghost var all := EntriesOf(nodes);
    ShapedEntries(nodes);
    RshiftedOrdered(all, n, Some(x.value));
    Loosen(nodes);
    Neighbours(nodes, if |nodes| > 1 then 1 else 0);
    rest := [head, x] + nodes[1..];
    assert rest == nodes[..1] + [x] + nodes[1..];
    AddBefore(ae, x, nodes, 1);
    Renumber(ae, head, n, rest, 2);
    FrontEntries(rest, all, n, x.value);
  }

  lemma FrontEntries(rest: seq<Element>, all: seq<Entry>, n: int, v: string)
    requires Ring(rest) && |rest| == |all| + 2 && rest[0].ind == -1 && rest[1].ind == 0 && rest[1].value == v && n > 0
    requires forall j {:trigger rest[j]} :: 2 <= j < |rest| ==>
               rest[j].ind == all[j - 2].ind + n && rest[j].value == all[j - 2].value
    requires Ordered(Rshifted(all, n, Some(v)))
    ensures Shaped(rest) && EntriesOf(rest) == Rshifted(all, n, Some(v))
  {
    var s := Rshifted(all, n, Some(v));
    assert forall j :: 2 <= j < |rest| ==> s[j - 1] == Entry(rest[j].ind, rest[j].value);
    FromEntries(rest, s);
  }
}
