/**
 What a shell array holds (bin/bash/array.c), as a list of entries in index order, what each
 operation does to it, and how that reads as a map from indices to values.
 */
module ArrayContents {
  import opened Options

  datatype Entry = Entry(ind: int, value: string)

  /** Indices increase strictly and are never negative. */
  ghost predicate Ordered(s: seq<Entry>) {
    (forall i, j :: 0 <= i < j < |s| ==> s[i].ind < s[j].ind) && forall i :: 0 <= i < |s| ==> s[i].ind >= 0
  }

  function MapOf(s: seq<Entry>): map<int, string> {
    if s == [] then map[] else MapOf(s[..|s| - 1])[s[|s| - 1].ind := s[|s| - 1].value]
  }

  /** The largest index, or -1. */
  function MaxIndex(s: seq<Entry>): int {
    if s == [] then -1 else s[|s| - 1].ind
  }

  function Put(s: seq<Entry>, i: int, v: string): seq<Entry> {
    if s == [] || s[0].ind > i then [Entry(i, v)] + s
    else if s[0].ind == i then [Entry(i, v)] + s[1..]
    else [s[0]] + Put(s[1..], i, v)
  }

  function Drop(s: seq<Entry>, i: int): seq<Entry> {
    if s == [] then [] else if s[0].ind == i then s[1..] else [s[0]] + Drop(s[1..], i)
  }

  function Find(s: seq<Entry>, i: int): Option<string> {
    if s == [] then None else if s[0].ind == i then Some(s[0].value) else Find(s[1..], i)
  }

  function Renumbered(s: seq<Entry>, n: int): (r: seq<Entry>)
    ensures |r| == |s| && forall k :: 0 <= k < |s| ==> r[k] == Entry(s[k].ind + n, s[k].value)
  {
    seq(|s|, k requires 0 <= k < |s| => Entry(s[k].ind + n, s[k].value))
  }

  /** Shifting out the first n entries renumbers the rest. */
  function Shifted(s: seq<Entry>, n: int): seq<Entry> {
    if n <= 0 then s else if n >= |s| then [] else Renumbered(s[n..], -n)
  }

  /** Shifting in renumbers everything and may put a value at 0. */
  function Rshifted(s: seq<Entry>, n: int, v: Option<string>): seq<Entry> {
    if n <= 0 || (s == [] && v.None?) then s
    else (if v.Some? then [Entry(0, v.value)] else []) + Renumbered(s, n)
  }

  // ---- positions ------------------------------------------------------------------------

  /** The entry with index i is at k. */
  lemma {:induction false} PutOver(s: seq<Entry>, k: nat, v: string)
    requires Ordered(s) && k < |s|
    ensures Put(s, s[k].ind, v) == s[k := Entry(s[k].ind, v)]
  {
    if k > 0 {
      assert s[0].ind < s[k].ind;
      PutOver(s[1..], k - 1, v);
      assert s[k := Entry(s[k].ind, v)] == [s[0]] + s[1..][k - 1 := Entry(s[k].ind, v)];
    } else {
      assert s[0 := Entry(s[0].ind, v)] == [Entry(s[0].ind, v)] + s[1..];
    }
  }

  /** No entry has index i; k of them have a smaller one. */
  lemma {:induction false} PutBetween(s: seq<Entry>, k: nat, i: int, v: string)
    requires Ordered(s) && k <= |s|
    requires (k > 0 ==> s[k - 1].ind < i) && (k < |s| ==> i < s[k].ind)
    ensures Put(s, i, v) == s[..k] + [Entry(i, v)] + s[k..]
  {
    if k == 0 {
      assert s[..0] + [Entry(i, v)] + s[0..] == [Entry(i, v)] + s;
    } else {
      var head, t := s[0], s[1..];
      assert head.ind <= s[k - 1].ind;
      PutBetween(t, k - 1, i, v);
      InsertBehind(head, t, k - 1, Entry(i, v));
      assert s == [head] + t;
    }
  }

  lemma InsertBehind<T>(head: T, t: seq<T>, k: nat, x: T)
    requires k <= |t|
    ensures var s := [head] + t; s[..k + 1] + [x] + s[k + 1..] == [head] + (t[..k] + [x] + t[k..])
  {
  }

  lemma PutLast(s: seq<Entry>, i: int, v: string)
    requires Ordered(s) && i > MaxIndex(s)
    ensures Put(s, i, v) == s + [Entry(i, v)]
  {
    PutBetween(s, |s|, i, v);
  }

  lemma {:induction false} DropAt(s: seq<Entry>, k: nat)
    requires Ordered(s) && k < |s|
    ensures Drop(s, s[k].ind) == s[..k] + s[k + 1..]
  {
    if k > 0 {
      assert s[0].ind < s[k].ind;
      DropAt(s[1..], k - 1);
      assert s[1..][k..] == s[k + 1..] && [s[0]] + s[1..][..k - 1] == s[..k];
    }
  }

  lemma {:induction false} FindAt(s: seq<Entry>, k: nat)
    requires Ordered(s) && k < |s|
    ensures Find(s, s[k].ind) == Some(s[k].value)
  {
    if k > 0 {
      assert s[0].ind < s[k].ind;
      FindAt(s[1..], k - 1);
    }
  }

  /** An index that no entry has. */
  lemma {:induction false} Absent(s: seq<Entry>, i: int)
    requires forall k :: 0 <= k < |s| ==> s[k].ind != i
    ensures Find(s, i) == None && Drop(s, i) == s
  {
    if s != [] {
      Absent(s[1..], i);
    }
  }

  lemma AbsentBetween(s: seq<Entry>, k: nat, i: int)
    requires Ordered(s) && k <= |s| && (k > 0 ==> s[k - 1].ind < i) && (k < |s| ==> i < s[k].ind)
    ensures Find(s, i) == None && Drop(s, i) == s
  {
    forall j | 0 <= j < |s| ensures s[j].ind != i {
      assert j < k ==> s[j].ind <= s[k - 1].ind;
      assert k <= j ==> s[k].ind <= s[j].ind;
    }
    Absent(s, i);
  }

  // ---- the map ------------------------------------------------------------------------------

  lemma {:induction false} MapHas(s: seq<Entry>, i: int)
    requires Ordered(s)
    ensures i in MapOf(s) <==> exists k :: 0 <= k < |s| && s[k].ind == i
    ensures forall k :: 0 <= k < |s| && s[k].ind == i ==> i in MapOf(s) && MapOf(s)[i] == s[k].value
  {
    if s != [] {
      var t := s[..|s| - 1];
      MapHas(t, i);
      if i in MapOf(t) {
        var k :| 0 <= k < |t| && t[k].ind == i;
        assert s[k].ind == i;
      }
    }
  }

  /** Looking up an index is looking it up in the map. */
  lemma {:induction false} FindIsLookup(s: seq<Entry>, i: int)
    requires Ordered(s)
    ensures Find(s, i) == if i in MapOf(s) then Some(MapOf(s)[i]) else None
  {
    MapHas(s, i);
    if k :| 0 <= k < |s| && s[k].ind == i {
      FindAt(s, k);
    } else {
      Absent(s, i);
    }
  }

  lemma {:induction false} FindPut(s: seq<Entry>, i: int, v: string, j: int)
    requires Ordered(s)
    ensures Find(Put(s, i, v), j) == if j == i then Some(v) else Find(s, j)
  {
    if s != [] {
      var t := s[1..];
      if s[0].ind < i {
        FindPut(t, i, v, j);
      } else if j == i && s[0].ind > i {
        assert ([Entry(i, v)] + s)[0] == Entry(i, v);
      }
      assert ([Entry(i, v)] + s)[1..] == s && ([Entry(i, v)] + t)[1..] == t
          && ([s[0]] + Put(t, i, v))[1..] == Put(t, i, v);
    }
  }

  lemma {:induction false} FindDrop(s: seq<Entry>, i: int, j: int)
    requires Ordered(s)
    ensures Find(Drop(s, i), j) == if j == i then None else Find(s, j)
  {
    if s != [] {
      var t := s[1..];
      if s[0].ind == i {
        if j == i {
          Absent(t, i);
        }
      } else {
        FindDrop(t, i, j);
        assert ([s[0]] + Drop(t, i))[1..] == Drop(t, i);
      }
    }
  }

  ghost predicate AtLeast(s: seq<Entry>, lo: int) {
    forall k :: 0 <= k < |s| ==> s[k].ind >= lo
  }

  lemma ConsOrdered(e: Entry, t: seq<Entry>)
    requires Ordered(t) && AtLeast(t, e.ind + 1) && e.ind >= 0
    ensures Ordered([e] + t)
  {
  }

  lemma {:induction false} PutOrdered(s: seq<Entry>, i: int, v: string, lo: int)
    requires Ordered(s) && AtLeast(s, lo) && i >= lo && i >= 0
    ensures Ordered(Put(s, i, v)) && AtLeast(Put(s, i, v), lo)
  {
    if s == [] {
    } else if s[0].ind < i {
      PutOrdered(s[1..], i, v, s[0].ind + 1);
      ConsOrdered(s[0], Put(s[1..], i, v));
    } else {
      ConsOrdered(Entry(i, v), if s[0].ind == i then s[1..] else s);
    }
  }

  lemma {:induction false} DropOrdered(s: seq<Entry>, i: int, lo: int)
    requires Ordered(s) && AtLeast(s, lo)
    ensures Ordered(Drop(s, i)) && AtLeast(Drop(s, i), lo)
  {
    if s != [] && s[0].ind != i {
      DropOrdered(s[1..], i, s[0].ind + 1);
      ConsOrdered(s[0], Drop(s[1..], i));
    }
  }

  /** Storing is updating the map. */
  lemma PutIsUpdate(s: seq<Entry>, i: int, v: string)
    requires Ordered(s) && i >= 0
    ensures MapOf(Put(s, i, v)) == MapOf(s)[i := v]
  {
    PutOrdered(s, i, v, 0);
    forall j ensures j in MapOf(Put(s, i, v)) <==> j in MapOf(s)[i := v]
             ensures j in MapOf(Put(s, i, v)) ==> MapOf(Put(s, i, v))[j] == MapOf(s)[i := v][j] {
      FindPut(s, i, v, j);
      FindIsLookup(s, j);
      FindIsLookup(Put(s, i, v), j);
    }
  }

  /** Removing is deleting from the map. */
  lemma DropIsDelete(s: seq<Entry>, i: int)
    requires Ordered(s)
    ensures MapOf(Drop(s, i)) == MapOf(s) - {i}
  {
    DropOrdered(s, i, 0);
    forall j ensures j in MapOf(Drop(s, i)) <==> j in MapOf(s) - {i}
             ensures j in MapOf(Drop(s, i)) ==> MapOf(Drop(s, i))[j] == (MapOf(s) - {i})[j] {
      FindDrop(s, i, j);
      FindIsLookup(s, j);
      FindIsLookup(Drop(s, i), j);
    }
  }

  /** The k-th index is at least k ... */
  lemma {:induction false} IndexAtLeast(s: seq<Entry>, k: nat)
    requires Ordered(s) && k < |s|
    ensures s[k].ind >= k
  {
    if k > 0 {
      IndexAtLeast(s, k - 1);
    }
  }

  /** ... so shifting out any number of entries never makes an index negative. */
  lemma ShiftedOrdered(s: seq<Entry>, n: int)
    requires Ordered(s)
    ensures Ordered(Shifted(s, n))
  {
    if 0 < n < |s| {
      var r := Shifted(s, n);
      forall k | 0 <= k < |r| ensures r[k].ind >= 0 {
        IndexAtLeast(s, n + k);
      }
    }
  }

  lemma RshiftedOrdered(s: seq<Entry>, n: int, v: Option<string>)
    requires Ordered(s)
    ensures Ordered(Rshifted(s, n, v))
  {
  }

  /** What is pushed at the front is popped, and the rest is as it was. */
  lemma PushPop(s: seq<Entry>, v: string)
    ensures Shifted(Rshifted(s, 1, Some(v)), 1) == s
  {
    var r := Rshifted(s, 1, Some(v));
    assert r[1..] == Renumbered(s, 1);
    if s != [] {
      var t := Renumbered(r[1..], -1);
      assert forall k :: 0 <= k < |s| ==> t[k] == s[k];
    }
  }

  // ---- shifting as seen from the map ------------------------------------------------------------

  lemma {:induction false} FindRenumbered(s: seq<Entry>, n: int, i: int)
    ensures Find(Renumbered(s, n), i) == Find(s, i - n)
    decreases |s|
  {
    if s != [] {
      assert Renumbered(s, n)[1..] == Renumbered(s[1..], n);
      FindRenumbered(s[1..], n, i);
    }
  }

  /** Shifting in by n moves every value n places up, and may put one at 0. */
  lemma RshiftIsLookup(s: seq<Entry>, n: nat, v: Option<string>, i: int)
    requires Ordered(s) && n > 0
    ensures Find(Rshifted(s, n, v), i) == if v.Some? && i == 0 then v else Find(s, i - n)
  {
    FindRenumbered(s, n, i);
    var front := if v.Some? then [Entry(0, v.value)] else [];
    if v.Some? {
      assert (front + Renumbered(s, n))[1..] == Renumbered(s, n);
    } else {
      assert front + Renumbered(s, n) == Renumbered(s, n);
    }
  }

  /** How many indices in use are below x. */
  function Below(s: seq<Entry>, x: int): nat {
    if s == [] then 0 else (if s[0].ind < x then 1 else 0) + Below(s[1..], x)
  }

  lemma {:induction false} NoneBelow(s: seq<Entry>, x: int)
    requires AtLeast(s, x)
    ensures Below(s, x) == 0
  {
    if s != [] {
      NoneBelow(s[1..], x);
    }
  }

  lemma {:induction false} FindBehind(s: seq<Entry>, n: nat, x: int)
    requires Ordered(s) && n <= |s|
    ensures Find(s[n..], x) == if Below(s, x) >= n then Find(s, x) else None
    decreases |s|
  {
    if n > 0 {
      var t := s[1..];
      assert s[n..] == t[n - 1..];
      if s[0].ind < x {
        FindBehind(t, n - 1, x);
      } else {
        NoneBelow(s, x);
        Absent(t[n - 1..], x);
      }
    }
  }

  /**
   Shifting out n values keeps those at indices with n or more in use below them, n places
   further down, and no others.
   */
  lemma ShiftIsLookup(s: seq<Entry>, n: nat, i: int)
    requires Ordered(s) && n > 0
    ensures Find(Shifted(s, n), i) == if Below(s, i + n) >= n then Find(s, i + n) else None
  {
    if n < |s| {
      FindRenumbered(s[n..], 0 - n, i);
      FindBehind(s, n, i + n);
    } else {
      FewBelow(s, i + n);
      if Below(s, i + n) >= n {
        FindBehind(s, |s|, i + n);
        assert s[|s|..] == [];
      }
    }
  }

  lemma {:induction false} FewBelow(s: seq<Entry>, x: int)
    ensures Below(s, x) <= |s|
  {
    if s != [] {
      FewBelow(s[1..], x);
    }
  }

  /** Below counts the keys of the map. */
  lemma BelowIsCount(s: seq<Entry>, x: int)
    requires Ordered(s)
    ensures Below(s, x) == |set j | j in MapOf(s) && j < x|
  {
    KeysBelow(s, x);
    forall j ensures j in Keys(s, x) <==> j in MapOf(s) && j < x {
      KeyFound(s, x, j);
      FindIsLookup(s, j);
    }
    assert Keys(s, x) == set j | j in MapOf(s) && j < x;
  }

  function Keys(s: seq<Entry>, x: int): set<int> {
    if s == [] then {} else (if s[0].ind < x then {s[0].ind} else {}) + Keys(s[1..], x)
  }

  lemma {:induction false} KeyFound(s: seq<Entry>, x: int, j: int)
    ensures j in Keys(s, x) <==> j < x && Find(s, j).Some?
  {
    if s != [] {
      KeyFound(s[1..], x, j);
    }
  }

  lemma {:induction false} KeysBelow(s: seq<Entry>, x: int)
    requires Ordered(s)
    ensures |Keys(s, x)| == Below(s, x)
  {
    if s != [] {
      KeysBelow(s[1..], x);
      KeyFound(s[1..], x, s[0].ind);
      Absent(s[1..], s[0].ind);
    }
  }
}
