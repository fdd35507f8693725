/**
 The dependency scanner as it runs (scripts/fixdep.c): it looks at four bytes at a time, from
 the second word of the file on, and keeps the names seen in a hash table.
 */
module Fixdep {
  import opened Options
  import opened FixdepScan

  /** One bucket of the hash table. */
  datatype Chain = Empty | Item(name: string, hash: uint32, next: Chain)

  const HASHSZ: int := 256

  type uint32 = x: int | 0 <= x < 0x1_0000_0000

  /** One step of the fnv32 hash. */
  function Mix(hash: uint32, c: char): uint32 {
    (((hash as bv32) ^ ((c as int % 256) as bv32)) as int * 0x01000193) % 0x1_0000_0000
  }

  function HashFrom(hash: uint32, s: string): uint32
    decreases |s|
  {
    if s == "" then hash else HashFrom(Mix(hash, s[0]), s[1..])
  }

  function Hash(s: string): uint32 {
    HashFrom(2166136261, s)
  }

  function Bucket(hash: uint32): (b: int)
    ensures 0 <= b < HASHSZ
  {
    hash % HASHSZ
  }

  method StrHash(str: string) returns (hash: uint32)
    ensures hash == Hash(str)
  {
    hash := 2166136261;
    var i := 0;
    while i < |str|
      invariant 0 <= i <= |str| && HashFrom(hash, str[i..]) == Hash(str)
    {
      assert str[i..][1..] == str[i + 1..];
      hash := Mix(hash, str[i]);
      i := i + 1;
    }
  }

  ghost predicate In(c: Chain, name: string) {
    c.Item? && (c.name == name || In(c.next, name))
  }

  /** Every item carries its name's hash and sits in that hash's bucket. */
  ghost predicate ChainOk(c: Chain, b: int) {
    c.Item? ==> c.hash == Hash(c.name) && Bucket(c.hash) == b && ChainOk(c.next, b)
  }

  lemma {:induction false} InItsBucket(c: Chain, b: int, name: string)
    requires ChainOk(c, b) && In(c, name)
    ensures Bucket(Hash(name)) == b
  {
    if c.name != name {
      InItsBucket(c.next, b, name);
    }
  }

  class Scanner {
    const hashtab: array<Chain>
    var printed: seq<string>
    /** The names defined since the table was last cleared, in order. */
    ghost var defined: seq<string>

    ghost predicate Valid()
      reads this, hashtab
    {
      hashtab.Length == HASHSZ && Distinct(defined)
      && (forall b :: 0 <= b < HASHSZ ==> ChainOk(hashtab[b], b))
      && (forall x :: x in defined <==> In(hashtab[Bucket(Hash(x))], x))
    }

    constructor ()
      ensures Valid() && defined == [] && printed == [] && fresh(hashtab)
    {
      hashtab := new Chain[HASHSZ](_ => Empty);
      printed, defined := [], [];
    }

    /** is_defined_config. */
    method IsDefined(name: string, hash: uint32) returns (found: bool)
      requires Valid() && hash == Hash(name)
      ensures found == (name in defined)
    {
      var aux := hashtab[Bucket(hash)];
      while aux.Item?
        invariant ChainOk(aux, Bucket(hash))
        invariant In(aux, name) <==> name in defined
        decreases aux
      {
        if aux.hash == hash && |aux.name| == |name| && aux.name == name {
          return true;
        }
        aux := aux.next;
      }
      found := false;
    }

    /** define_config. */
    method Define(name: string, hash: uint32)
      requires Valid() && hash == Hash(name) && name !in defined
      modifies this`defined, hashtab
      ensures Valid() && defined == old(defined) + [name]
    {
      var b := Bucket(hash);
      hashtab[b] := Item(name, hash, hashtab[b]);
      defined := defined + [name];
    }

    /** clear_config. */
    method Clear()
      requires Valid()
      modifies this`defined, hashtab
      ensures Valid() && defined == []
    {
      var i := 0;
      while i < HASHSZ
        invariant 0 <= i <= HASHSZ
        invariant forall b :: 0 <= b < i ==> hashtab[b] == Empty
      {
        hashtab[i] := Empty;
        i := i + 1;
      }
      defined := [];
    }

    /** What has been printed for the names defined since there were n. */
    ghost predicate Reported(before: seq<string>, n: nat)
      reads this
    {
      n <= |defined| && printed == before + Lines(defined[n..])
    }

    /** use_config: a name is reported the first time it is used. */
    method Use(name: string, ghost before: seq<string>, ghost n: nat)
      requires Valid() && Reported(before, n)
      modifies this, hashtab
      ensures Valid() && Reported(before, n)
      ensures defined == Merge(old(defined), [name])
    {
      var hash := StrHash(name);
      var found := IsDefined(name, hash);
      if found {
        return;
      }
      Define(name, hash);
      assert defined[n..] == old(defined)[n..] + [name];
      assert Lines(defined[n..]) == Lines(old(defined)[n..]) + [Line(name)];
      printed := printed + [Line(name)];
    }

    /** The word at m may lie in a CONFIG_, in one place only. */
    method UseWord(map': string, len: nat, m: nat, ghost before: seq<string>, ghost n: nat)
      requires Valid() && Reported(before, n) && 4 <= m < len && |map'| >= len + 3
      modifies this, hashtab
      ensures Valid() && Reported(before, n)
      ensures defined == Merge(old(defined), Here(map'[..len], Candidate(map'[m..m + 4], m)))
    {
      ghost var text := map'[..len];
      var p := Candidate(map'[m..m + 4], m);
      if p > len - 7 {
        return;
      }
      assert p >= 0 ==> text[p..p + 7] == map'[p..p + 7];
      if p >= 0 && map'[p..p + 7] == PREFIX {
        var name := ReadName(map', len, p);
        if name.Some? {
          Use(name.value, before, n);
        }
      }
    }

    /**
     parse_config_file: `map` holds the file's len bytes and, behind them, whatever else the
     last page holds.
     */
    method ParseConfigFile(map': string, len: nat, ghost before: seq<string>, ghost n: nat)
      requires Valid() && Reported(before, n) && |map'| >= len + 3
      modifies this, hashtab
      ensures Valid() && Reported(before, n) && defined == Merge(old(defined), Names(map'[..len]))
    {
      ghost var text := map'[..len];
      ghost var goal := Merge(defined, Names(text));
      var m := 4;
      while m < len
        invariant m >= 4 && m % 4 == 0 && Valid() && Reported(before, n)
        invariant Lacks(defined, text, m - 3, goal)
        decreases len - m
      {
        Pass(defined, map', len, m, goal);
        UseWord(map', len, m, before, n);
        m := m + 4;
      }
      LacksNothing(defined, text, m - 3, goal);
    }

    /** parse_dep_file: the prerequisites of one target, each with its pages and its length. */
    method ParsePrerequisites(maps: seq<string>, lens: seq<nat>)
      requires Valid() && |maps| == |lens| && forall k :: 0 <= k < |maps| ==> |maps[k]| >= lens[k] + 3
      modifies this, hashtab
      ensures Valid() && defined == Merge([], AllNames(Texts(maps, lens)))
      ensures printed == old(printed) + Lines(defined[0..])
    {
      Clear();
      ghost var files, before := Texts(maps, lens), printed;
      assert before + Lines([]) == before;
      var i := 0;
      while i < |maps|
        invariant 0 <= i <= |maps| && Valid()
        invariant Gathered(files, i, defined) && Reported(before, 0)
      {
        ghost var was := defined;
        if lens[i] != 0 {
          ParseConfigFile(maps[i], lens[i], before, 0);
        }
        NextFile(files, i, was, defined);
        i := i + 1;
      }
      AllGathered(files, defined);
    }
  }

  ghost function Texts(maps: seq<string>, lens: seq<nat>): (r: seq<string>)
    requires |maps| == |lens| && forall k :: 0 <= k < |maps| ==> |maps[k]| >= lens[k]
    ensures |r| == |maps| && forall k :: 0 <= k < |maps| ==> r[k] == maps[k][..lens[k]]
  {
    seq(|maps|, k requires 0 <= k < |maps| => maps[k][..lens[k]])
  }

  /** `done` are the names of the first i files. */
  ghost predicate Gathered(files: seq<string>, i: nat, done: seq<string>) {
    i <= |files| && done == Merge([], AllNames(files[..i]))
  }

  lemma NextFile(files: seq<string>, i: nat, done: seq<string>, more: seq<string>)
    requires i < |files| && Gathered(files, i, done)
             && more == (if files[i] == "" then done else Merge(done, Names(files[i])))
    ensures Gathered(files, i + 1, more)
  {
    assert files[..i + 1][..i] == files[..i];
    MergeTwice([], AllNames(files[..i]), Names(files[i]));
  }

  lemma AllGathered(files: seq<string>, done: seq<string>)
    requires Gathered(files, |files|, done)
    ensures done == Merge([], AllNames(files))
  {
    assert files[..|files|] == files;
  }

  /** Where CONFIG_ stands if it covers the word w at m; -1 if it cannot. */
  function Candidate(w: string, m: int): (p: int)
  {
    if w == "CONF" then m
    else if w == "ONFI" then m - 1
    else if w == "NFIG" then m - 2
    else if w == "FIG_" then m - 3
    else -1
  }

  /** The name behind CONFIG_ at p. */
  method ReadName(map': string, len: nat, p: nat) returns (name: Option<string>)
    requires len <= |map'| && p + 7 <= len
    ensures name == NameAt(map'[..len], p)
  {
    ghost var text := map'[..len];
    var q := p + 7;
    while q < len && NameChar(map'[q])
      invariant p + 7 <= q <= len && NameEnd(text, q) == NameEnd(text, p + 7)
    {
      q := q + 1;
    }
    if q == len {
      return None;
    }
    assert text[q - 7..q] == map'[q - 7..q];
    assert text[p + 7..q] == map'[p + 7..q];
    if map'[q - 7..q] == MODULE {
      q := q - 7;
    }
    if q - p - 7 < 0 {
      return None;
    }
    assert text[p + 7..q] == map'[p + 7..q];
    name := Some(map'[p + 7..q]);
  }

  /** CONFIG_ at p covers exactly one word past the first: the one at m. */
  lemma Covers(map': string, len: nat, m: int, p: int)
    requires m >= 4 && m + 3 < |map'| && len <= |map'| && m - 3 <= p <= m
    requires StandsAt(map'[..len], p, PREFIX)
    ensures Candidate(map'[m..m + 4], m) == p
  {
    var text := map'[..len];
    var w := map'[m..m + 4];
    forall k | 0 <= k < 4 ensures w[k] == PREFIX[m - p + k] {
      assert w[k] == text[p..p + 7][m - p + k];
    }
    assert w == PREFIX[m - p..m - p + 4];
    assert PREFIX[0..4] == "CONF" && PREFIX[1..5] == "ONFI" && PREFIX[2..6] == "NFIG" && PREFIX[3..7] == "FIG_";
  }

  /** Of the four positions a stride passes, only the candidate can hold a name. */
  lemma OnlyCandidate(map': string, len: nat, m: int, p: int)
    requires m >= 4 && m < len && |map'| >= len + 3 && m - 3 <= p <= m && p != Candidate(map'[m..m + 4], m)
    ensures Here(map'[..len], p) == []
  {
    if StandsAt(map'[..len], p, PREFIX) {
      Covers(map', len, m, p);
    }
  }

  /** The names from p on are all that `done` still lacks. */
  ghost predicate Lacks(done: seq<string>, text: string, p: nat, goal: seq<string>) {
    Merge(done, NamesFrom(text, p)) == goal
  }

  lemma PassOne(done: seq<string>, text: string, p: nat, found: seq<string>, goal: seq<string>)
    requires Lacks(done, text, p, goal) && found == Here(text, p)
    ensures Lacks(Merge(done, found), text, p + 1, goal)
  {
    OneByOne(text, p);
    MergeTwice(done, found, NamesFrom(text, p + 1));
  }

  /** Up to four positions, of which only c can hold names. */
  lemma {:induction false} PassUpTo(done: seq<string>, text: string, p: nat, m: int, c: int, found: seq<string>,
                                    goal: seq<string>)
    requires Lacks(done, text, p, goal) && p <= m + 1
    requires forall k :: p <= k <= m ==> FoundAt(text, k, c, found)
    ensures Lacks(if p <= c <= m then Merge(done, found) else done, text, m + 1, goal)
    decreases m + 1 - p
  {
    if p <= m {
      assert FoundAt(text, p, c, found);
      PassOne(done, text, p, if p == c then found else [], goal);
      PassUpTo(if p == c then Merge(done, found) else done, text, p + 1, m, c, found, goal);
    }
  }

  /** At p there are the names `found` if it is c, and none otherwise. */
  ghost predicate FoundAt(text: string, p: nat, c: int, found: seq<string>) {
    Here(text, p) == if p == c then found else []
  }

  /** One stride passes four positions and uses the candidate. */
  lemma Pass(done: seq<string>, map': string, len: nat, m: int, goal: seq<string>)
    requires m >= 4 && m < len && |map'| >= len + 3
    requires Lacks(done, map'[..len], m - 3, goal)
    ensures Lacks(Merge(done, Here(map'[..len], Candidate(map'[m..m + 4], m))), map'[..len], m + 1, goal)
  {
    var text, c := map'[..len], Candidate(map'[m..m + 4], m);
    var found := Here(text, c);
    forall k | m - 3 <= k <= m ensures FoundAt(text, k, c, found) {
      if k != c {
        OnlyCandidate(map', len, m, k);
      }
    }
    PassUpTo(done, text, m - 3, m, c, found, goal);
  }

  lemma LacksNothing(done: seq<string>, text: string, p: nat, goal: seq<string>)
    requires Lacks(done, text, p, goal) && p + 7 > |text|
    ensures done == goal
  {
  }
}
