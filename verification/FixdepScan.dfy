/**
 What scripts/fixdep.c looks for in a source file, as a plain byte search, and what it makes
 of the names it finds.
 */
module FixdepScan {
  import opened Options

  const PREFIX: string := "CONFIG_"
  const MODULE: string := "_MODULE"

  /** isalnum in the C locale, or an underscore. */
  predicate NameChar(c: char) {
    ('0' <= c <= '9') || ('A' <= c <= 'Z') || ('a' <= c <= 'z') || c == '_'
  }

  /** The word stands in text at p. */
  predicate StandsAt(text: string, p: int, word: string) {
    0 <= p && p + |word| <= |text| && text[p..p + |word|] == word
  }

  /** Where the name that runs on from q ends; |text| if nothing ends it. */
  function NameEnd(text: string, q: nat): (e: nat)
    requires q <= |text|
    ensures q <= e <= |text|
    ensures forall k :: q <= k < e ==> NameChar(text[k])
    ensures e < |text| ==> !NameChar(text[e])
    decreases |text| - q
  {
    if q == |text| || !NameChar(text[q]) then q else NameEnd(text, q + 1)
  }

  /**
   The option named at p, where CONFIG_ stands: not one the file ends in, and without a
   _MODULE behind it.  In CONFIG_MODULE the two overlap and nothing is left.
   */
  function NameAt(text: string, p: nat): Option<string>
    requires p + 7 <= |text|
  {
    var e := NameEnd(text, p + 7);
    if e == |text| then None
    else if StandsAt(text, e - 7, MODULE) then (if e < p + 14 then None else Some(text[p + 7..e - 7]))
    else Some(text[p + 7..e])
  }

  /** The names at p and after it, in order. */
  function NamesFrom(text: string, p: nat): seq<string>
    decreases |text| - p
  {
    if p + 7 > |text| then []
    else Here(text, p) + NamesFrom(text, p + 1)
  }

  /** The names found at p. */
  function Here(text: string, p: int): seq<string> {
    if p >= 0 && StandsAt(text, p, PREFIX) && NameAt(text, p).Some? then [NameAt(text, p).value] else []
  }

  lemma OneByOne(text: string, p: nat)
    ensures NamesFrom(text, p) == Here(text, p) + NamesFrom(text, p + 1)
  {
  }

  /**
   CONFIG_ stands at p, letters, digits and underscores follow up to e, where something else
   stands; and x is what follows, without a _MODULE at its end.
   */
  ghost predicate Yields(text: string, p: nat, e: nat, x: string) {
    p + 7 <= e < |text| && text[p..p + 7] == "CONFIG_"
    && (forall k :: p + 7 <= k < e ==>
          ('0' <= text[k] <= '9') || ('A' <= text[k] <= 'Z') || ('a' <= text[k] <= 'z') || text[k] == '_')
    && !('0' <= text[e] <= '9') && !('A' <= text[e] <= 'Z') && !('a' <= text[e] <= 'z') && text[e] != '_'
    && if text[e - 7..e] == "_MODULE" then e >= p + 14 && x == text[p + 7..e - 7] else x == text[p + 7..e]
  }

  /** The name found at p, if any: exactly what a terminated run behind CONFIG_ yields. */
  lemma HereExactly(text: string, p: nat, x: string)
    ensures |Here(text, p)| <= 1
    ensures Here(text, p) == [x] <==> exists e :: Yields(text, p, e, x)
  {
    if Here(text, p) == [x] {
      var e := NameEnd(text, p + 7);
      assert Yields(text, p, e, x);
    }
    if e :| Yields(text, p, e, x) {
      EndsAt(text, p + 7, e);
      assert NameEnd(text, p + 7) == e;
    }
  }

  lemma {:induction false} EndsAt(text: string, q: nat, e: nat)
    requires q <= e < |text| && !NameChar(text[e]) && forall k :: q <= k < e ==> NameChar(text[k])
    ensures NameEnd(text, q) == e
    decreases e - q
  {
    if q < e {
      EndsAt(text, q + 1, e);
    }
  }

  /** A file's names: the search starts behind its first byte. */
  function Names(text: string): seq<string> {
    NamesFrom(text, 1)
  }

  // ---- once each ----------------------------------------------------------------------

  /** Names joined to those already there, each one once, in order of first appearance. */
  function Merge(done: seq<string>, names: seq<string>): seq<string>
    decreases |names|
  {
    if names == [] then done
    else Merge(if names[0] in done then done else done + [names[0]], names[1..])
  }

  ghost predicate Distinct(s: seq<string>) {
    forall i, j :: 0 <= i < j < |s| ==> s[i] != s[j]
  }

  /** Every name is there exactly once, and nothing else. */
  lemma {:induction false} MergeOnce(done: seq<string>, names: seq<string>)
    requires Distinct(done)
    ensures Distinct(Merge(done, names)) && done <= Merge(done, names)
    ensures forall x :: x in Merge(done, names) <==> x in done || x in names
    decreases |names|
  {
    if names != [] {
      var more := if names[0] in done then done else done + [names[0]];
      MergeOnce(more, names[1..]);
      assert names == [names[0]] + names[1..];
    }
  }

  lemma {:induction false} MergeTwice(done: seq<string>, a: seq<string>, b: seq<string>)
    ensures Merge(Merge(done, a), b) == Merge(done, a + b)
    decreases |a|
  {
    if a == [] {
      assert a + b == b;
    } else {
      assert (a + b)[1..] == a[1..] + b;
      MergeTwice(if a[0] in done then done else done + [a[0]], a[1..], b);
    }
  }

  /** The names of several files, one file after the other. */
  function AllNames(files: seq<string>): seq<string> {
    if files == [] then [] else AllNames(files[..|files| - 1]) + Names(files[|files| - 1])
  }

  // ---- the printed lines ----------------------------------------------------------------

  function LowerChar(c: char): char {
    if 'A' <= c <= 'Z' then (c as int + 32) as char else c
  }

  function Lower(s: string): (r: string)
    ensures |r| == |s| && forall k :: 0 <= k < |s| ==> r[k] == LowerChar(s[k])
  {
    seq(|s|, k requires 0 <= k < |s| => LowerChar(s[k]))
  }

  /** The dependency printed for a name. */
  function Line(name: string): string {
    "    $(wildcard include/config/" + Lower(name) + ".h) \\\n"
  }

  function Lines(names: seq<string>): (r: seq<string>)
    ensures |r| == |names| && forall k :: 0 <= k < |names| ==> r[k] == Line(names[k])
  {
    seq(|names|, k requires 0 <= k < |names| => Line(names[k]))
  }

  lemma LinesClash(a: string, b: string)
    ensures Line(a) == Line(b) <==> Lower(a) == Lower(b)
  {
    var head, tail := "    $(wildcard include/config/", ".h) \\\n";
    var x, y := Lower(a), Lower(b);
    if Line(a) == Line(b) {
      assert x == Line(a)[|head|..|Line(a)| - |tail|];
      assert y == Line(b)[|head|..|Line(b)| - |tail|];
    }
  }

  /** Two of the names are the same but for their case. */
  ghost predicate CaseTwins(names: seq<string>) {
    exists x, y :: x in names && y in names && x != y && Lower(x) == Lower(y)
  }

  /** So a run prints each of its lines once if and only if no two of the names it finds differ only in case. */
  lemma LinesOnce(names: seq<string>)
    ensures Distinct(Lines(Merge([], names))) <==> !CaseTwins(names)
  {
    var s := Merge([], names);
    MergeOnce([], names);
    if CaseTwins(names) {
      var x, y :| x in names && y in names && x != y && Lower(x) == Lower(y);
      var i :| 0 <= i < |s| && s[i] == x;
      var j :| 0 <= j < |s| && s[j] == y;
      LinesClash(x, y);
      assert Lines(s)[i] == Lines(s)[j];
    } else {
      forall i, j | 0 <= i < j < |s| ensures Lines(s)[i] != Lines(s)[j] {
        LinesClash(s[i], s[j]);
        assert s[i] in names && s[j] in names;
      }
    }
  }

  /** Capitals become small letters, and nothing else changes. */
  lemma LowerLetters(c: char)
    ensures Lower("ABCDEFGHIJKLMNOPQRSTUVWXYZ") == "abcdefghijklmnopqrstuvwxyz"
    ensures !('A' <= c <= 'Z') ==> Lower([c]) == [c]
  {
  }

  /** Digits are part of a name, and the line of it is in small letters. */
  lemma DigitsInNames()
    ensures Names(" CONFIG_I2C ") == ["I2C"]
    ensures Line("I2C") == "    $(wildcard include/config/i2c.h) \\\n"
  {
    OneName("I2C");
    assert " " + (PREFIX + "I2C" + " ") == " CONFIG_I2C ";
    assert Lower("I2C") == "i2c";
  }

  lemma OneName(name: string)
    requires |name| < 6 && forall k :: 0 <= k < |name| ==> NameChar(name[k])
    ensures Names(" " + (PREFIX + name + " ")) == [name]
  {
    var t := " " + (PREFIX + name + " ");
    Placed(" ", name, "");
    assert t == " " + (PREFIX + name + " " + "");
    OneOption(t, 1, name, |t|);
  }

  /** Two options whose names differ in case alone. */
  const TWINS: string := PREFIX + "A" + " " + (PREFIX + "a" + " ")

  lemma FirstTwin(before: string)
    ensures ShortOption(before + TWINS, |before|, "A")
  {
    var b := PREFIX + "a" + " ";
    Placed(before, "A", b);
    assert before + TWINS == before + (PREFIX + "A" + " " + b);
  }

  lemma SecondTwin(before: string)
    ensures |before + TWINS| == |before| + 18 && ShortOption(before + TWINS, |before| + 9, "a")
  {
    var a := PREFIX + "A" + " ";
    Placed(before + a, "a", "");
    assert before + TWINS == (before + a) + (PREFIX + "a" + " " + "");
  }

  lemma TwinNames()
    ensures Names(" " + TWINS) == ["A", "a"]
  {
    FirstTwin(" ");
    SecondTwin(" ");
    OneOption(" " + TWINS, 1, "A", 10);
    OneOption(" " + TWINS, 10, "a", 19);
  }

  /** A file for which one line is printed twice. */
  lemma LineTwice()
    ensures Names(" " + TWINS) == ["A", "a"]
    ensures var lines := Lines(Merge([], AllNames([" " + TWINS]))); |lines| == 2 && lines[0] == lines[1]
  {
    var t := " " + TWINS;
    TwinNames();
    assert AllNames([t]) == AllNames([]) + Names(t);
    assert AllNames([t]) == ["A", "a"];
    assert Merge([], ["A", "a"]) == Merge(["A"], ["a"]) == ["A", "a"];
    LinesClash("A", "a");
    assert Lower("A") == "a" == Lower("a");
  }

  lemma Starts(text: string, p: nat, word: string)
    ensures StandsAt(text, p, word) && word != "" ==> text[p] == word[0]
  {
    if StandsAt(text, p, word) && word != "" {
      assert text[p] == text[p..p + |word|][0];
    }
  }

  lemma {:induction false} NothingUpTo(text: string, p: nat, q: nat)
    requires p <= q <= |text| && forall k :: p <= k < q ==> !StandsAt(text, k, PREFIX)
    ensures NamesFrom(text, p) == NamesFrom(text, q)
    decreases q - p
  {
    if p < q {
      OneByOne(text, p);
      NothingUpTo(text, p + 1, q);
    }
  }

  /** A short option at p, with a blank behind it. */
  predicate ShortOption(t: string, p: nat, name: string) {
    |name| < 6 && p + 8 + |name| <= |t| && t[p..p + 7] == PREFIX && t[p + 7..p + 7 + |name|] == name
    && t[p + 7 + |name|] == ' ' && forall k :: 0 <= k < |name| ==> NameChar(name[k])
  }

  lemma Placed(before: string, name: string, after: string)
    requires |name| < 6 && forall k :: 0 <= k < |name| ==> NameChar(name[k])
    ensures ShortOption(before + (PREFIX + name + " " + after), |before|, name)
  {
    var t, p := before + (PREFIX + name + " " + after), |before|;
    assert t[p..p + 7] == PREFIX && t[p + 7..p + 7 + |name|] == name;
  }

  lemma ShortHere(t: string, p: nat, name: string)
    requires ShortOption(t, p, name)
    ensures Here(t, p) == [name]
  {
    var e := p + 7 + |name|;
    forall k | p + 7 <= k < e ensures NameChar(t[k]) {
      assert t[k] == t[p + 7..e][k - p - 7];
    }
    EndsAt(t, p + 7, e);
    assert t[e - 7] == t[p..p + 7][|name|] == PREFIX[|name|];
    Starts(t, e - 7, MODULE);
  }

  /** Neither inside CONFIG_ nor in a short name can another CONFIG_ begin. */
  lemma NoneInside(t: string, p: nat, name: string, k: nat)
    requires ShortOption(t, p, name) && p < k < p + 8 + |name|
    ensures !StandsAt(t, k, PREFIX)
  {
    if k < p + 7 {
      Matches(t, p, PREFIX, k - p);
      Matches(t, k, PREFIX, 0);
      assert PREFIX[k - p] != PREFIX[0];
    } else {
      Matches(t, k, PREFIX, p + 7 + |name| - k);
      assert PREFIX[p + 7 + |name| - k] != ' ';
    }
  }

  lemma Matches(text: string, p: nat, word: string, i: nat)
    requires i < |word|
    ensures StandsAt(text, p, word) ==> text[p + i] == word[i]
  {
    if StandsAt(text, p, word) {
      assert text[p + i] == text[p..p + |word|][i];
    }
  }

  /** It gives its name, and nothing more up to the blank. */
  lemma OneOption(t: string, p: nat, name: string, e: nat)
    requires ShortOption(t, p, name) && e == p + 8 + |name|
    ensures Here(t, p) == [name] && NamesFrom(t, p + 1) == NamesFrom(t, e)
    ensures NamesFrom(t, p) == [name] + NamesFrom(t, e)
    ensures e == |t| ==> NamesFrom(t, e) == []
  {
    ShortHere(t, p, name);
    forall k | p + 1 <= k < e ensures !StandsAt(t, k, PREFIX) {
      NoneInside(t, p, name, k);
    }
    NothingUpTo(t, p + 1, e);
    OneByOne(t, p);
  }

  // ---- what the search misses -------------------------------------------------------------

  /** An option named in the first byte of a file is not found ... */
  lemma FirstByteMissed()
    ensures Names(PREFIX + "A" + " ") == [] && Names(" " + (PREFIX + "A" + " ")) == ["A"]
  {
    Placed("", "A", "");
    assert PREFIX + "A" + " " == "" + (PREFIX + "A" + " " + "");
    OneOption(PREFIX + "A" + " ", 0, "A", 9);
    OneName("A");
  }

  /** ... for any file exactly when an option is named there ... */
  lemma FirstByteLost(text: string)
    ensures NamesFrom(text, 0) == Here(text, 0) + Names(text)
    ensures Names(text) == NamesFrom(text, 0) <==> Here(text, 0) == []
  {
    OneByOne(text, 0);
  }

  /**
   ... and then its line, which a search from the first byte prints, is missing if and only if
   no other place, before or behind it, names an option that is the same in lower case.
   */
  lemma FirstByteLineLost(before: seq<string>, text: string, after: seq<string>, x: string)
    requires Here(text, 0) == [x]
    ensures Line(x) in Lines(Merge([], before + NamesFrom(text, 0) + after))
    ensures Line(x) !in Lines(Merge([], before + Names(text) + after))
            <==> forall y :: y in before + Names(text) + after ==> Lower(y) != Lower(x)
  {
    FirstByteLost(text);
    assert x in Here(text, 0);
    LinePrinted(before + NamesFrom(text, 0) + after, x);
    LinePrinted(before + Names(text) + after, x);
  }

  /** A name's line is printed if and only if some name found is the same in lower case. */
  lemma LinePrinted(names: seq<string>, x: string)
    ensures Line(x) in Lines(Merge([], names)) <==> exists y :: y in names && Lower(y) == Lower(x)
  {
    var s := Merge([], names);
    MergeOnce([], names);
    forall y ensures Line(x) == Line(y) <==> Lower(x) == Lower(y) {
      LinesClash(x, y);
    }
    if y :| y in names && Lower(y) == Lower(x) {
      var i :| 0 <= i < |s| && s[i] == y;
      assert Lines(s)[i] == Line(x);
    }
    if Line(x) in Lines(s) {
      var i :| 0 <= i < |s| && Lines(s)[i] == Line(x);
      assert s[i] in names;
    }
  }

  /** The line of a missed option is printed all the same if another spelling of it is found. */
  lemma FirstByteLineKept()
    ensures Here(TWINS, 0) == ["A"] && "A" !in Names(TWINS) && Line("A") in Lines(Merge([], Names(TWINS)))
  {
    FirstTwin("");
    SecondTwin("");
    assert "" + TWINS == TWINS;
    SecondOnly(TWINS);
    LinePrinted(["a"], "A");
    assert "a" in ["a"] && Lower("a") == Lower("A");
  }

  lemma SecondOnly(t: string)
    requires |t| == 18 && ShortOption(t, 0, "A") && ShortOption(t, 9, "a")
    ensures Here(t, 0) == ["A"] && Names(t) == ["a"]
  {
    OneOption(t, 0, "A", 9);
    OneOption(t, 9, "a", 18);
    assert NamesFrom(t, 9) == ["a"] + [] == ["a"];
  }

  /** ... and a name is lost exactly when the file ends in it, or it is MODULE. */
  lemma NameLost(text: string, p: nat)
    requires StandsAt(text, p, PREFIX)
    ensures NameAt(text, p).None? <==>
              NameEnd(text, p + 7) == |text| || text[p + 7..NameEnd(text, p + 7)] == "MODULE"
  {
    var e := NameEnd(text, p + 7);
    assert forall k :: p <= k < p + 7 ==> text[k] == PREFIX[k - p];
    if e < |text| && text[p + 7..e] == "MODULE" {
      assert e == p + 13;
      assert text[e - 7..e] == [text[p + 6]] + text[p + 7..e];
    }
    if e < |text| && StandsAt(text, e - 7, MODULE) && e < p + 14 {
      assert text[e - 7] == text[e - 7..e][0] == '_';
      assert e == p + 13;
      assert text[p + 7..e] == text[e - 7..e][1..];
    }
  }
}
