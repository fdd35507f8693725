/**
 Brace completion (bin/bash/bracecomp.c): a list of names becomes one brace word, which
 brace expansion turns back into the list -- if every run of names shares what its first and
 its last share, as in a sorted list.
 */
module BraceCompress {
  import opened Options
  import opened CText
  import opened Folding
  import opened Braces
  import opened BraceCorrect

  /** The characters sh_backslash_quote puts a backslash before, wherever they stand. */
  predicate Special(c: char) {
    c in "\t\n !\"$&'()*,;<>?[\\]^`{|}"
  }

  function Quoted(s: string): (us: seq<Unit>)
    ensures |us| == |s| && forall k :: 0 <= k < |s| ==> (us[k].Plain? || us[k].Escaped?) && us[k].c == s[k]
  {
    seq(|s|, k requires 0 <= k < |s| => if Special(s[k]) || (k == 0 && s[k] == '#') then Escaped(s[k]) else Plain(s[k]))
  }

  method BackslashQuote(s: string) returns (result: string)
    ensures result == Spell(true, Quoted(s))
  {
    result := "";
    var i := 0;
    while i < |s|
      invariant 0 <= i <= |s|
      invariant result == Spell(true, Quoted(s)[..i])
    {
      SpellAppend(true, Quoted(s)[..i], [Quoted(s)[i]]);
      assert Quoted(s)[..i + 1] == Quoted(s)[..i] + [Quoted(s)[i]];
      assert Spell(true, [Quoted(s)[i]]) == UnitText(Quoted(s)[i]) + "";
      if Special(s[i]) {
        result := result + ['\\'];
      } else if s[i] == '#' && i == 0 {
        result := result + ['\\'];
      }
      result := result + [s[i]];
      i := i + 1;
    }
    assert Quoted(s)[..i] == Quoted(s);
  }

  // ---- names -------------------------------------------------------------------------------

  /** How many characters two names share at their start. */
  function Gcd(a: string, b: string): (n: nat)
    ensures n <= |a| && n <= |b|
  {
    if a == "" || b == "" || a[0] != b[0] then 0 else 1 + Gcd(a[1..], b[1..])
  }

  lemma {:induction false} GcdCommon(a: string, b: string)
    ensures var n := Gcd(a, b); a[..n] == b[..n] && (n < |a| && n < |b| ==> a[n] != b[n])
  {
    if a != "" && b != "" && a[0] == b[0] {
      GcdCommon(a[1..], b[1..]);
      var n := Gcd(a, b);
      assert a[..n] == [a[0]] + a[1..][..n - 1] && b[..n] == [b[0]] + b[1..][..n - 1];
    }
  }

  /** It is the longest common prefix. */
  lemma GcdLongest(a: string, b: string, n: nat)
    requires n <= |a| && n <= |b| && a[..n] == b[..n]
    ensures n <= Gcd(a, b)
  {
    GcdCommon(a, b);
    var x, y, g := a[..n], b[..n], Gcd(a, b);
    assert forall k :: 0 <= k < n ==> x[k] == a[k] && y[k] == b[k];
  }

  method StringGcd(s1: string, s2: string) returns (i: nat)
    ensures i == Gcd(s1, s2)
  {
    i := 0;
    while i < |s1| && i < |s2|
      invariant i <= |s1| && i <= |s2| && s1[..i] == s2[..i]
    {
      if s1[i] != s2[i] {
        break;
      }
      i := i + 1;
    }
    GcdCommon(s1, s2);
    GcdLongest(s1, s2, i);
  }

  /** Where the names that share more than `zero` characters with names[start] end. */
  function RunEnd(names: seq<string>, start: nat, e: nat, hi: nat, zero: nat): (r: nat)
    requires start < e <= hi <= |names|
    ensures e <= r <= hi
    ensures forall j :: e <= j < r ==> Gcd(names[start], names[j]) > zero
    ensures r == hi || Gcd(names[start], names[r]) <= zero
    decreases hi - e
  {
    if e == hi || Gcd(names[start], names[e]) <= zero then e else RunEnd(names, start, e + 1, hi, zero)
  }

  /**
   No name is read past its end.  A run of several names leaves out, from each of them, as many
   characters as its first and its last name share.
   */
  predicate InBounds(names: seq<string>, lo: nat, hi: nat, zero: nat)
    requires lo <= hi <= |names|
    decreases hi - lo, if lo < hi then |names[lo]| - zero else 0, 1
  {
    lo == hi
    || var e := RunEnd(names, lo, lo + 1, hi, zero);
       RunInBounds(names, lo, e, zero) && InBounds(names, e, hi, zero)
  }

  predicate RunInBounds(names: seq<string>, start: nat, e: nat, zero: nat)
    requires start < e <= |names|
    decreases e - start, |names[start]| - zero, 0
  {
    if e == start + 1 then zero <= |names[start]|
    else
      var gcd := Gcd(names[start], names[e - 1]);
      gcd > zero && InBounds(names, start, e, gcd)
  }

  /** In every run all names share what the first and the last share. */
  predicate RunsShare(names: seq<string>, lo: nat, hi: nat, zero: nat)
    requires lo <= hi <= |names|
    decreases hi - lo, if lo < hi then |names[lo]| - zero else 0, 1
  {
    lo == hi
    || var e := RunEnd(names, lo, lo + 1, hi, zero);
       RunShares(names, lo, e, zero) && RunsShare(names, e, hi, zero)
  }

  predicate RunShares(names: seq<string>, start: nat, e: nat, zero: nat)
    requires start < e <= |names|
    decreases e - start, |names[start]| - zero, 0
  {
    e == start + 1
    || var gcd := Gcd(names[start], names[e - 1]);
       gcd > zero && (forall k :: start <= k < e ==> gcd <= Gcd(names[start], names[k]))
       && RunsShare(names, start, e, gcd)
  }

  function Literal(us: seq<Unit>, rest: Word): Word {
    if us == [] then rest else Char(us[0], Literal(us[1..], rest))
  }

  /** The word for the run of names from start to e, without their first `zero` characters. */
  ghost function WordOf(names: seq<string>, start: nat, e: nat, zero: nat): Word
    requires start < e <= |names| && RunInBounds(names, start, e, zero)
    decreases e - start, |names[start]| - zero, 0
  {
    if e == start + 1 then Literal(Quoted(names[start][zero..]), End)
    else
      var gcd := Gcd(names[start], names[e - 1]);
      Literal(Quoted(names[start][zero..gcd]), Group(Members(names, start, e, gcd), End))
  }

  /** The alternatives for the names from start to hi. */
  ghost function Members(names: seq<string>, start: nat, hi: nat, zero: nat): (a: Alts)
    requires start < hi <= |names| && InBounds(names, start, hi, zero)
    ensures a.Next? <==> RunEnd(names, start, start + 1, hi, zero) < hi
    decreases hi - start, |names[start]| - zero, 1
  {
    var e := RunEnd(names, start, start + 1, hi, zero);
    var w := WordOf(names, start, e, zero);
    if e == hi then Last(w) else Next(w, Members(names, e, hi, zero))
  }

  /**
   What becomes of the names from lo to hi without their first `zero` characters: in a run, the
   first name's prefix is every name's.
   */
  function Backs(names: seq<string>, lo: nat, hi: nat, zero: nat): (r: seq<string>)
    requires lo <= hi <= |names| && InBounds(names, lo, hi, zero)
    ensures |r| == hi - lo
    decreases hi - lo, if lo < hi then |names[lo]| - zero else 0, 1
  {
    if lo == hi then []
    else
      var e := RunEnd(names, lo, lo + 1, hi, zero);
      RunBacks(names, lo, e, zero) + Backs(names, e, hi, zero)
  }

  function RunBacks(names: seq<string>, start: nat, e: nat, zero: nat): (r: seq<string>)
    requires start < e <= |names| && RunInBounds(names, start, e, zero)
    ensures |r| == e - start
    decreases e - start, |names[start]| - zero, 0
  {
    if e == start + 1 then [names[start][zero..]]
    else
      var gcd := Gcd(names[start], names[e - 1]);
      Prefixed(names[start][zero..gcd], Backs(names, start, e, gcd))
  }

  lemma {:induction false} LongEnough(names: seq<string>, lo: nat, hi: nat, zero: nat)
    requires lo <= hi <= |names| && InBounds(names, lo, hi, zero)
    ensures forall k :: lo <= k < hi ==> zero <= |names[k]|
    decreases hi - lo, if lo < hi then |names[lo]| - zero else 0
  {
    if lo < hi {
      var e := RunEnd(names, lo, lo + 1, hi, zero);
      if e > lo + 1 {
        LongEnough(names, lo, e, Gcd(names[lo], names[e - 1]));
      }
      LongEnough(names, e, hi, zero);
    }
  }

  /** The names from lo to hi without their first `zero` characters. */
  function Rests(names: seq<string>, lo: nat, hi: nat, zero: nat): (r: seq<string>)
    requires lo <= hi <= |names| && forall k :: lo <= k < hi ==> zero <= |names[k]|
    ensures |r| == hi - lo && forall k {:trigger names[k]} :: lo <= k < hi ==> r[k - lo] == names[k][zero..]
  {
    seq(hi - lo, i requires 0 <= i < hi - lo => names[lo + i][zero..])
  }

  /** They come back from the level that left these characters out. */
  ghost predicate ComeBack(names: seq<string>, lo: nat, hi: nat, zero: nat)
    requires lo <= hi <= |names| && InBounds(names, lo, hi, zero)
  {
    LongEnough(names, lo, hi, zero);
    Backs(names, lo, hi, zero) == Rests(names, lo, hi, zero)
  }

  /** The names come back if and only if every run shares what its first and last name do. */
  lemma {:induction false} BackExactly(names: seq<string>, lo: nat, hi: nat, zero: nat)
    requires lo <= hi <= |names| && InBounds(names, lo, hi, zero)
    ensures ComeBack(names, lo, hi, zero) <==> RunsShare(names, lo, hi, zero)
    decreases hi - lo, if lo < hi then |names[lo]| - zero else 0, 1
  {
    if lo < hi {
      var e := RunEnd(names, lo, lo + 1, hi, zero);
      LongEnough(names, lo, hi, zero);
      RunBackExactly(names, lo, e, zero);
      BackExactly(names, e, hi, zero);
      BackSplits(names, lo, e, hi, zero);
    }
  }

  lemma BackSplits(names: seq<string>, lo: nat, e: nat, hi: nat, zero: nat)
    requires lo < hi <= |names| && InBounds(names, lo, hi, zero) && e == RunEnd(names, lo, lo + 1, hi, zero)
    requires forall k :: lo <= k < hi ==> zero <= |names[k]|
    ensures ComeBack(names, lo, hi, zero)
            <==> RunBacks(names, lo, e, zero) == Rests(names, lo, e, zero) && ComeBack(names, e, hi, zero)
  {
    var run, rest := RunBacks(names, lo, e, zero), Backs(names, e, hi, zero);
    var run', rest' := Rests(names, lo, e, zero), Rests(names, e, hi, zero);
    assert Backs(names, lo, hi, zero) == run + rest && Rests(names, lo, hi, zero) == run' + rest';
    assert (run + rest)[..e - lo] == run && (run' + rest')[..e - lo] == run';
    assert (run + rest)[e - lo..] == rest && (run' + rest')[e - lo..] == rest';
  }

  lemma {:induction false} RunBackExactly(names: seq<string>, start: nat, e: nat, zero: nat)
    requires start < e <= |names| && RunInBounds(names, start, e, zero)
    requires forall k :: start <= k < e ==> zero <= |names[k]|
    requires forall j :: start < j < e ==> Gcd(names[start], names[j]) > zero
    ensures RunBacks(names, start, e, zero) == Rests(names, start, e, zero) <==> RunShares(names, start, e, zero)
    decreases e - start, |names[start]| - zero, 0
  {
    if e > start + 1 {
      var gcd := Gcd(names[start], names[e - 1]);
      BackExactly(names, start, e, gcd);
      LongEnough(names, start, e, gcd);
      var back, whole := Backs(names, start, e, gcd), Rests(names, start, e, zero);
      forall k | start <= k < e
        ensures names[start][zero..gcd] + back[k - start] == whole[k - start]
                <==> gcd <= Gcd(names[start], names[k]) && back[k - start] == names[k][gcd..]
      {
        PrefixBack(names[start], names[k], zero, gcd, back[k - start]);
      }
      EachBack(names, start, e, zero, gcd, back);
    }
  }

  /** All the names of a run come back if and only if each does. */
  lemma EachBack(names: seq<string>, start: nat, e: nat, zero: nat, gcd: nat, back: seq<string>)
    requires start < e <= |names| && zero < gcd <= |names[start]| && |back| == e - start
    requires forall k :: start <= k < e ==> gcd <= |names[k]|
    requires forall k :: start <= k < e ==>
               (names[start][zero..gcd] + back[k - start] == Rests(names, start, e, zero)[k - start]
                <==> gcd <= Gcd(names[start], names[k]) && back[k - start] == names[k][gcd..])
    ensures Prefixed(names[start][zero..gcd], back) == Rests(names, start, e, zero)
            <==> back == Rests(names, start, e, gcd)
                 && forall k :: start <= k < e ==> gcd <= Gcd(names[start], names[k])
  {
    var p, whole, rest := names[start][zero..gcd], Rests(names, start, e, zero), Rests(names, start, e, gcd);
    var all := Prefixed(p, back);
    if all == whole {
      forall k | start <= k < e ensures gcd <= Gcd(names[start], names[k]) && back[k - start] == rest[k - start] {
        assert all[k - start] == p + back[k - start];
      }
      forall i | 0 <= i < |back| ensures back[i] == rest[i] {
        assert names[start + i] in names && back[start + i - start] == rest[start + i - start];
      }
    }
    if back == rest && forall k :: start <= k < e ==> gcd <= Gcd(names[start], names[k]) {
      forall i | 0 <= i < |all| ensures all[i] == whole[i] {
        assert names[start + i] in names && back[start + i - start] == rest[start + i - start];
        assert gcd <= Gcd(names[start], names[start + i]);
      }
    }
  }

  /** A name behind the prefix of the first is itself if and only if it has this prefix. */
  lemma PrefixBack(a: string, b: string, zero: nat, gcd: nat, back: string)
    requires zero < gcd <= |a| && gcd <= |b| && (a == b || Gcd(a, b) > zero)
    ensures a[zero..gcd] + back == b[zero..] <==> gcd <= Gcd(a, b) && back == b[gcd..]
  {
    GcdCommon(a, b);
    var n := Gcd(a, b);
    assert b[zero..] == b[zero..gcd] + b[gcd..];
    if a == b {
      GcdLongest(a, b, gcd);
    }
    if a[zero..gcd] + back == b[zero..] {
      assert a[zero..gcd] == b[zero..][..gcd - zero] == b[zero..gcd] && back == b[zero..][gcd - zero..];
      if a != b {
        assert a[..zero] == a[..n][..zero] == b[..n][..zero] == b[..zero];
      }
      assert a[..gcd] == a[..zero] + a[zero..gcd] && b[..gcd] == b[..zero] + b[zero..gcd];
      GcdLongest(a, b, gcd);
    } else if gcd <= n {
      assert a[..gcd] == a[..n][..gcd] == b[..n][..gcd] == b[..gcd];
      assert a[zero..gcd] == a[..gcd][zero..] == b[..gcd][zero..] == b[zero..gcd];
    }
  }

  /** Names that share what they must are never read past their end. */
  lemma {:induction false} SharingInBounds(names: seq<string>, lo: nat, hi: nat, zero: nat)
    requires lo <= hi <= |names| && RunsShare(names, lo, hi, zero) && forall k :: lo <= k < hi ==> zero <= |names[k]|
    ensures InBounds(names, lo, hi, zero)
    decreases hi - lo, if lo < hi then |names[lo]| - zero else 0
  {
    if lo < hi {
      var e := RunEnd(names, lo, lo + 1, hi, zero);
      if e > lo + 1 {
        SharingInBounds(names, lo, e, Gcd(names[lo], names[e - 1]));
      }
      SharingInBounds(names, e, hi, zero);
    }
  }

  // ---- the word stands for the names ---------------------------------------------------------

  /** Words without substitutions mean the same to every host. */
  const ANY: Host := Host((s: string) => None, (text: string, i: nat) => 0)

  /** A character, with a backslash just where quoting puts one. */
  predicate Needed(u: Unit) {
    Simple(u) && (u.Escaped? ==> Special(u.c) || u.c == '#') && (u.Plain? ==> !Special(u.c))
  }

  lemma {:induction false} LiteralMeans(us: seq<Unit>, rest: Word)
    ensures Print(Literal(us, rest)) == Spell(true, us) + Print(rest)
    ensures Meaning(Literal(us, rest)) == Prefixed(us, Meaning(rest))
    ensures UnitsOk(us, ANY) && Ok(rest, ANY) ==> Ok(Literal(us, rest), ANY)
    ensures Has(us, Needed) && Every(rest, Needed) ==> Every(Literal(us, rest), Needed)
  {
    if us == [] {
      PrefixedNothing(Meaning(rest));
    } else {
      LiteralMeans(us[1..], rest);
      PrefixedTwice([us[0]], us[1..], Meaning(rest));
      assert [us[0]] + us[1..] == us;
    }
  }

  lemma {:induction false} SpellQuoted(s: string)
    ensures Spell(false, Quoted(s)) == s
  {
    SpellChars(Quoted(s), s);
  }

  lemma {:induction false} SpellChars(us: seq<Unit>, s: string)
    requires |us| == |s| && forall k :: 0 <= k < |s| ==> (us[k].Plain? || us[k].Escaped?) && us[k].c == s[k]
    ensures Spell(false, us) == s
  {
    if us != [] {
      SpellChars(us[1..], s[1..]);
    }
  }

  predicate CString(s: string) {
    forall k :: 0 <= k < |s| ==> s[k] != NUL
  }

  ghost predicate CStrings(names: seq<string>) {
    forall k :: 0 <= k < |names| ==> CString(names[k])
  }

  lemma SingleMeans(s: string)
    requires CString(s)
    ensures var w := Literal(Quoted(s), End); Ok(w, ANY) && Every(w, Needed) && SpellAll(false, Meaning(w)) == [s]
  {
    var us := Quoted(s);
    LiteralMeans(us, End);
    SpellQuoted(s);
    assert us + [] == us;
  }

  lemma GroupMeans(s: string, alts: Alts, m: seq<string>)
    requires CString(s) && AltsOk(alts, ANY) && alts.Next? && EveryAlt(alts, Needed)
    requires SpellAll(false, AltsMeaning(alts)) == m
    ensures var w := Literal(Quoted(s), Group(alts, End));
            Ok(w, ANY) && Every(w, Needed) && SpellAll(false, Meaning(w)) == Prefixed(s, m)
  {
    var us := Quoted(s);
    var group := Group(alts, End);
    assert UnitsOk(us, ANY) && Ok(group, ANY) && Has(us, Needed) && Every(group, Needed);
    LiteralMeans(us, group);
    ProductUnit(AltsMeaning(alts));
    SpellPrefixed(false, us, AltsMeaning(alts));
    SpellQuoted(s);
  }

  /** a is w, or w followed by more, whose expansions are known. */
  lemma AltsMean(w: Word, more: Alts, m: seq<string>, m': seq<string>)
    requires Ok(w, ANY) && Every(w, Needed) && SpellAll(false, Meaning(w)) == m
    ensures AltsOk(Last(w), ANY) && EveryAlt(Last(w), Needed) && SpellAll(false, AltsMeaning(Last(w))) == m
    ensures AltsOk(more, ANY) && EveryAlt(more, Needed) && SpellAll(false, AltsMeaning(more)) == m' ==>
              AltsOk(Next(w, more), ANY) && EveryAlt(Next(w, more), Needed)
              && SpellAll(false, AltsMeaning(Next(w, more))) == m + m'
  {
    SpellJoin(false, Meaning(w), AltsMeaning(more));
  }

  /** w, or a, expands to these strings. */
  ghost predicate StandsFor(w: Word, m: seq<string>) {
    Ok(w, ANY) && Every(w, Needed) && SpellAll(false, Meaning(w)) == m
  }

  ghost predicate StandFor(a: Alts, m: seq<string>) {
    AltsOk(a, ANY) && EveryAlt(a, Needed) && SpellAll(false, AltsMeaning(a)) == m
  }

  lemma CStringPart(s: string, i: nat, j: nat)
    requires CString(s) && i <= j <= |s|
    ensures CString(s[i..j]) && CString(s[i..])
  {
  }

  lemma {:induction false} WordMeans(names: seq<string>, start: nat, e: nat, zero: nat)
    requires start < e <= |names| && RunInBounds(names, start, e, zero) && CStrings(names)
    ensures StandsFor(WordOf(names, start, e, zero), RunBacks(names, start, e, zero))
    decreases e - start, |names[start]| - zero, 0
  {
    if e == start + 1 {
      CStringPart(names[start], zero, |names[start]|);
      SingleMeans(names[start][zero..]);
    } else {
      var gcd := Gcd(names[start], names[e - 1]);
      CStringPart(names[start], zero, gcd);
      MembersMean(names, start, e, gcd);
      SeveralMembers(names, start, e, gcd);
      GroupMeans(names[start][zero..gcd], Members(names, start, e, gcd), Backs(names, start, e, gcd));
    }
  }

  /** Not all the names of a run share more than the first and the last do. */
  lemma SeveralMembers(names: seq<string>, start: nat, e: nat, gcd: nat)
    requires start + 1 < e <= |names| && gcd == Gcd(names[start], names[e - 1]) && InBounds(names, start, e, gcd)
    ensures Members(names, start, e, gcd).Next?
  {
  }

  lemma {:induction false} MembersMean(names: seq<string>, start: nat, hi: nat, zero: nat)
    requires start < hi <= |names| && InBounds(names, start, hi, zero) && CStrings(names)
    ensures StandFor(Members(names, start, hi, zero), Backs(names, start, hi, zero))
    decreases hi - start, |names[start]| - zero, 1
  {
    var e := RunEnd(names, start, start + 1, hi, zero);
    var w, m := WordOf(names, start, e, zero), RunBacks(names, start, e, zero);
    WordMeans(names, start, e, zero);
    if e == hi {
      AltsMean(w, Last(w), m, []);
      assert m + [] == m;
    } else {
      MembersMean(names, e, hi, zero);
      AltsMean(w, Members(names, e, hi, zero), m, Backs(names, e, hi, zero));
    }
  }

  // ---- building the word as text ----------------------------------------------------------------

  /** The word for all the names from lo to hi: one group with a prefix, or bare alternatives in braces. */
  ghost function Top(names: seq<string>, lo: nat, hi: nat): Word
    requires lo < hi <= |names| && InBounds(names, lo, hi, 0)
  {
    if RunEnd(names, lo, lo + 1, hi, 0) == hi then WordOf(names, lo, hi, 0) else Group(Members(names, lo, hi, 0), End)
  }

  ghost predicate MungeOk(names: seq<string>, lo: nat, hi: nat, zero: nat) {
    |names| > 0 && lo <= hi <= |names| && InBounds(names, lo, hi, zero)
    && (lo == hi < |names| ==> zero <= |names[lo]|)
  }

  /** Inner levels return their alternatives each followed by a comma. */
  ghost function Munged(names: seq<string>, lo: nat, hi: nat, zero: nat): string
    requires MungeOk(names, lo, hi, zero)
  {
    if lo == hi then Spell(true, Quoted(if lo < |names| then names[lo][zero..] else names[0]))
    else if zero == 0 then Print(Top(names, lo, hi))
    else PrintAlts(Members(names, lo, hi, zero)) + ","
  }

  /** t is the word, or are the alternatives, as text. */
  ghost predicate WordText(names: seq<string>, start: nat, e: nat, zero: nat, t: string) {
    start < e <= |names| && RunInBounds(names, start, e, zero) && t == Print(WordOf(names, start, e, zero))
  }

  ghost predicate AltsText(names: seq<string>, start: nat, hi: nat, zero: nat, t: string) {
    start < hi <= |names| && Folded(|names| + 4, AltsTextFact, (names, start, hi, zero, t))
  }

  ghost predicate AltsTextFact(x: (seq<string>, nat, nat, nat, string)) {
    x.1 < x.2 <= |x.0| && InBounds(x.0, x.1, x.2, x.3) && x.4 == PrintAlts(Members(x.0, x.1, x.2, x.3))
  }

  lemma AltsTextIs(names: seq<string>, start: nat, hi: nat, zero: nat, t: string)
    requires start < hi <= |names|
    ensures AltsText(names, start, hi, zero, t)
            <==> InBounds(names, start, hi, zero) && t == PrintAlts(Members(names, start, hi, zero))
  {
    Unfolded(|names| + 4, AltsTextFact, (names, start, hi, zero, t));
  }

  ghost predicate MungedText(names: seq<string>, lo: nat, hi: nat, zero: nat, t: string) {
    MungeOk(names, lo, hi, zero) && t == Munged(names, lo, hi, zero)
  }

  /** e is where the run that begins at start ends. */
  ghost predicate Runs(names: seq<string>, start: nat, e: nat, hi: nat, zero: nat) {
    start < e <= hi <= |names| && e == RunEnd(names, start, start + 1, hi, zero)
  }

  lemma RunAhead(names: seq<string>, start: nat, hi: nat, zero: nat) returns (e: nat)
    requires start < hi <= |names|
    ensures Runs(names, start, e, hi, zero) && e == RunEnd(names, start, start + 1, hi, zero)
  {
    e := RunEnd(names, start, start + 1, hi, zero);
  }

  lemma RunAllowed(names: seq<string>, start: nat, e: nat, hi: nat, zero: nat, t: string)
    requires AltsText(names, start, hi, zero, t) && Runs(names, start, e, hi, zero)
    ensures RunInBounds(names, start, e, zero)
  {
    AltsTextIs(names, start, hi, zero, t);
  }

  lemma AllText(names: seq<string>, lo: nat, hi: nat, zero: nat) returns (t: string)
    requires lo < hi <= |names| && InBounds(names, lo, hi, zero)
    ensures AltsText(names, lo, hi, zero, t)
  {
    t := PrintAlts(Members(names, lo, hi, zero));
    AltsTextIs(names, lo, hi, zero, t);
  }

  /** The first of the alternatives, and the text of those after it. */
  lemma FirstText(names: seq<string>, start: nat, e: nat, hi: nat, zero: nat, t: string, subterm: string)
    returns (t': string)
    requires AltsText(names, start, hi, zero, t) && WordText(names, start, e, zero, subterm)
    requires Runs(names, start, e, hi, zero)
    ensures if e < hi then AltsText(names, e, hi, zero, t') && t == subterm + "," + t' else t == subterm
  {
    AltsTextIs(names, start, hi, zero, t);
    if e < hi {
      t' := PrintAlts(Members(names, e, hi, zero));
      AltsTextIs(names, e, hi, zero, t');
    } else {
      t' := "";
    }
  }

  lemma SingleText(names: seq<string>, start: nat, zero: nat)
    requires start < |names| && zero <= |names[start]|
    ensures WordText(names, start, start + 1, zero, Spell(true, Quoted(names[start][zero..])))
  {
    LiteralMeans(Quoted(names[start][zero..]), End);
  }

  lemma GroupPrint(us: seq<Unit>, alts: Alts)
    ensures Print(Literal(us, Group(alts, End))) == Spell(true, us) + "{" + PrintAlts(alts) + "}"
  {
    LiteralMeans(us, Group(alts, End));
    var a, u := PrintAlts(alts), Spell(true, us);
    assert Print(Group(alts, End)) == "{" + a + "}";
    assert u + ("{" + a + "}") == u + "{" + a + "}";
  }

  lemma GroupWordText(names: seq<string>, start: nat, e: nat, zero: nat, gcd: nat, sub: string)
    requires start + 1 < e <= |names| && RunInBounds(names, start, e, zero)
    requires gcd == Gcd(names[start], names[e - 1]) > zero && MungedText(names, start, e, gcd, sub)
    ensures |sub| > 0 && WordText(names, start, e, zero,
                                  Spell(true, Quoted(names[start][zero..gcd])) + "{" + sub[..|sub| - 1] + "}")
  {
    var us, alts := Quoted(names[start][zero..gcd]), Members(names, start, e, gcd);
    GroupPrint(us, alts);
    assert sub[..|sub| - 1] == PrintAlts(alts);
  }

  /** The comma after the last alternative becomes the close brace, or goes. */
  lemma TopText(names: seq<string>, lo: nat, hi: nat, text: string, e: nat, flag: bool, result: string)
    requires MungeOk(names, lo, hi, 0) && lo < hi && AltsText(names, lo, hi, 0, text)
    requires Runs(names, lo, e, hi, 0) && flag == (e < hi)
    requires result == if flag then "{" + text + "}" else text
    ensures MungedText(names, lo, hi, 0, result)
  {
    AltsTextIs(names, lo, hi, 0, text);
    if flag {
      var a := Members(names, lo, hi, 0);
      assert Munged(names, lo, hi, 0) == Print(Group(a, End)) == "{" + PrintAlts(a) + "}" + Print(End);
    } else {
      assert Members(names, lo, hi, 0) == Last(WordOf(names, lo, hi, 0));
    }
  }

  lemma Extend(open: string, done: string, left: string, whole: string, subterm: string, left': string, more: bool)
    requires done + left == whole && left == if more then subterm + "," + left' else subterm
    ensures if more then done + subterm + "," + left' == whole else done + subterm + "," == whole + ","
    ensures open + done + subterm + "," == open + (done + subterm + ",")
  {
    if more {
      assert done + (subterm + "," + left') == done + subterm + "," + left';
    }
  }

  lemma Dropped(open: string, whole: string, result: string)
    requires result == open + (whole + ",")
    ensures result[..|result| - 1] == open + whole
  {
  }

  method MungeBraces(names: seq<string>, realStart: nat, realEnd: nat, gcdZero: nat) returns (result: string)
    requires MungeOk(names, realStart, realEnd, gcdZero)
    ensures MungedText(names, realStart, realEnd, gcdZero, result)
    decreases realEnd - realStart, if realStart < realEnd then |names[realStart]| - gcdZero else 0, 2
  {
    if realStart == realEnd {
      result := BackslashQuote(if realStart < |names| then names[realStart][gcdZero..] else names[0]);
      return;
    }
    var flag;
    ghost var whole, first;
    result, flag, whole, first := MungeRuns(names, realStart, realEnd, gcdZero);
    Dropped(if flag then "{" else "", whole, result);
    if gcdZero == 0 {
      result := result[..|result| - 1] + (if flag then "}" else "");
      TopText(names, realStart, realEnd, whole, first, flag, result);
    } else {
      AltsTextIs(names, realStart, realEnd, gcdZero, whole);
    }
  }

  /** The outer loop: run after run of names, each with a comma behind it. */
  method MungeRuns(names: seq<string>, realStart: nat, realEnd: nat, gcdZero: nat)
    returns (result: string, flag: bool, ghost whole: string, ghost first: nat)
    requires realStart < realEnd <= |names| && InBounds(names, realStart, realEnd, gcdZero)
    ensures AltsText(names, realStart, realEnd, gcdZero, whole)
    ensures Runs(names, realStart, first, realEnd, gcdZero) && flag == (gcdZero == 0 && first < realEnd)
    ensures result == (if flag then "{" else "") + (whole + ",")
    decreases realEnd - realStart, |names[realStart]| - gcdZero, 1
  {
    result := "";
    flag := false;
    var start := realStart;
    first := 0;
    whole := AllText(names, realStart, realEnd, gcdZero);
    ghost var done, left := "", whole;
    while start < realEnd
      invariant realStart <= start <= realEnd
      invariant start < realEnd ==> AltsText(names, start, realEnd, gcdZero, left) && done + left == whole
      invariant start == realEnd ==> done == whole + ","
      invariant result == (if flag then "{" else "") + done && (start == realStart ==> done == "")
      invariant start > realStart ==> Runs(names, realStart, first, realEnd, gcdZero)
      invariant flag == (start > realStart && gcdZero == 0 && first < realEnd)
    {
      var gcd, end := FindRun(names, start, realEnd, gcdZero);
      if start == realStart {
        first := end;
      }
      if gcdZero == 0 && start == realStart && end != realEnd {
        result := "{";
        flag := true;
      }
      RunAllowed(names, start, end, realEnd, gcdZero, left);
      var subterm := Subterm(names, start, end, gcdZero, gcd);
      ghost var left' := FirstText(names, start, end, realEnd, gcdZero, left, subterm);
      Extend(if flag then "{" else "", done, left, whole, subterm, left', end < realEnd);
      left := left';
      done := done + subterm + ",";
      result := result + subterm + ",";
      start := end;
    }
  }

  /** The inner loop: how far the names go on sharing more than gcdZero characters, and how many they share. */
  method FindRun(names: seq<string>, start: nat, realEnd: nat, gcdZero: nat) returns (gcd: nat, end: nat)
    requires start < realEnd <= |names|
    ensures Runs(names, start, end, realEnd, gcdZero)
            && (end > start + 1 ==> gcd == Gcd(names[start], names[end - 1]) > gcdZero)
  {
    ghost var goal := RunAhead(names, start, realEnd, gcdZero);
    gcd := |names[start]|;
    end := start + 1;
    while end < realEnd
      invariant start < end <= realEnd
      invariant RunEnd(names, start, end, realEnd, gcdZero) == goal
      invariant end > start + 1 ==> gcd == Gcd(names[start], names[end - 1]) > gcdZero
    {
      var temp := StringGcd(names[start], names[end]);
      if temp <= gcdZero {
        break;
      }
      gcd := temp;
      end := end + 1;
    }
  }

  /** One name, or a prefix and the rest of the names that have it in braces. */
  method Subterm(names: seq<string>, start: nat, end: nat, gcdZero: nat, gcd: nat) returns (subterm: string)
    requires start < end <= |names| && RunInBounds(names, start, end, gcdZero)
    requires end > start + 1 ==> gcd == Gcd(names[start], names[end - 1]) > gcdZero
    ensures WordText(names, start, end, gcdZero, subterm)
    decreases end - start, |names[start]| - gcdZero, 0
  {
    if end == start + 1 {
      SingleText(names, start, gcdZero);
      subterm := BackslashQuote(names[start][gcdZero..]);
    } else {
      var prefix := BackslashQuote(names[start][gcdZero..gcd]);
      var sub := MungeBraces(names, start, end, gcd);
      GroupWordText(names, start, end, gcdZero, gcd, sub);
      subterm := prefix + "{" + sub[..|sub| - 1] + "}";
    }
  }

  // ---- what stands bare in the word ------------------------------------------------------------

  /** The characters that mean something to the shell, but for the braces, commas and backslashes of the word itself. */
  predicate Metacharacter(c: char) {
    c == '|' || c == '&' || c == ';' || c == '<' || c == '>' || c == '(' || c == ')' || c == '$' || c == '`'
    || c == '"' || c == '\'' || c == ' ' || c == '\t' || c == '\n' || c == '*' || c == '?' || c == '[' || c == ']'
    || c == '!' || c == '^'
  }

  /** Wherever one stands a backslash stands before it. */
  predicate Guarded(t: string) {
    forall k :: 0 <= k < |t| && Metacharacter(t[k]) ==> k > 0 && t[k - 1] == '\\'
  }

  lemma GuardedJoin(a: string, b: string)
    requires Guarded(a) && Guarded(b)
    ensures Guarded(a + b)
  {
    forall k | 0 <= k < |a + b| && Metacharacter((a + b)[k]) ensures k > 0 && (a + b)[k - 1] == '\\' {
      if k >= |a| {
        assert Metacharacter(b[k - |a|]);
      }
    }
  }

  lemma {:induction false} WordGuarded(w: Word)
    requires Every(w, Needed)
    ensures Guarded(Print(w))
  {
    match w
    case End =>
    case Char(u, rest) =>
      assert Guarded(UnitText(u));
      WordGuarded(rest);
      GuardedJoin(UnitText(u), Print(rest));
    case Group(alts, rest) =>
      AltsGuarded(alts);
      WordGuarded(rest);
      GuardedJoin("{", PrintAlts(alts));
      GuardedJoin("{" + PrintAlts(alts), "}");
      GuardedJoin("{" + PrintAlts(alts) + "}", Print(rest));
  }

  lemma {:induction false} AltsGuarded(a: Alts)
    requires EveryAlt(a, Needed)
    ensures Guarded(PrintAlts(a))
  {
    WordGuarded(a.w);
    if a.Next? {
      AltsGuarded(a.more);
      GuardedJoin(Print(a.w), ",");
      GuardedJoin(Print(a.w) + ",", PrintAlts(a.more));
    }
  }

  /** In a name quoted as one piece every special character has its backslash, and a # at its start. */
  lemma QuotedGuarded(s: string)
    ensures Guarded(Spell(true, Quoted(s)))
    ensures s != "" && (Metacharacter(s[0]) || s[0] in "{,}\\#") ==> Spell(true, Quoted(s))[0] == '\\'
  {
    var us := Quoted(s);
    UnitsGuarded(us);
    if s != "" {
      assert us[0].c == s[0];
    }
  }

  lemma {:induction false} UnitsGuarded(us: seq<Unit>)
    requires forall k :: 0 <= k < |us| ==> us[k].Escaped? || (us[k].Plain? && !Special(us[k].c))
    ensures Guarded(Spell(true, us))
  {
    if us != [] {
      assert Guarded(UnitText(us[0]));
      UnitsGuarded(us[1..]);
      GuardedJoin(UnitText(us[0]), Spell(true, us[1..]));
    }
  }

  // ---- the round trip -------------------------------------------------------------------------

  lemma NeededExpansion(w: Word, host: Host)
    requires Ok(w, ANY) && Every(w, Needed)
    ensures Every(w, Simple) && BraceExpand(Print(w), host) == SpellAll(true, Meaning(w))
  {
    EveryWeaker(w, Needed, Simple);
    AnyHost(w, ANY, host);
    ExpansionIsProduct(w, host);
  }

  lemma TopStands(names: seq<string>, lo: nat, hi: nat)
    requires lo < hi <= |names| && InBounds(names, lo, hi, 0) && CStrings(names)
    ensures StandsFor(Top(names, lo, hi), Backs(names, lo, hi, 0))
  {
    if RunEnd(names, lo, lo + 1, hi, 0) == hi {
      WordMeans(names, lo, hi, 0);
      assert RunBacks(names, lo, hi, 0) + [] == RunBacks(names, lo, hi, 0);
    } else {
      MembersMean(names, lo, hi, 0);
      ProductUnit(AltsMeaning(Members(names, lo, hi, 0)));
    }
  }

  /**
   What brace expansion makes of it, backslashes taken out: each name, in order, if and only if
   in every run all names share what the first and the last share.
   */
  lemma RoundTrip(names: seq<string>, lo: nat, hi: nat, host: Host)
    requires lo < hi <= |names| && InBounds(names, lo, hi, 0) && CStrings(names)
    ensures var r := BraceExpand(Munged(names, lo, hi, 0), host);
            |r| == hi - lo && (forall k :: 0 <= k < |r| ==> Dequoted(r[k]) == Backs(names, lo, hi, 0)[k])
            && ((forall k :: 0 <= k < |r| ==> Dequoted(r[k]) == names[lo + k]) <==> RunsShare(names, lo, hi, 0))
  {
    var w := Top(names, lo, hi);
    TopStands(names, lo, hi);
    NeededExpansion(w, host);
    MeaningHas(w, Simple);
    var m, r, back := Meaning(w), BraceExpand(Munged(names, lo, hi, 0), host), Backs(names, lo, hi, 0);
    assert r == SpellAll(true, m) && SpellAll(false, m) == back;
    forall k | 0 <= k < |m| ensures Dequoted(r[k]) == back[k] {
      assert Has(m[k], Simple);
      DequotedSpell(m[k]);
    }
    BackExactly(names, lo, hi, 0);
    LongEnough(names, lo, hi, 0);
    WholeRests(names, lo, hi);
    assert (forall k :: 0 <= k < |r| ==> Dequoted(r[k]) == names[lo..hi][k]) <==> back == names[lo..hi];
  }

  lemma WholeRests(names: seq<string>, lo: nat, hi: nat)
    requires lo <= hi <= |names|
    ensures Rests(names, lo, hi, 0) == names[lo..hi]
  {
    forall i | 0 <= i < hi - lo ensures Rests(names, lo, hi, 0)[i] == names[lo..hi][i] {
      assert Rests(names, lo, hi, 0)[lo + i - lo] == names[lo + i][0..] == names[lo + i];
    }
  }

  predicate NeedsNoQuoting(s: string) {
    forall k :: 0 <= k < |s| ==> !Special(s[k]) && s[k] != '#'
  }

  lemma {:induction false} PlainSpell(us: seq<Unit>)
    requires Has(us, Needed) && NeedsNoQuoting(Spell(false, us))
    ensures Spell(true, us) == Spell(false, us)
  {
    if us != [] {
      var s := Spell(false, us);
      assert s[0] == us[0].c && s[1..] == Spell(false, us[1..]);
      assert Needed(us[0]);
      PlainSpell(us[1..]);
    }
  }

  lemma {:induction false} DequotedPlain(s: string)
    requires NeedsNoQuoting(s)
    ensures Dequoted(s) == s
  {
    if s != "" {
      DequotedPlain(s[1..]);
    }
  }

  /** Names that need no quoting come back exactly, if and only if they come back. */
  lemma PlainRoundTrip(names: seq<string>, lo: nat, hi: nat, host: Host)
    requires lo < hi <= |names| && InBounds(names, lo, hi, 0) && CStrings(names)
    requires forall k :: lo <= k < hi ==> NeedsNoQuoting(names[k])
    ensures BraceExpand(Munged(names, lo, hi, 0), host) == names[lo..hi] <==> RunsShare(names, lo, hi, 0)
  {
    var r := BraceExpand(Munged(names, lo, hi, 0), host);
    RoundTrip(names, lo, hi, host);
    if RunsShare(names, lo, hi, 0) {
      PlainComesBack(names, lo, hi, host);
    } else if r == names[lo..hi] {
      forall k | 0 <= k < |r| ensures Dequoted(r[k]) == names[lo + k] {
        DequotedPlain(names[lo + k]);
      }
    }
  }

  lemma PlainComesBack(names: seq<string>, lo: nat, hi: nat, host: Host)
    requires lo < hi <= |names| && InBounds(names, lo, hi, 0) && CStrings(names) && RunsShare(names, lo, hi, 0)
    requires forall k :: lo <= k < hi ==> NeedsNoQuoting(names[k])
    ensures BraceExpand(Munged(names, lo, hi, 0), host) == names[lo..hi]
  {
    var w := Top(names, lo, hi);
    TopStands(names, lo, hi);
    BackExactly(names, lo, hi, 0);
    WholeRests(names, lo, hi);
    NeededExpansion(w, host);
    MeaningHas(w, Needed);
    var m := Meaning(w);
    forall k | 0 <= k < |m| ensures SpellAll(true, m)[k] == names[lo + k] {
      assert Has(m[k], Needed);
      assert SpellAll(false, m)[k] == Backs(names, lo, hi, 0)[k] == names[lo..hi][k];
      assert NeedsNoQuoting(names[lo + k]);
      PlainSpell(m[k]);
    }
  }

  // ---- sorted names -----------------------------------------------------------------------------

  /** a comes before b, or is b, in the order of a dictionary. */
  predicate Before(a: string, b: string) {
    a == "" || (b != "" && (a[0] < b[0] || (a[0] == b[0] && Before(a[1..], b[1..]))))
  }

  ghost predicate Sorted(names: seq<string>, lo: nat, hi: nat) {
    lo <= hi <= |names| && forall i, j :: lo <= i <= j < hi ==> Before(names[i], names[j])
  }

  lemma {:induction false} BetweenShares(a: string, b: string, c: string)
    requires Before(a, b) && Before(b, c)
    ensures Gcd(a, c) <= Gcd(a, b)
  {
    if a != "" && b != "" && c != "" && a[0] == c[0] {
      BetweenShares(a[1..], b[1..], c[1..]);
    }
  }

  lemma SortedWithin(names: seq<string>, lo: nat, hi: nat, lo': nat, hi': nat)
    requires Sorted(names, lo, hi) && lo <= lo' <= hi' <= hi
    ensures Sorted(names, lo', hi')
  {
  }

  /** In a sorted list names share as much with all names between as with a later name. */
  lemma SortedRun(names: seq<string>, lo: nat, e: nat)
    requires Sorted(names, lo, e) && lo < e
    ensures forall k :: lo <= k < e ==> Gcd(names[lo], names[e - 1]) <= Gcd(names[lo], names[k])
  {
    forall k | lo <= k < e ensures Gcd(names[lo], names[e - 1]) <= Gcd(names[lo], names[k]) {
      BetweenShares(names[lo], names[k], names[e - 1]);
    }
  }

  lemma {:induction false} SortedShares(names: seq<string>, lo: nat, hi: nat, zero: nat)
    requires Sorted(names, lo, hi)
    ensures RunsShare(names, lo, hi, zero)
    decreases hi - lo, if lo < hi then |names[lo]| - zero else 0, 1
  {
    if lo < hi {
      var e := RunEnd(names, lo, lo + 1, hi, zero);
      SortedWithin(names, lo, hi, lo, e);
      SortedWithin(names, lo, hi, e, hi);
      SortedRunShares(names, lo, e, zero);
      SortedShares(names, e, hi, zero);
    }
  }

  lemma {:induction false} SortedRunShares(names: seq<string>, start: nat, e: nat, zero: nat)
    requires start < e && Sorted(names, start, e) && (e > start + 1 ==> Gcd(names[start], names[e - 1]) > zero)
    ensures RunShares(names, start, e, zero)
    decreases e - start, |names[start]| - zero, 0
  {
    if e > start + 1 {
      SortedRun(names, start, e);
      SortedShares(names, start, e, Gcd(names[start], names[e - 1]));
    }
  }

  /** Completing a word to several names and expanding the result gives the names back, in order. */
  lemma CompletionRoundTrip(names: seq<string>, host: Host)
    requires |names| > 1 && Sorted(names, 1, |names|) && CStrings(names)
    ensures InBounds(names, 1, |names|, 0)
    ensures var r := BraceExpand(Munged(names, 1, |names|, 0), host);
            |r| == |names| - 1 && (forall k :: 0 <= k < |r| ==> Dequoted(r[k]) == names[k + 1])
            && ((forall k :: 1 <= k < |names| ==> NeedsNoQuoting(names[k])) ==> r == names[1..])
  {
    SortedShares(names, 1, |names|, 0);
    SharingInBounds(names, 1, |names|, 0);
    RoundTrip(names, 1, |names|, host);
    if forall k :: 1 <= k < |names| ==> NeedsNoQuoting(names[k]) {
      PlainRoundTrip(names, 1, |names|, host);
    }
  }

  /** In an order that puts aBx between abX and abY, as one that disregards case does, aBx is lost. */
  lemma OtherOrderFails(host: Host)
    ensures var names := ["a", "abX", "aBx", "abY"];
            InBounds(names, 1, 4, 0) && !RunsShare(names, 1, 4, 0)
            && var r := BraceExpand(Munged(names, 1, 4, 0), host); |r| == 3 && Dequoted(r[1]) == "abx"
  {
    var names := ["a", "abX", "aBx", "abY"];
    OtherOrderRuns(names);
    OtherOrderBacks(names);
    RoundTrip(names, 1, 4, host);
  }

  lemma OtherOrderRuns(names: seq<string>)
    requires names == ["a", "abX", "aBx", "abY"]
    ensures Gcd(names[1], names[2]) == 1 && Gcd(names[1], names[3]) == 2 && Gcd(names[2], names[3]) == 1
    ensures RunEnd(names, 1, 2, 4, 0) == 4
    ensures RunEnd(names, 1, 2, 4, 2) == 2 && RunEnd(names, 2, 3, 4, 2) == 3 && RunEnd(names, 3, 4, 4, 2) == 4
  {
    var a, b, c := names[1], names[2], names[3];
    assert a[1..] == "bX" && b[1..] == "Bx" && c[1..] == "bY" && a[1..][1..] == "X" && c[1..][1..] == "Y";
    assert Gcd(a[1..], b[1..]) == 0 && Gcd(b[1..], c[1..]) == 0;
    assert Gcd(a[1..][1..], c[1..][1..]) == 0 && Gcd(a[1..], c[1..]) == 1;
    assert RunEnd(names, 1, 4, 4, 0) == 4 && RunEnd(names, 1, 3, 4, 0) == 4;
  }

  lemma SingleBack(names: seq<string>, k: nat, hi: nat, zero: nat)
    requires k < hi <= |names| && RunEnd(names, k, k + 1, hi, zero) == k + 1
    requires zero <= |names[k]| && InBounds(names, k + 1, hi, zero)
    ensures InBounds(names, k, hi, zero)
    ensures Backs(names, k, hi, zero) == [names[k][zero..]] + Backs(names, k + 1, hi, zero)
  {
  }

  lemma OtherOrderBacks(names: seq<string>)
    requires names == ["a", "abX", "aBx", "abY"]
    ensures InBounds(names, 1, 4, 0) && !RunsShare(names, 1, 4, 0) && Backs(names, 1, 4, 0) == ["abX", "abx", "abY"]
  {
    OtherOrderRuns(names);
    SingleBack(names, 3, 4, 2);
    SingleBack(names, 2, 4, 2);
    SingleBack(names, 1, 4, 2);
    assert names[1][2..] == "X" && names[2][2..] == "x" && names[3][2..] == "Y";
    assert Backs(names, 4, 4, 2) == [] && Backs(names, 1, 4, 2) == ["X", "x", "Y"];
    assert RunInBounds(names, 1, 4, 0) && !RunShares(names, 1, 4, 0);
    assert InBounds(names, 4, 4, 0) && Backs(names, 4, 4, 0) == [];
    assert names[1][0..2] == "ab" && RunBacks(names, 1, 4, 0) == Prefixed("ab", ["X", "x", "Y"]);
    var r := Prefixed("ab", ["X", "x", "Y"]);
    assert r[0] == "ab" + "X" == "abX" && r[1] == "ab" + "x" == "abx" && r[2] == "ab" + "Y" == "abY";
    assert Backs(names, 1, 4, 0) == RunBacks(names, 1, 4, 0) + [];
  }

  /** No metacharacter of the shell stands bare in the word that is offered. */
  lemma CompletionGuarded(names: seq<string>)
    requires |names| > 0 && InBounds(names, 1, |names|, 0) && CStrings(names)
    ensures Guarded(if |names| == 1 then Spell(true, Quoted(names[0])) else Munged(names, 1, |names|, 0))
  {
    if |names| == 1 {
      QuotedGuarded(names[0]);
    } else {
      TopStands(names, 1, |names|);
      WordGuarded(Top(names, 1, |names|));
    }
  }

  /** Completion: names[0] is what the names after it have in common. */
  method HackBracesCompletion(names: seq<string>) returns (word: string)
    requires |names| > 0 && InBounds(names, 1, |names|, 0)
    ensures word == if |names| == 1 then Spell(true, Quoted(names[0])) else Munged(names, 1, |names|, 0)
  {
    word := MungeBraces(names, 1, |names|, 0);
  }
}
