/**
 Brace expansion (bin/bash/braces.c).  The functions say what each operation returns; the
 methods are the loops, proved to return it.  A text is a C string without its terminator:
 the character at its end reads as NUL.
 */
module Braces {
  import opened Options
  import opened CText

  /** Code outside brace expansion: {a..b} sequences, and the end of $(...). */
  datatype Host = Host(sequence: string -> Option<seq<string>>, substitution: (string, nat) -> nat)

  predicate Blank(c: char) {
    c == NUL || c == ' ' || c == '\t' || c == '\n'
  }

  /** Where scanning resumes after the substitution that opens at i. */
  function AfterSubstitution(text: string, i: nat, host: Host): (j: nat)
    requires i < |text|
    ensures i < j <= |text|
  {
    var j := host.substitution(text, i) + 1;
    if j > |text| then |text| else if j <= i then i + 1 else j
  }

  /** The scanner's variables. */
  datatype Scan = Scan(i: nat, quoted: char, level: nat, commas: nat, passNext: bool)

  datatype Move = Stop | Go(s: Scan)

  predicate OpensSubstitution(text: string, i: nat, quoted: char)
    requires i < |text|
  {
    if quoted == '"' then text[i] == '$' && At(text, i + 1) == '('
    else quoted == NUL && (text[i] == '$' || text[i] == '<' || text[i] == '>') && At(text, i + 1) == '('
  }

  /** An open brace between blanks, or before `}` at the start of a word, is ordinary. */
  predicate LoneBrace(text: string, i: nat)
    requires i < |text|
  {
    text[i] == '{' && (i == 0 || Blank(text[i - 1])) && (Blank(At(text, i + 1)) || At(text, i + 1) == '}')
  }

  /** One turn of the loop in brace_gobbler. */
  function Move1(text: string, s: Scan, satisfy: char, host: Host): (m: Move)
    requires s.i < |text|
    ensures m.Go? ==> s.i < m.s.i <= |text|
  {
    var c := text[s.i];
    if s.passNext then Go(s.(passNext := false, i := s.i + 1))
    else if c == '\\' && (s.quoted == NUL || s.quoted == '"' || s.quoted == '`') then
      Go(s.(passNext := true, i := s.i + 1))
    else if c == '$' && At(text, s.i + 1) == '{' && s.quoted != '\'' then
      Go(s.(passNext := true, i := s.i + 1, level := if s.quoted == NUL then s.level + 1 else s.level))
    else if s.quoted != NUL then
      var quoted := if c == s.quoted then NUL else s.quoted;
      if quoted == '"' && OpensSubstitution(text, s.i, quoted) then
        Go(s.(i := AfterSubstitution(text, s.i, host)))
      else Go(s.(quoted := quoted, i := s.i + 1))
    else if c == '"' || c == '\'' || c == '`' then Go(s.(quoted := c, i := s.i + 1))
    else if OpensSubstitution(text, s.i, NUL) then Go(s.(i := AfterSubstitution(text, s.i, host)))
    else if c == satisfy && s.level == 0 && s.commas > 0 then
      if LoneBrace(text, s.i) then Go(s.(i := s.i + 1)) else Stop
    else if c == '{' then Go(s.(level := s.level + 1, i := s.i + 1))
    else if c == '}' && s.level > 0 then Go(s.(level := s.level - 1, i := s.i + 1))
    else if satisfy == '}' && c == ',' && s.level == 0 then Go(s.(commas := s.commas + 1, i := s.i + 1))
    else if satisfy == '}' && c == '.' && At(text, s.i + 1) == '.' && At(text, s.i + 2) != satisfy && s.level == 0 then
      Go(s.(commas := s.commas + 1, i := s.i + 1))
    else Go(s.(i := s.i + 1))
  }

  /** Where the scanner stops; |text| if it finds nothing. */
  function Gobble(text: string, s: Scan, satisfy: char, host: Host): (j: nat)
    requires s.i <= |text|
    ensures s.i <= j <= |text|
    decreases |text| - s.i
  {
    if s.i == |text| then |text|
    else
      var m := Move1(text, s, satisfy, host);
      if m.Stop? then s.i else Gobble(text, m.s, satisfy, host)
  }

  function Start(i: nat, satisfy: char): Scan {
    Scan(i, NUL, 0, if satisfy == '}' then 0 else 1, false)
  }

  method BraceGobbler(text: string, index: nat, satisfy: char, host: Host) returns (i: nat, found: bool)
    requires index <= |text|
    ensures i == Gobble(text, Start(index, satisfy), satisfy, host) && found == (i < |text|)
  {
    var level, quoted, passNext := 0, NUL, false;
    var commas := if satisfy == '}' then 0 else 1;
    i := index;
    while i < |text|
      invariant index <= i <= |text| && level >= 0 && commas >= 0
      invariant Gobble(text, Scan(i, quoted, level, commas, passNext), satisfy, host)
             == Gobble(text, Start(index, satisfy), satisfy, host)
    {
      var c := text[i];
      if passNext {
        passNext := false;
        i := i + 1;
        continue;
      }
      if c == '\\' && (quoted == NUL || quoted == '"' || quoted == '`') {
        passNext := true;
        i := i + 1;
        continue;
      }
      if c == '$' && At(text, i + 1) == '{' && quoted != '\'' {
        passNext := true;
        i := i + 1;
        if quoted == NUL {
          level := level + 1;
        }
        continue;
      }
      if quoted != NUL {
        if c == quoted {
          quoted := NUL;
        }
        if quoted == '"' && OpensSubstitution(text, i, quoted) {
          i := AfterSubstitution(text, i, host);
        } else {
          i := i + 1;
        }
        continue;
      }
      if c == '"' || c == '\'' || c == '`' {
        quoted := c;
        i := i + 1;
        continue;
      }
      if OpensSubstitution(text, i, NUL) {
        i := AfterSubstitution(text, i, host);
        continue;
      }
      if c == satisfy && level == 0 && commas > 0 {
        if LoneBrace(text, i) {
          i := i + 1;
          continue;
        }
        break;
      }
      if c == '{' {
        level := level + 1;
      } else if c == '}' && level > 0 {
        level := level - 1;
      } else if satisfy == '}' && c == ',' && level == 0 {
        commas := commas + 1;
      } else if satisfy == '}' && c == '.' && At(text, i + 1) == '.' && At(text, i + 2) != satisfy && level == 0 {
        commas := commas + 1;
      }
      i := i + 1;
    }
    found := i < |text|;
  }

  // ---- string vectors -----------------------------------------------------------------

  function Prefixed<T>(x: seq<T>, b: seq<seq<T>>): (r: seq<seq<T>>)
    ensures |r| == |b| && forall j :: 0 <= j < |b| ==> r[j] == x + b[j]
  {
    seq(|b|, j requires 0 <= j < |b| => x + b[j])
  }

  /** Every string of a with every string of b, those of a varying slowest. */
  function Product<T>(a: seq<seq<T>>, b: seq<seq<T>>): seq<seq<T>> {
    if a == [] then [] else Prefixed(a[0], b) + Product(a[1..], b)
  }

  lemma {:induction false} ProductSize<T>(a: seq<seq<T>>, b: seq<seq<T>>)
    ensures |Product(a, b)| == |a| * |b|
  {
    if a != [] {
      ProductSize(a[1..], b);
      assert |a| * |b| == |b| + (|a| - 1) * |b|;
    }
  }

  lemma {:induction false} ProductAt<T>(a: seq<seq<T>>, b: seq<seq<T>>, i: nat, j: nat)
    requires i < |a| && j < |b|
    ensures i * |b| + j < |Product(a, b)| && Product(a, b)[i * |b| + j] == a[i] + b[j]
  {
    if i > 0 {
      ProductAt(a[1..], b, i - 1, j);
      assert i * |b| + j == |b| + ((i - 1) * |b| + j);
    }
  }

  lemma {:induction false} ProductOfAppend<T>(a: seq<seq<T>>, a': seq<seq<T>>, b: seq<seq<T>>)
    ensures Product(a + a', b) == Product(a, b) + Product(a', b)
  {
    if a == [] {
      assert a + a' == a';
    } else {
      assert (a + a')[1..] == a[1..] + a';
      ProductOfAppend(a[1..], a', b);
    }
  }

  lemma PrefixedNothing<T>(b: seq<seq<T>>)
    ensures Prefixed([], b) == b
  {
    forall j | 0 <= j < |b| ensures Prefixed([], b)[j] == b[j] {
      assert [] + b[j] == b[j];
    }
  }

  lemma PrefixedTwice<T>(x: seq<T>, y: seq<T>, b: seq<seq<T>>)
    ensures Prefixed(x, Prefixed(y, b)) == Prefixed(x + y, b)
  {
    forall j | 0 <= j < |b| ensures Prefixed(x, Prefixed(y, b))[j] == Prefixed(x + y, b)[j] {
      assert x + (y + b[j]) == (x + y) + b[j];
    }
  }

  lemma {:induction false} ProductUnit<T>(a: seq<seq<T>>)
    ensures Product(a, [[]]) == a && Product([[]], a) == a
  {
    assert Product([[]], a) == Prefixed([], a) + Product([[]][1..], a);
    PrefixedNothing(a);
    if a != [] {
      ProductUnit(a[1..]);
      assert a[0] + [] == a[0];
      assert Prefixed(a[0], [[]]) == [a[0]];
    }
  }

  lemma {:induction false} PrefixedProduct<T>(x: seq<T>, b: seq<seq<T>>, c: seq<seq<T>>)
    ensures Prefixed(x, Product(b, c)) == Product(Prefixed(x, b), c)
  {
    if b != [] {
      PrefixedProduct(x, b[1..], c);
      assert Prefixed(x, b)[1..] == Prefixed(x, b[1..]);
      PrefixedTwice(x, b[0], c);
      assert Prefixed(x, Product(b, c)) == Prefixed(x, Prefixed(b[0], c)) + Prefixed(x, Product(b[1..], c));
    }
  }

  lemma {:induction false} ProductAssociates<T>(a: seq<seq<T>>, b: seq<seq<T>>, c: seq<seq<T>>)
    ensures Product(Product(a, b), c) == Product(a, Product(b, c))
  {
    if a != [] {
      ProductAssociates(a[1..], b, c);
      ProductOfAppend(Prefixed(a[0], b), Product(a[1..], b), c);
      PrefixedProduct(a[0], b, c);
    }
  }

  method ArrayConcat(arr1: seq<string>, arr2: seq<string>) returns (result: seq<string>)
    ensures result == Product(arr1, arr2)
  {
    ProductUnit(arr1);
    ProductUnit(arr2);
    if |arr1| == 1 && arr1[0] == "" {
      assert arr1 == [""];
      return arr2;
    }
    if |arr2| == 1 && arr2[0] == "" {
      assert arr2 == [""];
      return arr1;
    }
    result := [];
    var i := 0;
    while i < |arr1|
      invariant 0 <= i <= |arr1|
      invariant result == Product(arr1[..i], arr2)
    {
      ghost var before, row := result, Prefixed(arr1[i], arr2);
      var j := 0;
      while j < |arr2|
        invariant 0 <= j <= |arr2|
        invariant result == before + row[..j]
      {
        result := result + [arr1[i] + arr2[j]];
        j := j + 1;
      }
      assert row[..j] == row;
      NextRow(arr1, arr2, i);
      i := i + 1;
    }
    assert arr1[..i] == arr1;
  }

  lemma NextRow<T>(a: seq<seq<T>>, b: seq<seq<T>>, i: nat)
    requires i < |a|
    ensures Product(a[..i + 1], b) == Product(a[..i], b) + Prefixed(a[i], b)
  {
    assert a[..i + 1] == a[..i] + [a[i]];
    ProductOfAppend(a[..i], [a[i]], b);
    assert Product([a[i]], b) == Prefixed(a[i], b) + Product([a[i]][1..], b);
  }

  // ---- expansion -----------------------------------------------------------------------

  /** The first open brace from i on that has a matching close brace; |text| if there is none. */
  function FindOpen(text: string, i: nat, host: Host): (j: nat)
    requires i <= |text|
    ensures i <= j <= |text|
    ensures j < |text| ==> Gobble(text, Start(j + 1, '}'), '}', host) < |text|
    decreases |text| - i
  {
    var open := Gobble(text, Start(i, '{'), '{', host);
    if open == |text| then open
    else if Gobble(text, Start(open + 1, '}'), '}', host) < |text| then open
    else FindOpen(text, open + 1, host)
  }

  /** Is there a comma from j on that no backslash precedes? */
  predicate HasComma(amble: string, j: nat)
    decreases |amble| - j
  {
    j < |amble| && (amble[j] == ',' || HasComma(amble, if amble[j] == '\\' then j + 2 else j + 1))
  }

  /** What the text between braces contributes; None leaves the whole text unexpanded. */
  function Tack(text: string, open: nat, close: nat, host: Host): Option<seq<string>>
    requires open < close < |text|
    decreases close - open, 0
  {
    var amble := text[open + 1..close];
    if HasComma(amble, 0) then Some(ExpandAmble(amble, 0, host))
    else if host.sequence(amble).Some? then host.sequence(amble)
    else if close + 1 < |text| then Some([text[open..close + 1]])
    else None
  }

  function BraceExpand(text: string, host: Host): seq<string>
    decreases |text|, 1
  {
    var open := FindOpen(text, 0, host);
    if open == |text| then [text]
    else ExpandBetween(text, open, Gobble(text, Start(open + 1, '}'), '}', host), host)
  }

  /** Preamble, amble and postamble put together. */
  function ExpandBetween(text: string, open: nat, close: nat, host: Host): seq<string>
    requires open < close < |text|
    decreases |text|, 0
  {
    var tack := Tack(text, open, close, host);
    if tack.None? then [text]
    else
      var result := Product([text[..open]], tack.value);
      if close + 1 < |text| then Product(result, BraceExpand(text[close + 1..], host)) else result
  }

  /** The alternatives from start on, split at commas outside inner braces, each expanded. */
  function ExpandAmble(text: string, start: nat, host: Host): seq<string>
    requires start <= |text|
    decreases |text|, 2, |text| - start
  {
    var i := Gobble(text, Start(start, ','), ',', host);
    BraceExpand(text[start..i], host) + (if i < |text| then ExpandAmble(text, i + 1, host) else [])
  }

  // What the expander's parts have come to.

  /** r is what BraceExpand makes of the text. */
  ghost predicate Expands(text: string, r: seq<string>, host: Host) {
    r == BraceExpand(text, host)
  }

  /** The alternatives from start on expand to m. */
  ghost predicate Amble(text: string, start: nat, m: seq<string>, host: Host) {
    start <= |text| && m == ExpandAmble(text, start, host)
  }

  /** i and close are the first open brace that is closed, and its close brace. */
  ghost predicate Braced(text: string, i: nat, close: nat, host: Host) {
    i == FindOpen(text, 0, host) && i <= |text|
    && (i < |text| ==> i < close < |text| && close == Gobble(text, Start(i + 1, '}'), '}', host))
  }

  /** `i` is where scanning from `start` stops. */
  ghost predicate Stops(text: string, start: nat, satisfy: char, i: nat, host: Host) {
    start <= i <= |text| && i == Gobble(text, Start(start, satisfy), satisfy, host)
  }

  method Find(text: string, start: nat, satisfy: char, host: Host) returns (i: nat, found: bool)
    requires start <= |text|
    ensures Stops(text, start, satisfy, i, host) && found == (i < |text|)
  {
    i, found := BraceGobbler(text, start, satisfy, host);
  }

  /** The loop that looks for an open brace with a matching close brace. */
  method FindBraces(text: string, host: Host) returns (i: nat, close: nat)
    ensures Braced(text, i, close, host)
  {
    var start := 0;
    while true
      invariant start <= |text| && FindOpen(text, start, host) == FindOpen(text, 0, host)
      decreases |text| - start
    {
      var found, closed;
      close := 0;
      i, found := Find(text, start, '{', host);
      if found {
        close, closed := Find(text, i + 1, '}', host);
      }
      if !found || closed {
        return;
      }
      start := i + 1;
    }
  }

  lemma Unexpanded(text: string, i: nat, close: nat, host: Host)
    requires Braced(text, i, close, host)
    requires i < |text| ==>
               close + 1 == |text| && !HasComma(text[i + 1..close], 0) && host.sequence(text[i + 1..close]).None?
    ensures Expands(text, [text], host)
  {
    if i < |text| {
      assert ExpandBetween(text, i, close, host) == [text];
    }
  }

  lemma TackIs(text: string, i: nat, close: nat, tack: seq<string>, host: Host)
    requires i < close < |text|
    requires var amble := text[i + 1..close];
             if HasComma(amble, 0) then Amble(amble, 0, tack, host)
             else if host.sequence(amble).Some? then tack == host.sequence(amble).value
             else close + 1 < |text| && tack == [text[i..close + 1]]
    ensures Tack(text, i, close, host) == Some(tack)
  {
  }

  /** The three parts of a text put together. */
  lemma Assembled(text: string, i: nat, close: nat, tack: seq<string>, post: seq<string>, result: seq<string>,
                  host: Host)
    requires Braced(text, i, close, host) && i < |text| && Tack(text, i, close, host) == Some(tack)
    requires close + 1 < |text| ==> Expands(text[close + 1..], post, host)
    requires result == if close + 1 < |text| then Product(Product([text[..i]], tack), post)
             else Product([text[..i]], tack)
    ensures Expands(text, result, host)
  {
    assert result == ExpandBetween(text, i, close, host);
  }

  method ExpandText(text: string, host: Host) returns (result: seq<string>)
    ensures Expands(text, result, host)
    decreases |text|, 1
  {
    var i, close := FindBraces(text, host);
    if i == |text| {
      Unexpanded(text, i, close, host);
      return [text];
    }
    var amble := text[i + 1..close];
    var comma := FindComma(amble);
    var tack;
    if comma {
      tack := ExpandAlternatives(amble, host);
    } else {
      var sequence := host.sequence(amble);
      if sequence.Some? {
        tack := sequence.value;
      } else if close + 1 < |text| {
        tack := [text[i..close + 1]];
      } else {
        Unexpanded(text, i, close, host);
        return [text];
      }
    }
    result := ArrayConcat([text[..i]], tack);
    var post := [];
    if close + 1 < |text| {
      post := ExpandText(text[close + 1..], host);
      result := ArrayConcat(result, post);
    }
    TackIs(text, i, close, tack, host);
    Assembled(text, i, close, tack, post, result, host);
  }

  method FindComma(amble: string) returns (found: bool)
    ensures found == HasComma(amble, 0)
  {
    var j := 0;
    while j < |amble|
      invariant 0 <= j && HasComma(amble, j) == HasComma(amble, 0)
      decreases |amble| - j
    {
      if amble[j] == '\\' {
        j := j + 2;
        continue;
      }
      if amble[j] == ',' {
        return true;
      }
      j := j + 1;
    }
    found := false;
  }

  /** The first of the alternatives from start on, and what is left. */
  lemma NextAlternative(text: string, start: nat, i: nat, left: seq<string>, partial: seq<string>, host: Host)
    returns (left': seq<string>)
    requires Amble(text, start, left, host) && Stops(text, start, ',', i, host)
    requires Expands(text[start..i], partial, host)
    ensures left == partial + left' && if i < |text| then Amble(text, i + 1, left', host) else left' == []
    ensures forall done: seq<string> :: done + left == (done + partial) + left'
  {
    if i < |text| {
      left' := ExpandAmble(text, i + 1, host);
    } else {
      left' := [];
    }
    assert left == partial + left';
  }

  lemma AllAlternatives(text: string, host: Host) returns (all: seq<string>)
    ensures Amble(text, 0, all, host)
  {
    all := ExpandAmble(text, 0, host);
  }

  method ExpandAlternatives(text: string, host: Host) returns (result: seq<string>)
    ensures Amble(text, 0, result, host)
    decreases |text|, 2
  {
    result := [];
    var start, more := 0, true;
    ghost var all := AllAlternatives(text, host);
    ghost var left := all;
    while more
      invariant more ==> start <= |text| && Amble(text, start, left, host)
      invariant result + left == all && (!more ==> left == [])
      decreases more, |text| - start
    {
      var i;
      i, more := Find(text, start, ',', host);
      var partial := ExpandText(text[start..i], host);
      ghost var left' := NextAlternative(text, start, i, left, partial, host);
      result := result + partial;
      left := left';
      start := i + 1;
    }
    assert result + [] == result;
  }

  /** brace_expand. */
  method ExpandBraces(text: string, host: Host) returns (result: seq<string>)
    ensures result == BraceExpand(text, host)
  {
    result := ExpandText(text, host);
  }
}
