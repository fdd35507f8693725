/**
 What brace expansion leaves alone, and what it makes of a sequence {a..b}.
 */
module BraceLaws {
  import opened Options
  import opened CText
  import opened Folding
  import opened Braces
  import opened BraceCorrect

  // ---- texts with nothing to expand ----------------------------------------------------------

  predicate Blankish(c: char) {
    c == ' ' || c == '\t' || c == '\n'
  }

  /** The open brace at k stands between blanks, or in front of a close brace at the start of a word. */
  predicate Alone(text: string, k: nat)
    requires k < |text|
  {
    (k == 0 || Blankish(text[k - 1])) && (k + 1 == |text| || Blankish(text[k + 1]) || text[k + 1] == '}')
  }

  /** A character that is not there is not found, nor an open brace that stands alone. */
  lemma {:induction false} NeverFound(text: string, s: Scan, satisfy: char, host: Host)
    requires s.i <= |text|
    requires forall k :: s.i <= k < |text| && text[k] == satisfy ==> satisfy == '{' && Alone(text, k)
    ensures Gobble(text, s, satisfy, host) == |text|
    decreases |text| - s.i
  {
    if s.i < |text| {
      var m := Move1(text, s, satisfy, host);
      if m.Go? {
        NeverFound(text, m.s, satisfy, host);
      }
    }
  }

  /** Neither a comma nor a .. that something but } follows. */
  predicate NoSeparator(text: string) {
    forall k :: 0 <= k < |text| ==>
      text[k] != ','
      && (text[k] == '.' && k + 1 < |text| && text[k + 1] == '.' ==> k + 2 < |text| && text[k + 2] == '}')
  }

  /** Without one no close brace closes a group. */
  lemma {:induction false} NeverClosed(text: string, s: Scan, host: Host)
    requires s.i <= |text| && s.commas == 0 && NoSeparator(text)
    ensures Gobble(text, s, '}', host) == |text|
    decreases |text| - s.i
  {
    if s.i < |text| {
      var m := Move1(text, s, '}', host);
      assert text[s.i] != ',' && (text[s.i] == '.' && At(text, s.i + 1) == '.' ==> At(text, s.i + 2) == '}');
      assert m.Go? && m.s.commas == 0;
      NeverClosed(text, m.s, host);
    }
  }

  lemma {:induction false} NothingOpens(text: string, i: nat, host: Host)
    requires i <= |text|
    requires NoSeparator(text) || (forall k :: 0 <= k < |text| ==> text[k] != '}')
             || forall k :: 0 <= k < |text| && text[k] == '{' ==> Alone(text, k)
    ensures FindOpen(text, i, host) == |text|
    decreases |text| - i
  {
    var open := Gobble(text, Start(i, '{'), '{', host);
    if NoSeparator(text) || forall k :: 0 <= k < |text| ==> text[k] != '}' {
      if open < |text| {
        if NoSeparator(text) {
          NeverClosed(text, Start(open + 1, '}'), host);
        } else {
          NeverFound(text, Start(open + 1, '}'), '}', host);
        }
        NothingOpens(text, open + 1, host);
      }
    } else {
      NeverFound(text, Start(i, '{'), '{', host);
    }
  }

  /**
   A text expands to itself if it has no close brace, or no comma and no .. before anything but a
   close brace, or if every open brace in it stands alone (or there is none).
   */
  lemma NothingToExpand(text: string, host: Host)
    requires NoSeparator(text) || (forall k :: 0 <= k < |text| ==> text[k] != '}')
             || forall k :: 0 <= k < |text| && text[k] == '{' ==> Alone(text, k)
    ensures BraceExpand(text, host) == [text]
  {
    NothingOpens(text, 0, host);
  }

  /** {} in front of a word is two ordinary characters. */
  lemma LeadingBraces(w: Word, host: Host)
    requires Ok(w, host)
    ensures BraceExpand("{}" + Print(w), host) == Prefixed("{}", SpellAll(true, Meaning(w)))
  {
    var text, us, tail := "{}" + Print(w), Lead(w), Tail(w);
    LeadTail(w, host);
    PastBraces(text, Print(w), host);
    assert Here(text, 2, Print(w));
    if tail.End? {
      assert Spell(true, us) + "" == Spell(true, us);
      NoGroup(text, 2, us, host);
      LeadOnly(us);
    } else {
      GroupText(Spell(true, us), PrintAlts(tail.alts), Print(tail.rest));
      GroupBehind(text, us, tail.alts, tail.rest, host);
      FrontProduct(us, tail.alts, tail.rest);
    }
  }

  lemma GroupBehind(text: string, us: seq<Unit>, alts: Alts, rest: Word, host: Host)
    requires UnitsOk(us, host) && AltsOk(alts, host) && alts.Next? && Ok(rest, host)
    requires text == "{}" + (Spell(true, us) + ("{" + PrintAlts(alts) + "}" + Print(rest)))
    requires Leads(text, Start(0, '{'), Outside(2, 0, 1), '{', host)
    ensures var front, tack := "{}" + Spell(true, us), SpellAll(true, AltsMeaning(alts));
            var post := SpellAll(true, Meaning(rest));
            Expands(text, if rest.End? then Product([front], tack) else Product(Product([front], tack), post), host)
  {
    var u, a, r := Spell(true, us), PrintAlts(alts), Print(rest);
    assert Here(text, 2, u + ("{" + a + "}" + r));
    FirstGroup(text, 2, us, alts, r, host);
    Alternatives(a, 0, alts, host);
    AltsComma(alts, host);
    if !rest.End? {
      Expansion(rest, host);
      NotEmpty(rest);
    }
    assert text == ("{}" + u) + ("{" + a + "}" + r);
    GroupAssembled(text, "{}" + u, a, r, SpellAll(true, AltsMeaning(alts)), SpellAll(true, Meaning(rest)), host);
  }

  lemma PastBraces(text: string, rest: string, host: Host)
    requires text == "{}" + rest
    ensures Leads(text, Start(0, '{'), Outside(2, 0, 1), '{', host)
  {
    assert text[0] == '{' && text[1] == '}';
    OneMove(text, Start(0, '{'), '{', host);
    OneMove(text, Outside(1, 0, 1), '{', host);
    LeadsOn(text, Start(0, '{'), Outside(1, 0, 1), Outside(2, 0, 1), '{', host);
  }

  lemma FrontProduct(us: seq<Unit>, alts: Alts, rest: Word)
    ensures var tack, post := SpellAll(true, AltsMeaning(alts)), SpellAll(true, Meaning(rest));
            var all := SpellAll(true, Prefixed(us, Product(AltsMeaning(alts), Meaning(rest))));
            Prefixed("{}", all) == (if rest.End? then Product(["{}" + Spell(true, us)], tack)
                                    else Product(Product(["{}" + Spell(true, us)], tack), post))
  {
    var u, tack, post := Spell(true, us), SpellAll(true, AltsMeaning(alts)), SpellAll(true, Meaning(rest));
    SpellPrefixed(true, us, Product(AltsMeaning(alts), Meaning(rest)));
    SpellProduct(true, AltsMeaning(alts), Meaning(rest));
    PrefixedTwice("{}", u, Product(tack, post));
    ProductOfOne("{}" + u, tack);
    PrefixedProduct("{}" + u, tack, post);
    if rest.End? {
      assert post == [[]];
      ProductUnit(tack);
    }
  }

  // ---- sequences ------------------------------------------------------------------------------

  lemma {:induction false} CommaFree(text: string, j: nat, us: seq<Unit>)
    requires Here(text, j, Spell(true, us)) && Has(us, Simple)
    ensures HasComma(text, j) <==> HasComma(text, j + |Spell(true, us)|)
    decreases |us|
  {
    if us != [] {
      var x := UnitText(us[0]);
      assert Simple(us[0]);
      HereSplit(text, j, x, Spell(true, us[1..]));
      assert text[j] == text[j..j + |x|][0] == x[0];
      CommaFree(text, j + |x|, us[1..]);
    }
  }

  lemma SimpleOk(us: seq<Unit>, host: Host)
    requires Has(us, Simple)
    ensures UnitsOk(us, host)
  {
    forall k | 0 <= k < |us| ensures UnitOk(us[k], host) {
      assert Simple(us[k]);
    }
  }

  /** lo..hi, as text. */
  function Sequence(lo: seq<Unit>, hi: seq<Unit>): string {
    Spell(true, lo) + (".." + Spell(true, hi))
  }

  lemma SequenceComma(lo: seq<Unit>, hi: seq<Unit>)
    requires Has(lo, Simple) && Has(hi, Simple)
    ensures !HasComma(Sequence(lo, hi), 0)
  {
    var x, l, h := Sequence(lo, hi), Spell(true, lo), Spell(true, hi);
    HereSplit(x, 0, l, ".." + h);
    HereSplit(x, |l|, "..", h);
    CommaFree(x, 0, lo);
    CommaFree(x, |l| + 2, hi);
    assert x[|l|] == x[|l|..|l| + 2][0] && x[|l| + 1] == x[|l|..|l| + 2][1];
  }

  lemma SequenceHead(lo: seq<Unit>, hi: seq<Unit>)
    requires Has(lo, Simple)
    ensures var x := Sequence(lo, hi); !Blank(x[0]) && x[0] != '}'
  {
    if lo != [] {
      assert Simple(lo[0]);
    }
  }

  /** The dots count as a separator. */
  lemma SkipDots(text: string, i: nat, commas: nat, host: Host) returns (commas': nat)
    requires Here(text, i, "..") && i + 2 < |text| && text[i + 2] != '}'
    ensures commas' > 0 && Leads(text, Outside(i, 0, commas), Outside(i + 2, 0, commas'), '}', host)
  {
    assert text[i] == text[i..i + 2][0] && text[i + 1] == text[i..i + 2][1];
    OneMove(text, Outside(i, 0, commas), '}', host);
    HereSplit(text, i, ".", ".");
    commas' := SkipPlain(text, i + 1, '.', 0, commas + 1, '}', host);
    LeadsOn(text, Outside(i, 0, commas), Outside(i + 1, 0, commas + 1), Outside(i + 2, 0, commas'), '}', host);
  }

  lemma SequenceParts(text: string, u: string, x: string, rest: string)
    requires text == u + ("{" + (x + ("}" + rest)))
    ensures var i := |u|;
            Here(text, 0, u) && Here(text, i, "{" + x) && Here(text, i + 1, x) && Here(text, i + 1 + |x|, "}")
            && text[..i] == u && text[i + 1..i + 1 + |x|] == x && text[i + 2 + |x|..] == rest
            && text[i..i + 2 + |x|] == "{" + x + "}"
  {
    assert text == u + "{" + x + "}" + rest;
  }

  lemma SequenceBraces(text: string, us: seq<Unit>, lo: seq<Unit>, hi: seq<Unit>, rest: string, host: Host)
    requires text == Spell(true, us) + ("{" + (Sequence(lo, hi) + ("}" + rest)))
    requires UnitsOk(us, host) && Has(lo, Simple) && Has(hi, Simple) && hi != []
    ensures var i := |Spell(true, us)|; Braced(text, i, i + 1 + |Sequence(lo, hi)|, host)
  {
    var u, x := Spell(true, us), Sequence(lo, hi);
    SequenceParts(text, u, x, rest);
    LeadsNowhere(text, Start(0, '{'), '{', host);
    var c := SkipUnits(text, 0, us, 1, '{', host);
    SequenceHead(lo, hi);
    StopsAtGroup(text, |u|, x, c, host);
    var c' := SkipSequence(text, |u| + 1, lo, hi, host);
    StopsAtMark(text, |u| + 1, |u| + 1 + |x|, '}', c', host);
  }

  lemma SkipSequence(text: string, i: nat, lo: seq<Unit>, hi: seq<Unit>, host: Host) returns (commas: nat)
    requires Here(text, i, Sequence(lo, hi)) && Has(lo, Simple) && Has(hi, Simple) && hi != []
    ensures commas > 0 && Leads(text, Outside(i, 0, 0), Outside(i + |Sequence(lo, hi)|, 0, commas), '}', host)
  {
    var l, h := Spell(true, lo), Spell(true, hi);
    var m, n := i + |l|, i + |l| + 2;
    HereSplit(text, i, l, ".." + h);
    HereSplit(text, m, "..", h);
    SimpleOk(lo, host);
    SimpleOk(hi, host);
    var c1 := SkipUnits(text, i, lo, 0, '}', host);
    assert Simple(hi[0]) && h[0] == UnitText(hi[0])[0] && text[n] == text[n..n + |h|][0];
    var c2 := SkipDots(text, m, c1, host);
    commas := SkipUnits(text, n, hi, c2, '}', host);
    LeadsOn(text, Outside(i, 0, 0), Outside(m, 0, c1), Outside(n, 0, c2), '}', host);
    LeadsOn(text, Outside(i, 0, 0), Outside(n, 0, c2), Outside(i + |Sequence(lo, hi)|, 0, commas), '}', host);
  }

  /** What the host makes of x, or {x}. */
  function Terms(x: string, host: Host): seq<string> {
    if host.sequence(x).Some? then host.sequence(x).value else ["{" + x + "}"]
  }

  lemma SequenceTack(text: string, u: string, x: string, rest: string, host: Host)
    requires text == u + ("{" + (x + ("}" + rest))) && !HasComma(x, 0)
    ensures var t := Tack(text, |u|, |u| + 1 + |x|, host);
            t == if host.sequence(x).Some? || rest != "" then Some(Terms(x, host)) else None
  {
    SequenceParts(text, u, x, rest);
  }

  lemma TackAssembled(text: string, i: nat, close: nat, terms: seq<string>, rest: string, host: Host)
    requires Braced(text, i, close, host) && i < |text| && Tack(text, i, close, host) == Some(terms)
    requires text[close + 1..] == rest
    ensures BraceExpand(text, host)
         == if rest == "" then Product([text[..i]], terms)
            else Product(Product([text[..i]], terms), BraceExpand(rest, host))
  {
    var post := BraceExpand(rest, host);
    var all := Product([text[..i]], terms);
    Assembled(text, i, close, terms, post, if close + 1 < |text| then Product(all, post) else all, host);
  }

  lemma SequenceAlone(text: string, u: string, x: string, host: Host)
    requires text == u + ("{" + (x + ("}" + ""))) && !HasComma(x, 0) && host.sequence(x).None?
    requires Braced(text, |u|, |u| + 1 + |x|, host)
    ensures BraceExpand(text, host) == [text] == Product([u], Terms(x, host))
  {
    SequenceParts(text, u, x, "");
    Unexpanded(text, |u|, |u| + 1 + |x|, host);
    ProductOfOne(u, Terms(x, host));
    assert text == u + ("{" + x + "}");
  }

  lemma SequenceResult(text: string, u: string, x: string, rest: string, host: Host)
    requires text == u + ("{" + (x + ("}" + rest))) && !HasComma(x, 0)
    requires Braced(text, |u|, |u| + 1 + |x|, host)
    ensures var all := Product([u], Terms(x, host));
            BraceExpand(text, host) == if rest == "" then all else Product(all, BraceExpand(rest, host))
  {
    if host.sequence(x).None? && rest == "" {
      SequenceAlone(text, u, x, host);
    } else {
      SequenceParts(text, u, x, rest);
      SequenceTack(text, u, x, rest, host);
      TackAssembled(text, |u|, |u| + 1 + |x|, Terms(x, host), rest, host);
    }
  }

  /**
   {lo..hi} behind units and in front of any text: the terms the host gives it, each with what is
   before and with everything the text behind expands to; if the host gives none it stands for itself.
   */
  lemma SequenceExpands(us: seq<Unit>, lo: seq<Unit>, hi: seq<Unit>, rest: string, host: Host)
    requires UnitsOk(us, host) && Has(lo, Simple) && Has(hi, Simple) && hi != []
    ensures var u, x := Spell(true, us), Sequence(lo, hi);
            var all := Product([u], if host.sequence(x).Some? then host.sequence(x).value else ["{" + x + "}"]);
            BraceExpand(u + ("{" + (x + ("}" + rest))), host)
            == if rest == "" then all else Product(all, BraceExpand(rest, host))
  {
    var u, x := Spell(true, us), Sequence(lo, hi);
    var text := u + ("{" + (x + ("}" + rest)));
    SequenceBraces(text, us, lo, hi, rest, host);
    SequenceComma(lo, hi);
    SequenceResult(text, u, x, rest, host);
  }

  /** What stands for itself on its own: a quoted piece or ${...}, whatever braces and commas it has inside. */
  lemma UnitStays(u: Unit, host: Host)
    requires UnitOk(u, host)
    ensures BraceExpand(UnitText(u), host) == [UnitText(u)]
  {
    var w := Char(u, End);
    ExpansionIsProduct(w, host);
    assert Meaning(w) == [[u]] by { assert [u] + [] == [u]; }
    assert Print(w) == UnitText(u) + "" == UnitText(u) && Spell(true, [u]) == UnitText(u) + "";
  }
}
