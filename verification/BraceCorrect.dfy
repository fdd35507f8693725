/**
 What a brace word means, as a tree, and the proof that brace_expand computes it: the
 expansion of a printed tree is the product of its parts, leftmost part slowest.
 */
module BraceCorrect {
  import opened CText
  import opened Folding
  import opened Braces

  /**
   What stands for itself in a word: a character, bare or behind a backslash; a quoted piece;
   ${...}, whose alternatives are not expanded; and a command or process substitution.
   */
  datatype Unit =
    | Plain(c: char)
    | Escaped(c: char)
    | InQuotes(q: char, inside: seq<Piece>)
    | Param(alts: Alts)
    | Command(c: char, s: string)

  /** Inside quotes: a character, bare or behind a backslash, or $(...). */
  datatype Piece = Bare(c: char) | Slashed(c: char) | Inner(s: string)

  /** A word: characters, what else stands for itself, and brace groups. */
  datatype Word = End | Char(u: Unit, rest: Word) | Group(alts: Alts, rest: Word)

  datatype Alts = Last(w: Word) | Next(w: Word, more: Alts)

  /** Characters that mean nothing to brace expansion. */
  predicate Ordinary(c: char) {
    !Blank(c) && c !in "{},\\\"'`$<>"
  }

  function Substitution(c: char, s: string): string {
    [c] + "(" + s + ")"
  }

  /** The host finds the end of this substitution wherever it stands. */
  ghost predicate Knows(host: Host, x: string) {
    forall text, i: nat :: Here(text, i, x) ==> host.substitution(text, i) == i + |x| - 1
  }

  /**
   The first piece is one that can stand in these quotes: no quote of the same kind, no backslash
   without a character behind it but in single quotes, and no $( that is not a substitution.
   */
  ghost predicate HeadOk(q: char, ps: seq<Piece>, host: Host)
    requires ps != []
  {
    match ps[0]
    case Bare(c) =>
      c != q && (q != '\'' ==> c != '\\') && (q == '"' && c == '$' && |ps| > 1 ==> ps[1] != Bare('('))
    case Slashed(_) => q != '\''
    case Inner(s) => q == '"' && Knows(host, Substitution('$', s))
  }

  ghost predicate PiecesOk(q: char, ps: seq<Piece>, host: Host) {
    ps == [] || (HeadOk(q, ps, host) && PiecesOk(q, ps[1..], host))
  }

  ghost predicate UnitOk(u: Unit, host: Host) {
    match u
    case Plain(c) => Ordinary(c)
    case Escaped(_) => true
    case InQuotes(q, ps) => (q == '"' || q == '\'' || q == '`') && PiecesOk(q, ps, host)
    case Param(a) => AltsOk(a, host)
    case Command(c, s) => (c == '$' || c == '<' || c == '>') && Knows(host, Substitution(c, s))
  }

  /** Every unit can stand bare, and every group has at least two alternatives. */
  ghost predicate Ok(w: Word, host: Host) {
    match w
    case End => true
    case Char(u, rest) => UnitOk(u, host) && Ok(rest, host)
    case Group(alts, rest) => alts.Next? && AltsOk(alts, host) && Ok(rest, host)
  }

  ghost predicate AltsOk(a: Alts, host: Host) {
    Ok(a.w, host) && (a.Next? ==> AltsOk(a.more, host))
  }

  function PieceText(p: Piece): string {
    match p
    case Bare(c) => [c]
    case Slashed(c) => ['\\', c]
    case Inner(s) => Substitution('$', s)
  }

  function PiecesText(ps: seq<Piece>): string {
    if ps == [] then "" else PieceText(ps[0]) + PiecesText(ps[1..])
  }

  function UnitText(u: Unit): string {
    match u
    case Plain(c) => [c]
    case Escaped(c) => ['\\', c]
    case InQuotes(q, ps) => [q] + (PiecesText(ps) + [q])
    case Param(a) => "${" + (PrintAlts(a) + "}")
    case Command(c, s) => Substitution(c, s)
  }

  function Print(w: Word): string {
    match w
    case End => ""
    case Char(u, rest) => UnitText(u) + Print(rest)
    case Group(alts, rest) => "{" + PrintAlts(alts) + "}" + Print(rest)
  }

  function PrintAlts(a: Alts): string {
    if a.Last? then Print(a.w) else Print(a.w) + "," + PrintAlts(a.more)
  }

  /** The strings of units a word stands for. */
  function Meaning(w: Word): seq<seq<Unit>> {
    match w
    case End => [[]]
    case Char(u, rest) => Prefixed([u], Meaning(rest))
    case Group(alts, rest) => Product(AltsMeaning(alts), Meaning(rest))
  }

  function AltsMeaning(a: Alts): seq<seq<Unit>> {
    if a.Last? then Meaning(a.w) else Meaning(a.w) + AltsMeaning(a.more)
  }

  /** The units as text, with their backslashes (raw) or as the characters they stand for. */
  function Spell(raw: bool, us: seq<Unit>): string {
    if us == [] then ""
    else (if raw || !(us[0].Plain? || us[0].Escaped?) then UnitText(us[0]) else [us[0].c]) + Spell(raw, us[1..])
  }

  function SpellAll(raw: bool, m: seq<seq<Unit>>): (r: seq<string>)
    ensures |r| == |m| && forall k :: 0 <= k < |m| ==> r[k] == Spell(raw, m[k])
  {
    seq(|m|, k requires 0 <= k < |m| => Spell(raw, m[k]))
  }

  lemma {:induction false} SpellAppend(raw: bool, a: seq<Unit>, b: seq<Unit>)
    ensures Spell(raw, a + b) == Spell(raw, a) + Spell(raw, b)
  {
    if a == [] {
      assert a + b == b;
    } else {
      assert (a + b)[1..] == a[1..] + b;
      SpellAppend(raw, a[1..], b);
    }
  }

  lemma SpellPrefixed(raw: bool, x: seq<Unit>, b: seq<seq<Unit>>)
    ensures SpellAll(raw, Prefixed(x, b)) == Prefixed(Spell(raw, x), SpellAll(raw, b))
  {
    forall j | 0 <= j < |b| ensures SpellAll(raw, Prefixed(x, b))[j] == Prefixed(Spell(raw, x), SpellAll(raw, b))[j] {
      SpellAppend(raw, x, b[j]);
    }
  }

  lemma SpellJoin(raw: bool, a: seq<seq<Unit>>, b: seq<seq<Unit>>)
    ensures SpellAll(raw, a + b) == SpellAll(raw, a) + SpellAll(raw, b)
  {
  }

  lemma {:induction false} SpellProduct(raw: bool, a: seq<seq<Unit>>, b: seq<seq<Unit>>)
    ensures SpellAll(raw, Product(a, b)) == Product(SpellAll(raw, a), SpellAll(raw, b))
  {
    if a != [] {
      SpellProduct(raw, a[1..], b);
      assert SpellAll(raw, a)[1..] == SpellAll(raw, a[1..]);
      SpellPrefixed(raw, a[0], b);
      SpellJoin(raw, Prefixed(a[0], b), Product(a[1..], b));
    }
  }

  // ---- the scanner on printed words -------------------------------------------------

  /** x stands in text at i. */
  ghost predicate Here(text: string, i: nat, x: string) {
    i + |x| <= |text| && text[i..i + |x|] == x
  }

  lemma HereSplit(text: string, i: nat, a: string, b: string)
    requires Here(text, i, a + b)
    ensures Here(text, i, a) && Here(text, i + |a|, b)
  {
    var s := text[i..i + |a + b|];
    assert s[..|a|] == a && s[|a|..] == b;
    assert s[..|a|] == text[i..i + |a|] && s[|a|..] == text[i + |a|..i + |a| + |b|];
  }

  /** The scanner outside quotes. */
  function Outside(i: nat, level: nat, commas: nat): Scan {
    Scan(i, NUL, level, commas, false)
  }

  /** Scanning from s comes to s'. */
  ghost predicate Leads(text: string, s: Scan, s': Scan, satisfy: char, host: Host) {
    s.i <= s'.i <= |text| && Folded(|text| + 4, LeadsFact, (text, s, s', satisfy, host))
  }

  ghost predicate LeadsFact(x: (string, Scan, Scan, char, Host)) {
    x.1.i <= |x.0| && x.2.i <= |x.0| && Gobble(x.0, x.1, x.3, x.4) == Gobble(x.0, x.2, x.3, x.4)
  }

  lemma LeadsIs(text: string, s: Scan, s': Scan, satisfy: char, host: Host)
    requires s.i <= s'.i <= |text|
    ensures Leads(text, s, s', satisfy, host) <==> Gobble(text, s, satisfy, host) == Gobble(text, s', satisfy, host)
  {
    Unfolded(|text| + 4, LeadsFact, (text, s, s', satisfy, host));
  }

  lemma LeadsOn(text: string, s: Scan, s': Scan, s'': Scan, satisfy: char, host: Host)
    requires Leads(text, s, s', satisfy, host) && Leads(text, s', s'', satisfy, host)
    ensures Leads(text, s, s'', satisfy, host)
  {
    LeadsIs(text, s, s', satisfy, host);
    LeadsIs(text, s', s'', satisfy, host);
    LeadsIs(text, s, s'', satisfy, host);
  }

  lemma LeadsNowhere(text: string, s: Scan, satisfy: char, host: Host)
    requires s.i <= |text|
    ensures Leads(text, s, s, satisfy, host)
  {
    LeadsIs(text, s, s, satisfy, host);
  }

  lemma OneMove(text: string, s: Scan, satisfy: char, host: Host)
    requires s.i < |text| && Move1(text, s, satisfy, host).Go?
    ensures Leads(text, s, Move1(text, s, satisfy, host).s, satisfy, host)
  {
    LeadsIs(text, s, Move1(text, s, satisfy, host).s, satisfy, host);
  }

  predicate Sought(c: char) {
    c == '{' || c == '}' || c == ','
  }

  /** The scanner inside quotes. */
  function Inside(i: nat, q: char, level: nat, commas: nat): Scan {
    Scan(i, q, level, commas, false)
  }

  /** What stands for itself is passed over, whatever it has inside. */
  lemma {:induction false} SkipUnit(text: string, i: nat, u: Unit, level: nat, commas: nat, satisfy: char, host: Host)
    returns (commas': nat)
    requires Here(text, i, UnitText(u)) && UnitOk(u, host) && Sought(satisfy)
    ensures commas' >= commas
    ensures Leads(text, Outside(i, level, commas), Outside(i + |UnitText(u)|, level, commas'), satisfy, host)
    decreases u, 0
  {
    commas' := commas;
    match u
    case Plain(c) => commas' := SkipPlain(text, i, c, level, commas, satisfy, host);
    case Escaped(c) => SkipEscaped(text, i, c, Outside(i, level, commas), satisfy, host);
    case InQuotes(q, ps) => SkipQuoted(text, i, q, ps, level, commas, satisfy, host);
    case Param(a) =>
      var e := i + 2 + |PrintAlts(a)|;
      ParamParts(text, i, a);
      OpenParam(text, i, level, commas, satisfy, host);
      commas' := SkipAlts(text, i + 2, a, level + 1, commas, satisfy, host);
      LeadsOn(text, Outside(i, level, commas), Outside(i + 2, level + 1, commas), Outside(e, level + 1, commas'),
              satisfy, host);
      SkipMark(text, e, '}', level + 1, commas', level, commas', satisfy, host);
      LeadsOn(text, Outside(i, level, commas), Outside(e, level + 1, commas'), Outside(e + 1, level, commas'),
              satisfy, host);
    case Command(c, s) => SkipCommand(text, i, c, s, level, commas, satisfy, host);
  }

  lemma ParamParts(text: string, i: nat, a: Alts)
    requires Here(text, i, UnitText(Param(a)))
    ensures var e := i + 2 + |PrintAlts(a)|;
            Here(text, i, "${") && Here(text, i + 2, PrintAlts(a)) && Here(text, e, "}")
            && |UnitText(Param(a))| == |PrintAlts(a)| + 3
  {
    HereSplit(text, i, "${", PrintAlts(a) + "}");
    HereSplit(text, i + 2, PrintAlts(a), "}");
  }

  lemma SkipQuoted(text: string, i: nat, q: char, ps: seq<Piece>, level: nat, commas: nat, satisfy: char, host: Host)
    requires Here(text, i, UnitText(InQuotes(q, ps))) && UnitOk(InQuotes(q, ps), host) && Sought(satisfy)
    ensures Leads(text, Outside(i, level, commas), Outside(i + |UnitText(InQuotes(q, ps))|, level, commas), satisfy,
                  host)
  {
    var e := i + 1 + |PiecesText(ps)|;
    HereSplit(text, i, [q], PiecesText(ps) + [q]);
    HereSplit(text, i + 1, PiecesText(ps), [q]);
    HereChar(text, i, q);
    HereChar(text, e, q);
    OneMove(text, Outside(i, level, commas), satisfy, host);
    SkipPieces(text, i + 1, q, ps, e, level, commas, satisfy, host);
    LeadsOn(text, Outside(i, level, commas), Inside(i + 1, q, level, commas), Outside(e + 1, level, commas), satisfy,
            host);
  }

  lemma SkipPlain(text: string, i: nat, c: char, level: nat, commas: nat, satisfy: char, host: Host)
    returns (commas': nat)
    requires Here(text, i, [c]) && Ordinary(c) && Sought(satisfy)
    ensures commas' >= commas
    ensures Leads(text, Outside(i, level, commas), Outside(i + 1, level, commas'), satisfy, host)
  {
    HereChar(text, i, c);
    var m := Move1(text, Outside(i, level, commas), satisfy, host);
    OneMove(text, Outside(i, level, commas), satisfy, host);
    commas' := m.s.commas;
    assert m.s == Outside(i + 1, level, commas');
  }

  /** A backslash and the character behind it, outside quotes or in those that allow it. */
  lemma SkipEscaped(text: string, i: nat, c: char, s: Scan, satisfy: char, host: Host)
    requires Here(text, i, ['\\', c]) && s.i == i && !s.passNext
    requires s.quoted == NUL || s.quoted == '"' || s.quoted == '`'
    ensures Leads(text, s, s.(i := i + 2), satisfy, host)
  {
    assert text[i] == text[i..i + 2][0] && text[i + 1] == text[i..i + 2][1];
    var s1 := s.(passNext := true, i := i + 1);
    OneMove(text, s, satisfy, host);
    OneMove(text, s1, satisfy, host);
    LeadsOn(text, s, s1, s.(i := i + 2), satisfy, host);
  }

  /** $ and the { behind it; outside quotes one level deeper. */
  lemma OpenParam(text: string, i: nat, level: nat, commas: nat, satisfy: char, host: Host)
    requires Here(text, i, "${")
    ensures Leads(text, Outside(i, level, commas), Outside(i + 2, level + 1, commas), satisfy, host)
  {
    assert text[i] == text[i..i + 2][0] && text[i + 1] == text[i..i + 2][1];
    var s1 := Scan(i + 1, NUL, level + 1, commas, true);
    OneMove(text, Outside(i, level, commas), satisfy, host);
    OneMove(text, s1, satisfy, host);
    LeadsOn(text, Outside(i, level, commas), s1, Outside(i + 2, level + 1, commas), satisfy, host);
  }

  lemma CommandEnd(text: string, i: nat, c: char, s: string, host: Host)
    requires Here(text, i, Substitution(c, s)) && Knows(host, Substitution(c, s))
    ensures text[i] == c && text[i + 1] == '(' && AfterSubstitution(text, i, host) == i + |Substitution(c, s)|
  {
    var x := Substitution(c, s);
    assert text[i] == text[i..i + |x|][0] && text[i + 1] == text[i..i + |x|][1];
  }

  lemma SkipCommand(text: string, i: nat, c: char, s: string, level: nat, commas: nat, satisfy: char, host: Host)
    requires Here(text, i, Substitution(c, s)) && UnitOk(Command(c, s), host)
    ensures Leads(text, Outside(i, level, commas), Outside(i + |Substitution(c, s)|, level, commas), satisfy, host)
  {
    CommandEnd(text, i, c, s, host);
    OneMove(text, Outside(i, level, commas), satisfy, host);
  }

  /** From inside quotes to behind the closing one, at e: nothing on the way counts. */
  lemma {:induction false} SkipPieces(text: string, i: nat, q: char, ps: seq<Piece>, e: nat, level: nat, commas: nat,
                                      satisfy: char, host: Host)
    requires Here(text, i, PiecesText(ps)) && e == i + |PiecesText(ps)| < |text| && text[e] == q
    requires (q == '"' || q == '\'' || q == '`') && PiecesOk(q, ps, host)
    ensures Leads(text, Inside(i, q, level, commas), Outside(e + 1, level, commas), satisfy, host)
    decreases |ps|
  {
    if ps == [] {
      OneMove(text, Inside(i, q, level, commas), satisfy, host);
    } else {
      HereSplit(text, i, PieceText(ps[0]), PiecesText(ps[1..]));
      var i1 := i + |PieceText(ps[0])|;
      if ps[0] == Bare('$') && q != '\'' && |ps| > 1 && ps[1] == Bare('{') {
        TwoBare(text, i, q, ps, level, commas, satisfy, host);
        SkipPieces(text, i + 2, q, ps[2..], e, level, commas, satisfy, host);
        LeadsOn(text, Inside(i, q, level, commas), Inside(i + 2, q, level, commas), Outside(e + 1, level, commas),
                satisfy, host);
      } else {
        SkipHead(text, i, q, ps, e, level, commas, satisfy, host);
        SkipPieces(text, i1, q, ps[1..], e, level, commas, satisfy, host);
        LeadsOn(text, Inside(i, q, level, commas), Inside(i1, q, level, commas), Outside(e + 1, level, commas),
                satisfy, host);
      }
    }
  }

  lemma SkipHead(text: string, i: nat, q: char, ps: seq<Piece>, e: nat, level: nat, commas: nat, satisfy: char,
                 host: Host)
    requires (q == '"' || q == '\'' || q == '`') && ps != [] && HeadOk(q, ps, host)
    requires Here(text, i, PieceText(ps[0])) && Here(text, i + |PieceText(ps[0])|, PiecesText(ps[1..]))
    requires e == i + |PieceText(ps[0])| + |PiecesText(ps[1..])| < |text| && text[e] == q
    requires ps[0] == Bare('$') && q != '\'' && |ps| > 1 ==> ps[1] != Bare('{')
    ensures Leads(text, Inside(i, q, level, commas), Inside(i + |PieceText(ps[0])|, q, level, commas), satisfy, host)
  {
    match ps[0]
    case Slashed(c) => SkipEscaped(text, i, c, Inside(i, q, level, commas), satisfy, host);
    case Inner(s) =>
      CommandEnd(text, i, '$', s, host);
      OneMove(text, Inside(i, q, level, commas), satisfy, host);
    case Bare(c) =>
      HereChar(text, i, c);
      NextPiece(text, i + 1, q, ps, e);
      OneMove(text, Inside(i, q, level, commas), satisfy, host);
  }

  /** Behind the first piece { or ( stands only if the next piece is that bare character. */
  lemma NextPiece(text: string, i: nat, q: char, ps: seq<Piece>, e: nat)
    requires ps != [] && (q == '"' || q == '\'' || q == '`')
    requires Here(text, i, PiecesText(ps[1..])) && e == i + |PiecesText(ps[1..])| < |text| && text[e] == q
    ensures text[i] == '{' ==> |ps| > 1 && ps[1] == Bare('{')
    ensures text[i] == '(' ==> |ps| > 1 && ps[1] == Bare('(')
  {
    if |ps| > 1 {
      var x := PiecesText(ps[1..]);
      assert x == PieceText(ps[1]) + PiecesText(ps[1..][1..]);
      assert text[i] == text[i..i + |x|][0] == PieceText(ps[1])[0];
    }
  }

  lemma TwoBare(text: string, i: nat, q: char, ps: seq<Piece>, level: nat, commas: nat, satisfy: char, host: Host)
    requires |ps| > 1 && ps[0] == Bare('$') && ps[1] == Bare('{') && (q == '"' || q == '`') && PiecesOk(q, ps, host)
    requires Here(text, i, ['$']) && Here(text, i + 1, PiecesText(ps[1..]))
    ensures PiecesOk(q, ps[2..], host) && |PiecesText(ps)| == |PiecesText(ps[2..])| + 2
    ensures Here(text, i + 2, PiecesText(ps[2..]))
    ensures Leads(text, Inside(i, q, level, commas), Inside(i + 2, q, level, commas), satisfy, host)
  {
    assert ps[1..][1..] == ps[2..];
    assert PiecesText(ps[1..]) == ['{'] + PiecesText(ps[2..]);
    HereSplit(text, i + 1, ['{'], PiecesText(ps[2..]));
    HereChar(text, i, '$');
    HereChar(text, i + 1, '{');
    var s1 := Scan(i + 1, q, level, commas, true);
    OneMove(text, Inside(i, q, level, commas), satisfy, host);
    OneMove(text, s1, satisfy, host);
    LeadsOn(text, Inside(i, q, level, commas), s1, Inside(i + 2, q, level, commas), satisfy, host);
  }

  /** One of { , } that the scanner passes over. */
  lemma SkipMark(text: string, i: nat, c: char, level: nat, commas: nat, level': nat, commas': nat, satisfy: char,
                 host: Host)
    requires Here(text, i, [c]) && Sought(c)
    requires c != satisfy || level > 0 || commas == 0
    requires level' == if c == '{' then level + 1 else if c == '}' && level > 0 then level - 1 else level
    requires commas' == if c == ',' && satisfy == '}' && level == 0 then commas + 1 else commas
    ensures Leads(text, Outside(i, level, commas), Outside(i + 1, level', commas'), satisfy, host)
  {
    HereChar(text, i, c);
    OneMove(text, Outside(i, level, commas), satisfy, host);
  }

  /** A whole word is passed over, unless an open brace is sought outside braces. */
  lemma {:induction false} SkipWord(text: string, i: nat, w: Word, level: nat, commas: nat, satisfy: char, host: Host)
    returns (commas': nat)
    requires Here(text, i, Print(w)) && Ok(w, host) && Sought(satisfy) && (satisfy == '{' ==> level > 0)
    ensures commas' >= commas
    ensures Leads(text, Outside(i, level, commas), Outside(i + |Print(w)|, level, commas'), satisfy, host)
    decreases w, 1
  {
    match w
    case End =>
      commas' := commas;
      LeadsNowhere(text, Outside(i, level, commas), satisfy, host);
    case Char(u, rest) =>
      HereSplit(text, i, UnitText(u), Print(rest));
      var c1 := SkipUnit(text, i, u, level, commas, satisfy, host);
      commas' := SkipWord(text, i + |UnitText(u)|, rest, level, c1, satisfy, host);
      LeadsOn(text, Outside(i, level, commas), Outside(i + |UnitText(u)|, level, c1),
              Outside(i + |Print(w)|, level, commas'), satisfy, host);
    case Group(alts, rest) =>
      var group := "{" + PrintAlts(alts) + "}";
      HereSplit(text, i, group, Print(rest));
      var c1 := SkipGroup(text, i, alts, level, commas, satisfy, host);
      commas' := SkipWord(text, i + |group|, rest, level, c1, satisfy, host);
      LeadsOn(text, Outside(i, level, commas), Outside(i + |group|, level, c1),
              Outside(i + |Print(w)|, level, commas'), satisfy, host);
  }

  lemma {:induction false} SkipGroup(text: string, i: nat, alts: Alts, level: nat, commas: nat, satisfy: char,
                                     host: Host)
    returns (commas': nat)
    requires Here(text, i, "{" + PrintAlts(alts) + "}") && AltsOk(alts, host)
    requires Sought(satisfy) && (satisfy == '{' ==> level > 0)
    ensures commas' >= commas
    ensures Leads(text, Outside(i, level, commas), Outside(i + |PrintAlts(alts)| + 2, level, commas'), satisfy, host)
    decreases alts, 2
  {
    var a := PrintAlts(alts);
    HereSplit(text, i, "{" + a, "}");
    HereSplit(text, i, "{", a);
    var s0 := Outside(i, level, commas);
    SkipMark(text, i, '{', level, commas, level + 1, commas, satisfy, host);
    commas' := SkipAlts(text, i + 1, alts, level + 1, commas, satisfy, host);
    LeadsOn(text, s0, Outside(i + 1, level + 1, commas), Outside(i + 1 + |a|, level + 1, commas'), satisfy, host);
    SkipMark(text, i + 1 + |a|, '}', level + 1, commas', level, commas', satisfy, host);
    LeadsOn(text, s0, Outside(i + 1 + |a|, level + 1, commas'), Outside(i + 2 + |a|, level, commas'), satisfy, host);
  }

  /** Alternatives are passed over inside braces, and outside when their close brace is sought. */
  lemma {:induction false} SkipAlts(text: string, i: nat, a: Alts, level: nat, commas: nat, satisfy: char, host: Host)
    returns (commas': nat)
    requires Here(text, i, PrintAlts(a)) && AltsOk(a, host) && Sought(satisfy) && (satisfy != '}' ==> level > 0)
    ensures commas' >= commas && (satisfy == '}' && level == 0 && a.Next? ==> commas' > 0)
    ensures Leads(text, Outside(i, level, commas), Outside(i + |PrintAlts(a)|, level, commas'), satisfy, host)
    decreases a, 1
  {
    if a.Last? {
      commas' := SkipWord(text, i, a.w, level, commas, satisfy, host);
    } else {
      var x := Print(a.w);
      HereSplit(text, i, x + ",", PrintAlts(a.more));
      HereSplit(text, i, x, ",");
      var c1 := SkipWord(text, i, a.w, level, commas, satisfy, host);
      var c2 := if satisfy == '}' && level == 0 then c1 + 1 else c1;
      SkipMark(text, i + |x|, ',', level, c1, level, c2, satisfy, host);
      LeadsOn(text, Outside(i, level, commas), Outside(i + |x|, level, c1), Outside(i + |x| + 1, level, c2), satisfy,
              host);
      commas' := SkipAlts(text, i + |x| + 1, a.more, level, c2, satisfy, host);
      LeadsOn(text, Outside(i, level, commas), Outside(i + |x| + 1, level, c2),
              Outside(i + |PrintAlts(a)|, level, commas'), satisfy, host);
    }
  }

  // ---- where the scanner stops ---------------------------------------------------------

  /** The characters before a word's first group, and the word from there on. */
  function Lead(w: Word): seq<Unit> {
    if w.Char? then [w.u] + Lead(w.rest) else []
  }

  function Tail(w: Word): (t: Word)
    ensures !t.Char?
  {
    if w.Char? then Tail(w.rest) else w
  }

  ghost predicate UnitsOk(us: seq<Unit>, host: Host) {
    forall k :: 0 <= k < |us| ==> UnitOk(us[k], host)
  }

  lemma LeadTail(w: Word, host: Host)
    requires Ok(w, host)
    ensures Print(w) == Spell(true, Lead(w)) + Print(Tail(w))
    ensures Meaning(w) == Prefixed(Lead(w), Meaning(Tail(w)))
    ensures UnitsOk(Lead(w), host) && Ok(Tail(w), host)
  {
    LeadPrint(w);
    LeadMeaning(w);
    LeadOk(w, host);
  }

  lemma {:induction false} LeadPrint(w: Word)
    ensures Print(w) == Spell(true, Lead(w)) + Print(Tail(w))
  {
    if w.Char? {
      LeadPrint(w.rest);
      assert Lead(w)[0] == w.u && Lead(w)[1..] == Lead(w.rest);
    }
  }

  lemma {:induction false} LeadMeaning(w: Word)
    ensures Meaning(w) == Prefixed(Lead(w), Meaning(Tail(w)))
  {
    if w.Char? {
      LeadMeaning(w.rest);
      PrefixedTwice([w.u], Lead(w.rest), Meaning(Tail(w)));
    } else {
      PrefixedNothing(Meaning(w));
    }
  }

  lemma {:induction false} LeadOk(w: Word, host: Host)
    requires Ok(w, host)
    ensures UnitsOk(Lead(w), host) && Ok(Tail(w), host)
  {
    if w.Char? {
      LeadOk(w.rest, host);
    }
  }

  lemma {:induction false} SkipUnits(text: string, i: nat, us: seq<Unit>, commas: nat, satisfy: char, host: Host)
    returns (commas': nat)
    requires Here(text, i, Spell(true, us)) && UnitsOk(us, host) && Sought(satisfy)
    ensures commas' >= commas
    ensures Leads(text, Outside(i, 0, commas), Outside(i + |Spell(true, us)|, 0, commas'), satisfy, host)
    decreases |us|
  {
    if us == [] {
      commas' := commas;
      LeadsNowhere(text, Outside(i, 0, commas), satisfy, host);
    } else {
      HereSplit(text, i, UnitText(us[0]), Spell(true, us[1..]));
      var c1 := SkipUnit(text, i, us[0], 0, commas, satisfy, host);
      commas' := SkipUnits(text, i + |UnitText(us[0])|, us[1..], c1, satisfy, host);
      LeadsOn(text, Outside(i, 0, commas), Outside(i + |UnitText(us[0])|, 0, c1),
              Outside(i + |Spell(true, us)|, 0, commas'), satisfy, host);
    }
  }

  /** Scanning that leads to a stop, or to the end, stops there. */
  lemma LeadsToStop(text: string, start: nat, s: Scan, satisfy: char, host: Host)
    requires start <= |text| && Leads(text, Start(start, satisfy), s, satisfy, host)
    requires s.i < |text| ==> Move1(text, s, satisfy, host).Stop?
    ensures Stops(text, start, satisfy, s.i, host)
  {
    LeadsIs(text, Start(start, satisfy), s, satisfy, host);
  }

  lemma StopsAtMark(text: string, start: nat, i: nat, c: char, commas: nat, host: Host)
    requires start <= |text| && (c == '}' || c == ',') && Here(text, i, [c]) && commas > 0
    requires Leads(text, Start(start, c), Outside(i, 0, commas), c, host)
    ensures Stops(text, start, c, i, host)
  {
    HereChar(text, i, c);
    LeadsToStop(text, start, Outside(i, 0, commas), c, host);
  }

  lemma UnitHead(u: Unit, host: Host)
    requires UnitOk(u, host)
    ensures UnitText(u) != "" && !Blank(UnitText(u)[0]) && UnitText(u)[0] != '}'
  {
  }

  /** What follows an open brace makes it one that counts. */
  lemma {:induction false} GroupHead(a: Alts, host: Host)
    requires AltsOk(a, host) && a.Next?
    ensures var t := PrintAlts(a); |t| > 0 && !Blank(t[0]) && t[0] != '}'
  {
    match a.w
    case End =>
    case Group(_, _) =>
    case Char(u, rest) =>
      UnitHead(u, host);
      assert Print(a.w)[0] == UnitText(u)[0];
  }

  lemma StopsAtGroup(text: string, i: nat, x: string, commas: nat, host: Host)
    requires Here(text, i, "{" + x) && x != "" && !Blank(x[0]) && x[0] != '}' && commas > 0
    requires Leads(text, Start(0, '{'), Outside(i, 0, commas), '{', host)
    ensures Stops(text, 0, '{', i, host)
  {
    var group := "{" + x;
    assert text[i] == text[i..i + |group|][0] == '{';
    assert text[i + 1] == text[i..i + |group|][1] == x[0];
    LeadsToStop(text, 0, Outside(i, 0, commas), '{', host);
  }

  /**
   The braces of the first group are the ones brace_expand works on.  `n` characters before the
   word are passed over by the search for it.
   */
  lemma FirstGroup(text: string, n: nat, us: seq<Unit>, alts: Alts, rest: string, host: Host)
    requires Here(text, n, Spell(true, us) + ("{" + PrintAlts(alts) + "}" + rest))
    requires Leads(text, Start(0, '{'), Outside(n, 0, 1), '{', host)
    requires UnitsOk(us, host) && AltsOk(alts, host) && alts.Next?
    ensures var i := n + |Spell(true, us)|; Braced(text, i, i + 1 + |PrintAlts(alts)|, host)
  {
    GroupParts(text, n, Spell(true, us), PrintAlts(alts), rest);
    GroupOpens(text, n, us, alts, host);
    var i := n + |Spell(true, us)|;
    GroupCloses(text, i, alts, host);
    BracedFrom(text, i, i + 1 + |PrintAlts(alts)|, host);
  }

  lemma BracedFrom(text: string, i: nat, close: nat, host: Host)
    requires Stops(text, 0, '{', i, host) && Stops(text, i + 1, '}', close, host) && close < |text|
    ensures Braced(text, i, close, host)
  {
  }

  lemma GroupParts(text: string, n: nat, u: string, a: string, rest: string)
    requires Here(text, n, u + ("{" + a + "}" + rest))
    ensures var i := n + |u|;
            Here(text, n, u) && Here(text, i, "{" + a) && Here(text, i + 1, a) && Here(text, i + 1 + |a|, "}")
  {
    var group := "{" + a + "}";
    var i := n + |u|;
    HereSplit(text, n, u, group + rest);
    HereSplit(text, i, group, rest);
    HereSplit(text, i, "{" + a, "}");
    HereSplit(text, i, "{", a);
  }

  lemma GroupOpens(text: string, n: nat, us: seq<Unit>, alts: Alts, host: Host)
    requires Here(text, n, Spell(true, us)) && Here(text, n + |Spell(true, us)|, "{" + PrintAlts(alts))
    requires Leads(text, Start(0, '{'), Outside(n, 0, 1), '{', host)
    requires UnitsOk(us, host) && AltsOk(alts, host) && alts.Next?
    ensures Stops(text, 0, '{', n + |Spell(true, us)|, host)
  {
    var i := n + |Spell(true, us)|;
    var c := SkipUnits(text, n, us, 1, '{', host);
    LeadsOn(text, Start(0, '{'), Outside(n, 0, 1), Outside(i, 0, c), '{', host);
    GroupHead(alts, host);
    StopsAtGroup(text, i, PrintAlts(alts), c, host);
  }

  lemma GroupCloses(text: string, i: nat, alts: Alts, host: Host)
    requires Here(text, i + 1, PrintAlts(alts)) && Here(text, i + 1 + |PrintAlts(alts)|, "}")
    requires AltsOk(alts, host) && alts.Next?
    ensures var e := i + 1 + |PrintAlts(alts)|; Stops(text, i + 1, '}', e, host) && e < |text|
  {
    var e := i + 1 + |PrintAlts(alts)|;
    var c := SkipAlts(text, i + 1, alts, 0, 0, '}', host);
    StopsAtMark(text, i + 1, e, '}', c, host);
  }

  lemma NoGroup(text: string, n: nat, us: seq<Unit>, host: Host)
    requires Here(text, n, Spell(true, us)) && n + |Spell(true, us)| == |text| && UnitsOk(us, host)
    requires Leads(text, Start(0, '{'), Outside(n, 0, 1), '{', host)
    ensures Expands(text, [text], host)
  {
    var c := SkipUnits(text, n, us, 1, '{', host);
    LeadsOn(text, Start(0, '{'), Outside(n, 0, 1), Outside(|text|, 0, c), '{', host);
    LeadsToStop(text, 0, Outside(|text|, 0, c), '{', host);
    Unexpanded(text, |text|, 0, host);
  }

  /** Passing over x two characters at a backslash and else one, a reader lands behind it. */
  predicate Lands(x: string) {
    x == "" || if x[0] == '\\' then |x| > 1 && Lands(x[2..]) else Lands(x[1..])
  }

  lemma {:induction false} LandsEnd(x: string)
    requires x != "" && x[|x| - 1] != '\\'
    ensures Lands(x)
    decreases |x|
  {
    if x[0] == '\\' {
      if |x| > 2 {
        LandsEnd(x[2..]);
      }
    } else if |x| > 1 {
      LandsEnd(x[1..]);
    }
  }

  lemma {:induction false} LandsJoin(a: string, b: string)
    requires Lands(a) && Lands(b)
    ensures Lands(a + b)
    decreases |a|
  {
    if a == "" {
      assert a + b == b;
    } else if a[0] == '\\' {
      assert (a + b)[2..] == a[2..] + b;
      LandsJoin(a[2..], b);
    } else {
      assert (a + b)[1..] == a[1..] + b;
      LandsJoin(a[1..], b);
    }
  }

  lemma UnitLands(u: Unit, host: Host)
    requires UnitOk(u, host)
    ensures Lands(UnitText(u))
  {
    if u.Escaped? {
      assert UnitText(u)[2..] == "";
    } else {
      LandsEnd(UnitText(u));
    }
  }

  lemma {:induction false} WordLands(w: Word, host: Host)
    requires Ok(w, host)
    ensures Lands(Print(w))
  {
    match w
    case End =>
    case Char(u, rest) =>
      UnitLands(u, host);
      WordLands(rest, host);
      LandsJoin(UnitText(u), Print(rest));
    case Group(alts, rest) =>
      LandsEnd("{" + PrintAlts(alts) + "}");
      WordLands(rest, host);
      LandsJoin("{" + PrintAlts(alts) + "}", Print(rest));
  }

  lemma {:induction false} CommaBehind(text: string, j: nat, x: string)
    requires Here(text, j, x) && Lands(x) && HasComma(text, j + |x|)
    ensures HasComma(text, j)
    decreases |x|
  {
    if x != "" {
      assert text[j] == text[j..j + |x|][0] == x[0];
      var n := if x[0] == '\\' then 2 else 1;
      assert x == x[..n] + x[n..];
      HereSplit(text, j, x[..n], x[n..]);
      CommaBehind(text, j + n, x[n..]);
    }
  }

  lemma CommaFollows(text: string, j: nat, w: Word, host: Host)
    requires Here(text, j, Print(w) + ",") && Ok(w, host)
    ensures HasComma(text, j)
  {
    HereSplit(text, j, Print(w), ",");
    HereChar(text, j + |Print(w)|, ',');
    WordLands(w, host);
    CommaBehind(text, j, Print(w));
  }

  lemma HereChar(text: string, j: nat, c: char)
    requires Here(text, j, [c])
    ensures text[j] == c
  {
    assert text[j] == text[j..j + 1][0];
  }

  // ---- expansion is the product -----------------------------------------------------------

  /** brace_expand of a printed word gives its meaning, in order. */
  lemma {:induction false} Expansion(w: Word, host: Host)
    requires Ok(w, host)
    ensures Expands(Print(w), SpellAll(true, Meaning(w)), host)
    decreases |Print(w)|, 0
  {
    var us, tail := Lead(w), Tail(w);
    LeadTail(w, host);
    if tail.End? {
      assert Spell(true, us) + "" == Spell(true, us);
      LeadsNowhere(Print(w), Start(0, '{'), '{', host);
      NoGroup(Print(w), 0, us, host);
      LeadOnly(us);
    } else {
      var alts, rest := tail.alts, tail.rest;
      GroupText(Spell(true, us), PrintAlts(alts), Print(rest));
      Alternatives(PrintAlts(alts), 0, alts, host);
      if rest.End? {
        GroupExpansion(Print(w), us, alts, rest, [], host);
      } else {
        Expansion(rest, host);
        GroupExpansion(Print(w), us, alts, rest, SpellAll(true, Meaning(rest)), host);
      }
    }
  }

  lemma LeadOnly(us: seq<Unit>)
    ensures SpellAll(true, Prefixed(us, [[]])) == [Spell(true, us)]
  {
    assert us + [] == us;
  }

  lemma GroupText(u: string, a: string, r: string)
    ensures u + ("{" + a + "}" + r) == u + "{" + a + "}" + r
    ensures |a| < |u + "{" + a + "}" + r| && |r| < |u + "{" + a + "}" + r|
  {
  }

  lemma AltsComma(a: Alts, host: Host)
    requires AltsOk(a, host) && a.Next?
    ensures HasComma(PrintAlts(a), 0)
  {
    var t := PrintAlts(a);
    HereSplit(t, 0, Print(a.w) + ",", PrintAlts(a.more));
    CommaFollows(t, 0, a.w, host);
  }

  /** One word with a group, given what its alternatives and its rest expand to. */
  lemma GroupExpansion(text: string, us: seq<Unit>, alts: Alts, rest: Word, post: seq<string>, host: Host)
    requires UnitsOk(us, host) && AltsOk(alts, host) && alts.Next?
    requires text == Spell(true, us) + ("{" + PrintAlts(alts) + "}" + Print(rest))
    requires Amble(PrintAlts(alts), 0, SpellAll(true, AltsMeaning(alts)), host)
    requires !rest.End? ==> post == SpellAll(true, Meaning(rest)) && Expands(Print(rest), post, host)
    ensures Expands(text, SpellAll(true, Prefixed(us, Product(AltsMeaning(alts), Meaning(rest)))), host)
  {
    var u, a, r := Spell(true, us), PrintAlts(alts), Print(rest);
    LeadsNowhere(text, Start(0, '{'), '{', host);
    FirstGroup(text, 0, us, alts, r, host);
    AltsComma(alts, host);
    var tack, mr := SpellAll(true, AltsMeaning(alts)), Meaning(rest);
    GroupProduct(us, AltsMeaning(alts), mr);
    if rest.End? {
      ProductUnit(Product([u], tack));
    } else {
      NotEmpty(rest);
    }
    GroupAssembled(text, u, a, r, tack, post, host);
  }

  /** A text with its first braces and what they and the rest expand to. */
  lemma GroupAssembled(text: string, u: string, a: string, r: string, tack: seq<string>, post: seq<string>, host: Host)
    requires text == u + ("{" + a + "}" + r) && Braced(text, |u|, |u| + 1 + |a|, host)
    requires HasComma(a, 0) && Amble(a, 0, tack, host) && (r != "" ==> Expands(r, post, host))
    ensures Expands(text, if r == "" then Product([u], tack) else Product(Product([u], tack), post), host)
  {
    var i, close := |u|, |u| + 1 + |a|;
    assert text[i + 1..close] == a && text[close + 1..] == r && text[..i] == u;
    TackIs(text, i, close, tack, host);
    var result := if r == "" then Product([u], tack) else Product(Product([u], tack), post);
    Assembled(text, i, close, tack, post, result, host);
  }

  lemma GroupProduct(us: seq<Unit>, m: seq<seq<Unit>>, mr: seq<seq<Unit>>)
    ensures SpellAll(true, Prefixed(us, Product(m, mr)))
         == Product(Product([Spell(true, us)], SpellAll(true, m)), SpellAll(true, mr))
    ensures SpellAll(true, [[]]) == [[]]
  {
    SpellProduct(true, m, mr);
    SpellPrefixed(true, us, Product(m, mr));
    ProductOfOne(Spell(true, us), SpellAll(true, m));
    PrefixedProduct(Spell(true, us), SpellAll(true, m), SpellAll(true, mr));
  }

  lemma NotEmpty(w: Word)
    requires !w.End?
    ensures |Print(w)| > 0
  {
  }

  lemma ProductOfOne<T>(x: seq<T>, b: seq<seq<T>>)
    ensures Product([x], b) == Prefixed(x, b)
  {
    assert Product([x], b) == Prefixed(x, b) + Product([x][1..], b);
  }

  lemma {:induction false} Alternatives(text: string, start: nat, a: Alts, host: Host)
    requires AltsOk(a, host) && Here(text, start, PrintAlts(a)) && start + |PrintAlts(a)| == |text|
    ensures Amble(text, start, SpellAll(true, AltsMeaning(a)), host)
    decreases |PrintAlts(a)|, 1
  {
    Expansion(a.w, host);
    if a.Last? {
      LastAlternative(text, start, a.w, host);
    } else {
      AltsSplit(a);
      NextStops(text, start, a.w, PrintAlts(a.more), host);
      Alternatives(text, start + |Print(a.w)| + 1, a.more, host);
      FirstAlternative(text, start, start + |Print(a.w)|, Print(a.w), SpellAll(true, Meaning(a.w)),
                       SpellAll(true, AltsMeaning(a.more)), host);
    }
  }

  lemma LastAlternative(text: string, start: nat, w: Word, host: Host)
    requires Ok(w, host) && Here(text, start, Print(w)) && start + |Print(w)| == |text|
    requires Expands(Print(w), SpellAll(true, Meaning(w)), host)
    ensures Amble(text, start, SpellAll(true, Meaning(w)), host)
  {
    LastStops(text, start, w, host);
    var m := SpellAll(true, Meaning(w));
    FirstAlternative(text, start, |text|, Print(w), m, [], host);
    assert m + [] == m;
  }

  lemma AltsSplit(a: Alts)
    requires a.Next?
    ensures PrintAlts(a) == Print(a.w) + "," + PrintAlts(a.more)
    ensures SpellAll(true, AltsMeaning(a)) == SpellAll(true, Meaning(a.w)) + SpellAll(true, AltsMeaning(a.more))
  {
    SpellJoin(true, Meaning(a.w), AltsMeaning(a.more));
  }

  lemma LastStops(text: string, start: nat, w: Word, host: Host)
    requires Ok(w, host) && Here(text, start, Print(w)) && start + |Print(w)| == |text|
    ensures Stops(text, start, ',', |text|, host)
  {
    var c := SkipWord(text, start, w, 0, 1, ',', host);
    LeadsToStop(text, start, Outside(|text|, 0, c), ',', host);
  }

  lemma NextStops(text: string, start: nat, w: Word, rest: string, host: Host)
    requires Ok(w, host) && Here(text, start, Print(w) + "," + rest)
    ensures Stops(text, start, ',', start + |Print(w)|, host)
    ensures Here(text, start, Print(w)) && Here(text, start + |Print(w)| + 1, rest)
  {
    HereSplit(text, start, Print(w) + ",", rest);
    HereSplit(text, start, Print(w), ",");
    var c := SkipWord(text, start, w, 0, 1, ',', host);
    StopsAtMark(text, start, start + |Print(w)|, ',', c, host);
  }

  lemma FirstAlternative(text: string, start: nat, i: nat, x: string, m: seq<string>, m': seq<string>, host: Host)
    requires start <= |text| && Stops(text, start, ',', i, host) && i == start + |x|
    requires Here(text, start, x) && Expands(x, m, host)
    requires if i < |text| then Amble(text, i + 1, m', host) else m' == []
    ensures Amble(text, start, m + m', host)
  {
    assert text[start..i] == x;
  }

  /** The expansion of a printed word is its meaning: the product of its parts, in order. */
  lemma ExpansionIsProduct(w: Word, host: Host)
    requires Ok(w, host)
    ensures BraceExpand(Print(w), host) == SpellAll(true, Meaning(w))
  {
    Expansion(w, host);
  }

  // ---- the characters of an expansion ------------------------------------------------------

  /** p holds of every character of w. */
  predicate Every(w: Word, p: Unit -> bool) {
    match w
    case End => true
    case Char(u, rest) => p(u) && Every(rest, p)
    case Group(alts, rest) => EveryAlt(alts, p) && Every(rest, p)
  }

  predicate EveryAlt(a: Alts, p: Unit -> bool) {
    Every(a.w, p) && (a.Next? ==> EveryAlt(a.more, p))
  }

  predicate AllHave(m: seq<seq<Unit>>, p: Unit -> bool) {
    forall k :: 0 <= k < |m| ==> Has(m[k], p)
  }

  predicate Has(us: seq<Unit>, p: Unit -> bool) {
    forall j :: 0 <= j < |us| ==> p(us[j])
  }

  lemma {:induction false} ProductHas(a: seq<seq<Unit>>, b: seq<seq<Unit>>, p: Unit -> bool)
    requires AllHave(a, p) && AllHave(b, p)
    ensures AllHave(Product(a, b), p)
  {
    if a != [] {
      ProductHas(a[1..], b, p);
      assert Has(a[0], p);
      forall j | 0 <= j < |b| ensures Has(Prefixed(a[0], b)[j], p) {
        assert Has(b[j], p);
      }
    }
  }

  lemma {:induction false} MeaningHas(w: Word, p: Unit -> bool)
    requires Every(w, p)
    ensures AllHave(Meaning(w), p)
  {
    match w
    case End =>
    case Char(u, rest) =>
      MeaningHas(rest, p);
      ProductOfOne([u], Meaning(rest));
      assert AllHave([[u]], p);
      ProductHas([[u]], Meaning(rest), p);
    case Group(alts, rest) =>
      AltsHave(alts, p);
      MeaningHas(rest, p);
      ProductHas(AltsMeaning(alts), Meaning(rest), p);
  }

  lemma {:induction false} AltsHave(a: Alts, p: Unit -> bool)
    requires EveryAlt(a, p)
    ensures AllHave(AltsMeaning(a), p)
  {
    MeaningHas(a.w, p);
    if a.Next? {
      AltsHave(a.more, p);
    }
  }

  /** Only characters, each bare or behind a backslash. */
  predicate Simple(u: Unit) {
    u.Escaped? || (u.Plain? && Ordinary(u.c))
  }

  /** Of such a word it does not matter what the host knows. */
  lemma {:induction false} AnyHost(w: Word, host: Host, host': Host)
    requires Every(w, Simple) && Ok(w, host)
    ensures Ok(w, host')
  {
    match w
    case End =>
    case Char(_, rest) => AnyHost(rest, host, host');
    case Group(alts, rest) =>
      AnyHostAlts(alts, host, host');
      AnyHost(rest, host, host');
  }

  lemma {:induction false} AnyHostAlts(a: Alts, host: Host, host': Host)
    requires EveryAlt(a, Simple) && AltsOk(a, host)
    ensures AltsOk(a, host')
  {
    AnyHost(a.w, host, host');
    if a.Next? {
      AnyHostAlts(a.more, host, host');
    }
  }

  /** What holds of every character when another thing does. */
  lemma {:induction false} EveryWeaker(w: Word, p: Unit -> bool, p': Unit -> bool)
    requires Every(w, p) && forall u :: p(u) ==> p'(u)
    ensures Every(w, p')
  {
    match w
    case End =>
    case Char(_, rest) => EveryWeaker(rest, p, p');
    case Group(alts, rest) =>
      EveryAltWeaker(alts, p, p');
      EveryWeaker(rest, p, p');
  }

  lemma {:induction false} EveryAltWeaker(a: Alts, p: Unit -> bool, p': Unit -> bool)
    requires EveryAlt(a, p) && forall u :: p(u) ==> p'(u)
    ensures EveryAlt(a, p')
  {
    EveryWeaker(a.w, p, p');
    if a.Next? {
      EveryAltWeaker(a.more, p, p');
    }
  }

  /** The text with its backslashes taken out. */
  function Dequoted(s: string): string
    decreases |s|
  {
    if s == "" then ""
    else if s[0] == '\\' && |s| > 1 then [s[1]] + Dequoted(s[2..])
    else [s[0]] + Dequoted(s[1..])
  }

  lemma {:induction false} DequotedSpell(us: seq<Unit>)
    requires Has(us, Simple)
    ensures Dequoted(Spell(true, us)) == Spell(false, us)
  {
    if us != [] {
      DequotedSpell(us[1..]);
      var s := Spell(true, us);
      assert Simple(us[0]);
      assert s[|UnitText(us[0])|..] == Spell(true, us[1..]);
    }
  }
}
