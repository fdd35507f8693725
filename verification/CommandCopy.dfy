/**
 Running a stored tree again and again: copy_command, and the call of a function, which
 executes a fresh copy of the function's body so that no flag set on the way reaches the
 stored one.
 */
module CommandCopy {
  import opened Options
  import opened CommandMeaning
  import opened CommandExecutor
  import opened CommandContexts
  import opened CommandJumps
  import opened CommandRuns

  /** The flags of a whole tree, node by node. */
  datatype Flags = Flags(own: bool, part: bool, below: seq<Option<Flags>>)

  ghost function FlagsOf(c: Command): Flags
    requires c.Tree()
    reads c.repr
    decreases c.ast, 1
  {
    Flags(c.ignore, c.partIgnore,
          match c.kind
          case KSimple(_) => []
          case KJump(_, _) => []
          case KFor(action) => [Some(FlagsOf(action))]
          case KArithFor(action) => [Some(FlagsOf(action))]
          case KWhile(_, test, action) => [Some(FlagsOf(test)), Some(FlagsOf(action))]
          case KIf(test, thenCase, elseCase) =>
            [Some(FlagsOf(test)), if thenCase == null then None else Some(FlagsOf(thenCase)),
             if elseCase == null then None else Some(FlagsOf(elseCase))]
          case KCase(clauses) => ClauseFlags(c, clauses, c.ast.body.clauses)
          case KGroup(inner) => [if inner == null then None else Some(FlagsOf(inner))]
          case KConnection(_, first, second) =>
            [if first == null then None else Some(FlagsOf(first)),
             if second == null then None else Some(FlagsOf(second))])
  }

  ghost function ClauseFlags(c: Command, cs: KClauses, cl: Clauses): seq<Option<Flags>>
    requires cl < c.ast && c.ClausesTree(cs, cl)
    reads ClauseNodes(cs)
    decreases c.ast, 0, cl
  {
    if cs.KNoClauses? then []
    else [if cs.action == null then None else Some(FlagsOf(cs.action))] + ClauseFlags(c, cs.next, cl.next)
  }

  /** The same tree with the same flags. */
  ghost predicate Same(c: Command?, d: Command?)
    reads Nodes(c), Nodes(d)
  {
    if c == null then d == null
    else d != null && d.ast == c.ast && c.Tree() && d.Tree() && FlagsOf(d) == FlagsOf(c)
  }

  method CopyPart(c: Command?, ghost whole: Cmd) returns (d: Command?)
    requires c != null ==> c.Tree() && c.ast < whole
    ensures Same(c, d) && fresh(Nodes(d))
    decreases whole, -1
  {
    d := null;
    if c != null {
      d := CopyCommand(c);
    }
  }

  method CopyCommand(c: Command) returns (d: Command)
    requires c.Tree()
    ensures Same(c, d) && fresh(Nodes(d))
    decreases c.ast, 2
  {
    match c.kind {
      case KSimple(_) => d := CopySimple(c);
      case KJump(_, _) => d := CopySimple(c);
      case KFor(_) => d := CopyFor(c);
      case KArithFor(_) => d := CopyArithFor(c);
      case KWhile(_, _, _) => d := CopyWhile(c);
      case KIf(_, _, _) => d := CopyIf(c);
      case KCase(_) => d := CopyCase(c);
      case KGroup(_) => d := CopyGroup(c);
      case KConnection(_, _, _) => d := CopyConnection(c);
    }
    SetFlags(d, c.ignore, c.partIgnore);
  }

  method SetFlags(d: Command, own: bool, part: bool)
    requires d.Tree()
    modifies d
    ensures FlagsOf(d) == Flags(own, part, old(FlagsOf(d).below))
  {
    assert d.kind.KCase? ==> d.ClausesTree(d.kind.clauses, d.ast.body.clauses);
    d.ignore, d.partIgnore := own, part;
  }

  /** d has the shape of c and the flags of c everywhere below its root. */
  ghost predicate SameBelow(c: Command, d: Command)
    reads c.repr, d.repr
  {
    c.Tree() && d.Tree() && d.ast == c.ast && FlagsOf(d).below == FlagsOf(c).below
  }

  method CopySimple(c: Command) returns (d: Command)
    requires c.Tree() && (c.kind.KSimple? || c.kind.KJump?)
    ensures fresh(d.repr) && SameBelow(c, d)
    decreases c.ast, 1
  {
    d := new Command(c.invert, c.kind, c.ast.body, {});
  }

  method CopyFor(c: Command) returns (d: Command)
    requires c.Tree() && c.kind.KFor?
    ensures fresh(d.repr) && SameBelow(c, d)
    decreases c.ast, 1
  {
    var action := CopyPart(c.kind.action, c.ast);
    d := new Command(c.invert, KFor(action), c.ast.body, action.repr);
  }

  method CopyArithFor(c: Command) returns (d: Command)
    requires c.Tree() && c.kind.KArithFor?
    ensures fresh(d.repr) && SameBelow(c, d)
    decreases c.ast, 1
  {
    var action := CopyPart(c.kind.action, c.ast);
    d := new Command(c.invert, KArithFor(action), c.ast.body, action.repr);
  }

  method CopyWhile(c: Command) returns (d: Command)
    requires c.Tree() && c.kind.KWhile?
    ensures fresh(d.repr) && SameBelow(c, d)
    decreases c.ast, 1
  {
    var test := CopyPart(c.kind.test, c.ast);
    var action := CopyPart(c.kind.action, c.ast);
    d := new Command(c.invert, KWhile(c.kind.isUntil, test, action), c.ast.body, test.repr + action.repr);
  }

  method CopyIf(c: Command) returns (d: Command)
    requires c.Tree() && c.kind.KIf?
    ensures fresh(d.repr) && SameBelow(c, d)
    decreases c.ast, 1
  {
    var test := CopyPart(c.kind.test, c.ast);
    var thenCase := CopyPart(c.kind.thenCase, c.ast);
    var elseCase := CopyPart(c.kind.elseCase, c.ast);
    d := AssembleIf(c, test, thenCase, elseCase);
  }

  method AssembleIf(c: Command, test: Command, thenCase: Command?, elseCase: Command?) returns (d: Command)
    requires c.Tree() && c.kind.KIf?
    requires Same(c.kind.test, test) && Same(c.kind.thenCase, thenCase) && Same(c.kind.elseCase, elseCase)
    requires Nodes(test) !! Nodes(thenCase) && Nodes(test) !! Nodes(elseCase) && Nodes(thenCase) !! Nodes(elseCase)
    ensures d.repr == {d} + Nodes(test) + Nodes(thenCase) + Nodes(elseCase) && fresh(d) && SameBelow(c, d)
  {
    d := new Command(c.invert, KIf(test, thenCase, elseCase), c.ast.body,
                     test.repr + Nodes(thenCase) + Nodes(elseCase));
  }

  method CopyGroup(c: Command) returns (d: Command)
    requires c.Tree() && c.kind.KGroup?
    ensures fresh(d.repr) && SameBelow(c, d)
    decreases c.ast, 1
  {
    var inner := CopyPart(c.kind.inner, c.ast);
    d := new Command(c.invert, KGroup(inner), c.ast.body, Nodes(inner));
  }

  method CopyConnection(c: Command) returns (d: Command)
    requires c.Tree() && c.kind.KConnection?
    ensures fresh(d.repr) && SameBelow(c, d)
    decreases c.ast, 1
  {
    var first := CopyPart(c.kind.first, c.ast);
    var second := CopyPart(c.kind.second, c.ast);
    d := new Command(c.invert, KConnection(c.kind.op, first, second), c.ast.body, Nodes(first) + Nodes(second));
  }

  /** cs' copies the clauses cs, which spell cl. */
  ghost predicate SameClauses(cs: KClauses, cs': KClauses, cl: Clauses)
    reads ClauseNodes(cs), ClauseNodes(cs')
    decreases cl
  {
    match cl
    case NoClauses => cs.KNoClauses? && cs'.KNoClauses?
    case Clause(a, fallThrough, testNext, next) =>
      cs.KClause? && cs'.KClause? && cs'.fallThrough == fallThrough && cs'.testNext == testNext
      && Same(cs.action, cs'.action) && Spelt(cs'.action) == a
      && Nodes(cs'.action) !! ClauseNodes(cs'.next) && SameClauses(cs.next, cs'.next, next)
  }

  method CopyCase(c: Command) returns (d: Command)
    requires c.Tree() && c.kind.KCase?
    ensures fresh(d.repr) && SameBelow(c, d)
    decreases c.ast, 1
  {
    ghost var cl := c.ast.body.clauses;
    assert c.ClausesTree(c.kind.clauses, cl);
    ghost var nodes;
    var clauses';
    clauses', nodes := CopyClauses(c, c.kind.clauses, cl);
    d := new Command(c.invert, KCase(clauses'), c.ast.body, nodes);
    assert SameClauses(c.kind.clauses, clauses', cl);
    SameClauseTrees(c, d, c.kind.clauses, clauses', cl);
  }

  method CopyClauses(c: Command, cs: KClauses, ghost cl: Clauses) returns (cs': KClauses, ghost nodes: set<Command>)
    requires cl < c.ast && c.ClausesTree(cs, cl)
    ensures nodes == ClauseNodes(cs') && fresh(nodes) && SameClauses(cs, cs', cl)
    decreases c.ast, 0, cl
  {
    match cs
    case KNoClauses =>
      cs', nodes := KNoClauses, {};
    case KClause(action, fallThrough, testNext, next) =>
      var action' := CopyPart(action, c.ast);
      var next';
      next', nodes := CopyClauses(c, next, cl.next);
      cs', nodes := KClause(action', fallThrough, testNext, next'), nodes + Nodes(action');
  }

  lemma {:induction false} SameClauseTrees(c: Command, d: Command, cs: KClauses, cs': KClauses, cl: Clauses)
    requires c.ast == d.ast && cl < c.ast && c.ClausesTree(cs, cl)
    requires SameClauses(cs, cs', cl) && ClauseNodes(cs') <= d.repr - {d}
    ensures d.ClausesTree(cs', cl) && ClauseFlags(d, cs', cl) == ClauseFlags(c, cs, cl)
    decreases cl
  {
    if cl.Clause? {
      SameClauseTrees(c, d, cs.next, cs'.next, cl.next);
    }
  }

  // ---- calling a function, and running one tree many times -------------------------

  /** Flags that are sound where failure counts are sound in their copy, wherever that runs. */
  lemma {:induction false} CopySound(c: Command, d: Command, on: bool, on': bool)
    requires Same(c, d) && c.Sound(on) && (on ==> on')
    ensures d.Sound(on')
    decreases c.ast, 2
  {
    assert FlagsOf(d).below == FlagsOf(c).below;
    assert |FlagsOf(c).below| > 0 ==> FlagsOf(d).below[0] == FlagsOf(c).below[0];
    var e, e' := on || c.invert, on' || c.invert;
    match c.kind
    case KSimple(_) =>
    case KJump(_, _) =>
    case KFor(action) => PartSound(action, d.kind.action, e, e', c.ast);
    case KArithFor(action) => PartSound(action, d.kind.action, e, e', c.ast);
    case KWhile(_, _, _) => BranchesSound(c, d, on, on');
    case KIf(_, _, _) => IfSound(c, d, on, on');
    case KCase(clauses) =>
      ClausesSound(c, d, clauses, d.kind.clauses, c.ast.body.clauses, e, e');
    case KGroup(inner) => PartSound(inner, d.kind.inner, e, e', c.ast);
    case KConnection(_, _, _) => BranchesSound(c, d, on, on');
  }

  lemma {:induction false} BranchesSound(c: Command, d: Command, on: bool, on': bool)
    requires Same(c, d) && c.Sound(on) && (on ==> on') && (c.kind.KWhile? || c.kind.KConnection?)
    ensures d.Sound(on')
    decreases c.ast, 1
  {
    var e, e' := on || c.invert, on' || c.invert;
    assert FlagsOf(d).below[0] == FlagsOf(c).below[0] && FlagsOf(d).below[1] == FlagsOf(c).below[1];
    match c.kind
    case KWhile(_, test, action) =>
      PartSound(test, d.kind.test, true, true, c.ast);
      PartSound(action, d.kind.action, e, e', c.ast);
    case KConnection(op, first, second) =>
      PartSound(first, d.kind.first, e || !op.Semicolon?, e' || !op.Semicolon?, c.ast);
      PartSound(second, d.kind.second, e, e', c.ast);
  }

  lemma {:induction false} IfSound(c: Command, d: Command, on: bool, on': bool)
    requires Same(c, d) && c.Sound(on) && (on ==> on') && c.kind.KIf?
    ensures d.Sound(on')
    decreases c.ast, 1
  {
    var e, e' := on || c.invert, on' || c.invert;
    assert FlagsOf(d).below[0] == FlagsOf(c).below[0] && FlagsOf(d).below[1] == FlagsOf(c).below[1];
    assert FlagsOf(d).below[2] == FlagsOf(c).below[2];
    PartSound(c.kind.test, d.kind.test, true, true, c.ast);
    PartSound(c.kind.thenCase, d.kind.thenCase, e, e', c.ast);
    PartSound(c.kind.elseCase, d.kind.elseCase, e, e', c.ast);
  }

  lemma PartSound(c: Command?, d: Command?, on: bool, on': bool, whole: Cmd)
    requires Same(c, d) && (c != null ==> c.ast < whole && c.Sound(on)) && (on ==> on')
    ensures d != null ==> d.Sound(on')
    decreases whole, 0
  {
    if c != null {
      CopySound(c, d, on, on');
    }
  }

  lemma {:induction false} ClausesSound(c: Command, d: Command, cs: KClauses, cs': KClauses, cl: Clauses, on: bool,
                                        on': bool)
    requires c.ast == d.ast && cl < c.ast && c.ClausesTree(cs, cl) && d.ClausesTree(cs', cl)
    requires ClauseFlags(c, cs, cl) == ClauseFlags(d, cs', cl)
    requires c.SoundClauses(cs, cl, on) && (on ==> on')
    ensures d.SoundClauses(cs', cl, on')
    decreases c.ast, 1, cl
  {
    if cl.Clause? {
      assert ClauseFlags(c, cs, cl)[0] == ClauseFlags(d, cs', cl)[0];
      assert ClauseFlags(c, cs, cl)[1..] == ClauseFlags(c, cs.next, cl.next);
      assert ClauseFlags(d, cs', cl)[1..] == ClauseFlags(d, cs'.next, cl.next);
      PartSound(cs.action, cs'.action, on, on', c.ast);
      ClausesSound(c, d, cs.next, cs'.next, cl.next, on, on');
    }
  }

  /** A function's body runs outside the caller's loops, whose level it cannot change. */
  function Call(body: Cmd, ignored: bool, level: nat, w: World): Res {
    var r := Run(body, ignored, 0, w);
    Res(r.out, level, r.w)
  }

  /**
   A jump leaves the call if and only if a break or continue in the body names more loops than
   the body has around it.  None does unless an arithmetic for inside it failed in its initialisation ...
   */
  lemma CallContainsJumps(body: Cmd, ignored: bool, level: nat, w: World)
    ensures var q := Call(body, ignored, level, w);
            Returns(q.out) ==> (IsJump(q.out) <==> exists path :: Overshoots(body, ignored, 0, w, path))
    ensures var q := Call(body, ignored, level, w); q.w.initFailures == w.initFailures ==> !IsJump(q.out)
  {
    if Returns(Run(body, ignored, 0, w).out) {
      NothingPending(body, ignored, w);
      PendingExactly(body, ignored, 0, w);
    }
  }

  /** ... and then one can: a break in the body goes on to leave a loop of the caller. */
  lemma CallLeaks(level: nat, w: World)
    requires w.polls >= 20 && w.initFailures == 0 && w.trace == []
    ensures Call(Leaky(), false, level, w.(script := [-1, 1, 0])).out == Break(1, 0)
  {
    FailedInitialisationLeaks(w);
  }

  /**
   execute_function, without its variable context: the copy takes every flag, so the stored
   body is the same before and after.
   */
  method CallFunction(sh: Shell, body: Command, on: bool) returns (result: Result)
    requires sh.breaking == 0 && sh.continuing == 0
    requires Ready(body, false)
    modifies sh
    ensures Ready(body, false)
    ensures sh.Shows(Call(body.ast, on, old(sh.level), old(sh.world)), result)
  {
    var copy := CopyCommand(body);
    CopySound(body, copy, false, on);
    var level := sh.level;
    sh.level := 0;
    result := sh.ExecutePart(copy, on);
    sh.level := level;
  }

  /** The command that runs `times` times in a row, as long as nothing ends it early. */
  function RunTimes(times: nat, c: Cmd, s: int, ignored: bool, level: nat, w: World): Res {
    if times == 0 then Res(Done(s), level, w)
    else
      var r := Run(c, ignored, level, w);
      if r.out.Done? then RunTimes(times - 1, c, r.out.s, ignored, r.level, r.w) else r
  }

  /** One tree executed again and again: the flags left behind change nothing. */
  method ExecuteTimes(sh: Shell, times: nat, c: Command, on: bool) returns (result: Result)
    requires sh.breaking == 0 && sh.continuing == 0 && Ready(c, on)
    modifies sh, c.repr
    ensures Ready(c, on)
    ensures sh.Shows(RunTimes(times, c.ast, 0, on, old(sh.level), old(sh.world)), result)
  {
    var left := times;
    result := Status(0);
    while left > 0
      invariant 0 <= left && result.Status? && sh.breaking == 0 && sh.continuing == 0 && Ready(c, on)
      invariant RunTimes(left, c.ast, result.s, on, sh.level, sh.world)
             == RunTimes(times, c.ast, 0, on, old(sh.level), old(sh.world))
    {
      result := sh.ExecutePart(c, on);
      if !result.Status? || sh.breaking > 0 || sh.continuing > 0 {
        return;
      }
      left := left - 1;
    }
  }
}
