/**
 The executor as it runs: command trees on the heap whose nodes carry a sticky
 CMD_IGNORE_RETURN flag, set in place as execution descends, and a shell whose counters
 `breaking`, `continuing` and `loop_level` steer every later call.  Each executor is proved
 to do what CommandMeaning says.
 */
module CommandExecutor {
  import opened Options
  import opened CommandMeaning

  datatype Kind =
    | KSimple(id: nat)
    | KJump(isBreak: bool, n: int)
    | KFor(action: Command)
    | KArithFor(action: Command)
    | KWhile(isUntil: bool, test: Command, action: Command)
    | KIf(test: Command, thenCase: Command?, elseCase: Command?)
    | KCase(clauses: KClauses)
    | KGroup(inner: Command?)
    | KConnection(op: Connector, first: Command?, second: Command?)

  datatype KClauses = KNoClauses | KClause(action: Command?, fallThrough: bool, testNext: bool, next: KClauses)

  class Command {
    const invert: bool
    const kind: Kind
    /** CMD_IGNORE_RETURN in the command's own flags, and in those of its For, While, ... part. */
    var ignore: bool
    var partIgnore: bool

    ghost const ast: Cmd
    ghost const repr: set<Command>

    constructor (invert: bool, kind: Kind, ghost body: Body, ghost below: set<Command>)
      ensures this.invert == invert && this.kind == kind && !ignore && !partIgnore
      ensures ast == Cmd(invert, body) && repr == {this} + below
    {
      this.invert, this.kind := invert, kind;
      this.ignore, this.partIgnore := false, false;
      this.ast, this.repr := Cmd(invert, body), {this} + below;
    }

    /** c, if there is one, is a part strictly below this node and spells a. */
    ghost predicate Holds(c: Command?, a: Option<Cmd>) {
      if c == null then a.None? else a == Some(c.ast) && c in c.repr && c.repr <= repr - {this}
    }

    /** The nodes below form a tree that spells out ast; nothing is shared. */
    ghost predicate Tree()
      decreases ast, 1
    {
      this in repr && ast.invert == invert
      && match ast.body
         case Simple(id) => kind == KSimple(id)
         case Jump(isBreak, n) => kind == KJump(isBreak, n)
         case For(a) => kind.KFor? && Holds(kind.action, Some(a)) && kind.action.Tree()
         case ArithFor(a) => kind.KArithFor? && Holds(kind.action, Some(a)) && kind.action.Tree()
         case While(isUntil, t, a) =>
           kind.KWhile? && kind.isUntil == isUntil && Holds(kind.test, Some(t)) && Holds(kind.action, Some(a))
           && kind.test.repr !! kind.action.repr && kind.test.Tree() && kind.action.Tree()
         case If(t, a, b) =>
           kind.KIf? && Holds(kind.test, Some(t)) && Holds(kind.thenCase, a) && Holds(kind.elseCase, b)
           && kind.test.repr !! Nodes(kind.thenCase) && kind.test.repr !! Nodes(kind.elseCase)
           && kind.test.Tree()
           && (kind.thenCase != null ==> kind.thenCase.Tree()) && (kind.elseCase != null ==> kind.elseCase.Tree())
           && Nodes(kind.thenCase) !! Nodes(kind.elseCase)
         case Case(cl) => kind.KCase? && ClausesTree(kind.clauses, cl)
         case Group(a) => kind.KGroup? && Holds(kind.inner, a) && (kind.inner != null ==> kind.inner.Tree())
         case Connection(op, a, b) =>
           kind.KConnection? && kind.op == op && Holds(kind.first, a) && Holds(kind.second, b)
           && Nodes(kind.first) !! Nodes(kind.second)
           && (kind.first != null ==> kind.first.Tree()) && (kind.second != null ==> kind.second.Tree())
    }

    ghost predicate ClausesTree(cs: KClauses, cl: Clauses)
      requires cl < ast
      decreases ast, 0, cl
    {
      ClauseNodes(cs) <= repr - {this}
      && match cl
         case NoClauses => cs.KNoClauses?
         case Clause(a, fallThrough, testNext, next) =>
           cs.KClause? && cs.fallThrough == fallThrough && cs.testNext == testNext && Holds(cs.action, a)
           && Nodes(cs.action) !! ClauseNodes(cs.next)
           && (cs.action != null ==> cs.action.Tree()) && ClausesTree(cs.next, next)
    }

    /**
     Executed where failure is ignored or not (ctx), a node may be flagged only if its own
     place in the tree makes failure ignored there.
     */
    ghost predicate Sound(ctx: bool)
      requires Tree()
      reads repr
      decreases ast, 1
    {
      var e := ctx || invert;
      (ignore ==> e) && (partIgnore ==> e)
      && match kind
         case KSimple(_) => true
         case KJump(_, _) => true
         case KFor(action) => action.Sound(e)
         case KArithFor(action) => action.Sound(e)
         case KWhile(_, test, action) => test.Sound(true) && action.Sound(e)
         case KIf(test, thenCase, elseCase) =>
           test.Sound(true) && (thenCase != null ==> thenCase.Sound(e)) && (elseCase != null ==> elseCase.Sound(e))
         case KCase(clauses) => SoundClauses(clauses, ast.body.clauses, e)
         case KGroup(inner) => inner != null ==> inner.Sound(e)
         case KConnection(op, first, second) =>
           (first != null ==> first.Sound(e || !op.Semicolon?)) && (second != null ==> second.Sound(e))
    }

    ghost predicate SoundClauses(cs: KClauses, cl: Clauses, e: bool)
      requires cl < ast && ClausesTree(cs, cl)
      reads ClauseNodes(cs)
      decreases ast, 0, cl
    {
      cs.KClause? ==> (cs.action != null ==> cs.action.Sound(e)) && SoundClauses(cs.next, cl.next, e)
    }
  }

  ghost function Nodes(c: Command?): set<Command> {
    if c == null then {} else c.repr
  }

  ghost function Spelt(c: Command?): Option<Cmd> {
    if c == null then None else Some(c.ast)
  }

  /** A part that can be executed where failure is ignored or not (on). */
  ghost predicate Ready(c: Command?, on: bool)
    reads Nodes(c)
  {
    c != null ==> c.Tree() && c.Sound(on)
  }

  /** ... and that has been flagged for it. */
  ghost predicate Marked(c: Command, on: bool)
    reads c, Nodes(c)
  {
    Ready(c, on) && (on ==> c.ignore)
  }

  ghost function ClauseNodes(cs: KClauses): set<Command> {
    match cs
    case KNoClauses => {}
    case KClause(action, _, _, next) => Nodes(action) + ClauseNodes(next)
  }

  // ---- the shell -----------------------------------------------------------------

  datatype Result = Status(s: int) | ErrExit(s: int) | Thrown

  class Shell {
    var breaking: nat
    var continuing: nat
    var level: nat
    var last: int
    var world: World

    /** The counters and the world after an executor that means `r`. */
    ghost predicate Shows(r: Res, result: Result)
      reads this
    {
      world == r.w
      && match r.out
         case Done(s) => result == Status(s) && breaking == 0 && continuing == 0 && level == r.level
         case Break(n, s) => result == Status(s) && breaking == n && continuing == 0 && level == r.level
         case Continue(n, s) => result == Status(s) && breaking == 0 && continuing == n && level == r.level
         case Exit(s) => result == ErrExit(s)
         case Interrupted => result == Thrown
    }

    /** Between commands a pending jump always has its status in `last`. */
    ghost predicate Settled(result: Result)
      reads this
    {
      result.Status? && (breaking > 0 || continuing > 0) ==> last == result.s
    }

    method Draw() returns (d: int)
      modifies this`world
      ensures d == Peek(old(world)) && world == Drawn(old(world))
    {
      d := Peek(world);
      world := Drawn(world);
    }

    /** Set CMD_IGNORE_RETURN on a part before executing it, when failure is ignored there. */
    method Mark(c: Command?, on: bool)
      requires Ready(c, on)
      modifies if c == null then {} else {c}
      ensures c != null ==> Marked(c, on)
    {
      if c != null && on {
        assert c.kind.KCase? ==> c.ClausesTree(c.kind.clauses, c.ast.body.clauses);
        c.ignore := true;
      }
    }

    /**
     execute_command_internal, without pipes, redirections or jobs.  `on` says whether
     failure is ignored at this place; the caller has flagged the command accordingly.
     */
    method Execute(c: Command?, ghost on: bool) returns (result: Result)
      requires c != null ==> Marked(c, on)
      modifies this, Nodes(c)
      ensures c != null ==> Marked(c, on)
      ensures if old(breaking) > 0 || old(continuing) > 0 then
                result == Status(old(last)) && unchanged(this)
              else
                Shows(RunOpt(Spelt(c), on, old(level), old(world)), result) && Settled(result)
      decreases world.polls, 0
    {
      if breaking > 0 || continuing > 0 {
        return Status(last);
      }
      if c == null {
        return Status(0);
      }
      if world.polls == 0 {
        return Thrown;
      }
      world := world.(polls := world.polls - 1);
      if c.invert {
        assert c.kind.KCase? ==> c.ClausesTree(c.kind.clauses, c.ast.body.clauses);
        c.ignore := true;
      }
      result := ExecuteParts(c);
      if result.Status? {
        if c.invert {
          result := Status(Invert(result.s));
        }
        last := result.s;
      }
    }

    /** Flag a part and execute it. */
    method ExecutePart(c: Command?, on: bool) returns (result: Result)
      requires Ready(c, on)
      modifies this, Nodes(c)
      ensures Ready(c, on)
      ensures if old(breaking) > 0 || old(continuing) > 0 then
                result == Status(old(last)) && unchanged(this)
              else
                Shows(RunOpt(Spelt(c), on, old(level), old(world)), result) && Settled(result)
      decreases world.polls, 1
    {
      Mark(c, on);
      result := Execute(c, on);
    }

    /** A command about to be executed: its flag says exactly whether failure is ignored. */
    ghost predicate Entered(c: Command)
      reads this, c.repr, c
    {
      c.Tree() && c.Sound(c.ignore) && breaking == 0 && continuing == 0 && (c.invert ==> c.ignore)
    }

    /** The switch on the command's type. */
    method ExecuteParts(c: Command) returns (result: Result)
      requires Entered(c)
      modifies this, c.repr
      ensures c.Sound(c.ignore) && c.ignore == old(c.ignore)
      ensures Shows(RunBody(c.ast.body, c.ignore, old(level), old(world)), result)
      decreases world.polls, 4
    {
      if c.ignore {
        assert c.kind.KCase? ==> c.ClausesTree(c.kind.clauses, c.ast.body.clauses);
        c.partIgnore := true;
      }
      match c.kind
      case KSimple(id) => result := ExecuteSimple(id, c.ignore);
      case KJump(isBreak, n) => result := ExecuteJump(isBreak, n, c.ignore);
      case KFor(action) => result := ExecuteFor(action, c.partIgnore);
      case KArithFor(action) => result := ExecuteArithFor(action, c.partIgnore);
      case KWhile(isUntil, test, action) => result := ExecuteWhile(isUntil, test, action, c.partIgnore);
      case KIf(test, thenCase, elseCase) => result := ExecuteIf(test, thenCase, elseCase, c.partIgnore);
      case KCase(clauses) => result := ExecuteCase(c);
      case KGroup(inner) => result := ExecuteGroup(c);
      case KConnection(_, _, _) => result := ExecuteConnection(c);
    }

    method ExecuteSimple(id: nat, ignore: bool) returns (result: Result)
      requires breaking == 0 && continuing == 0
      modifies this
      ensures Shows(RunBody(Simple(id), ignore, old(level), old(world)), result)
    {
      var s := Draw();
      world := world.(trace := world.trace + [id]);
      if s != 0 && !ignore {
        last := s;
        return ErrExit(s);
      }
      result := Status(s);
    }

    /** The break and continue builtins, run as simple commands. */
    method ExecuteJump(isBreak: bool, n: int, ignore: bool) returns (result: Result)
      requires breaking == 0 && continuing == 0
      modifies this
      ensures Shows(RunBody(Jump(isBreak, n), ignore, old(level), old(world)), result)
    {
      if level == 0 {
        return Status(0);
      }
      if n <= 0 {
        breaking := level;
        if !ignore {
          last := 1;
          return ErrExit(1);
        }
        return Status(1);
      }
      var k: nat := if n > level then level else n;
      if isBreak {
        breaking := k;
      } else {
        continuing := k;
      }
      result := Status(0);
    }

    method ExecuteIf(test: Command, thenCase: Command?, elseCase: Command?, ignore: bool) returns (result: Result)
      requires breaking == 0 && continuing == 0
      requires Ready(test, true) && Ready(thenCase, ignore) && Ready(elseCase, ignore)
      requires Nodes(test) !! Nodes(thenCase) && Nodes(test) !! Nodes(elseCase) && Nodes(thenCase) !! Nodes(elseCase)
      modifies this, Nodes(test), Nodes(thenCase), Nodes(elseCase)
      ensures Ready(test, true) && Ready(thenCase, ignore) && Ready(elseCase, ignore)
      ensures Shows(RunBody(If(test.ast, Spelt(thenCase), Spelt(elseCase)), ignore, old(level), old(world)), result)
      decreases world.polls, 3
    {
      result := ExecutePart(test, true);
      if !result.Status? {
        return;
      }
      if result.s == 0 {
        result := ExecutePart(thenCase, ignore);
      } else {
        result := ExecutePart(elseCase, ignore);
      }
    }

    method ExecuteGroup(c: Command) returns (result: Result)
      requires Entered(c) && c.kind.KGroup?
      modifies this, c.repr
      ensures c.Sound(c.ignore) && c.ignore == old(c.ignore)
      ensures Shows(RunBody(c.ast.body, c.ignore, old(level), old(world)), result)
      decreases world.polls, 3
    {
      result := ExecutePart(c.kind.inner, c.ignore);
    }

    method ExecuteConnection(c: Command) returns (result: Result)
      requires Entered(c) && c.kind.KConnection?
      modifies this, c.repr
      ensures c.Sound(c.ignore) && c.ignore == old(c.ignore)
      ensures Shows(RunBody(c.ast.body, c.ignore, old(level), old(world)), result)
      decreases world.polls, 3
    {
      var op := c.kind.op;
      result := ExecutePart(c.kind.first, c.ignore || !op.Semicolon?);
      if !result.Status? {
        return;
      }
      if op.Semicolon? || (op.AndAnd? <==> result.s == 0) {
        result := ExecutePart(c.kind.second, c.ignore);
      }
    }

    /** A loop body that means `r` has been executed, and one loop taken off a jump it raised. */
    ghost predicate Turned(r: Res, result: Result, again: bool)
      reads this
    {
      again == Resumes(r.out)
      && if again then result == Status(r.out.s) && breaking == 0 && continuing == 0 && level == r.level && world == r.w
         else Shows(Res(if Returns(r.out) then Unwind(r.out, r.out.s) else r.out, r.level, r.w), result)
    }

    /** One turn of a loop: the body, skipped if the loop's test has left a jump pending. */
    method Turn(action: Command, ignore: bool, ghost test: Out) returns (result: Result, again: bool)
      requires Marked(action, ignore)
      requires Returns(test) && Shows(Res(test, level, world), Status(test.s)) && Settled(Status(test.s))
      requires !test.Done? ==> 1 <= test.n <= level
      modifies this, Nodes(action)
      ensures Marked(action, ignore)
      ensures Turned(Pass(test, action.ast, ignore, old(level), old(world)), result, again)
      decreases world.polls, 1
    {
      result := Execute(action, ignore);
      again := result.Status?;
      if again {
        if breaking > 0 {
          breaking := breaking - 1;
          again := false;
        } else if continuing > 0 {
          continuing := continuing - 1;
          again := continuing == 0;
        }
      }
    }

    method ExecuteWhile(isUntil: bool, test: Command, action: Command, ignore: bool) returns (result: Result)
      requires breaking == 0 && continuing == 0
      requires Ready(test, true) && Ready(action, ignore) && Nodes(test) !! Nodes(action)
      modifies this, Nodes(test), Nodes(action)
      ensures Ready(test, true) && Ready(action, ignore)
      ensures Shows(RunBody(While(isUntil, test.ast, action.ast), ignore, old(level), old(world)), result)
      decreases world.polls, 3
    {
      level := level + 1;
      Mark(test, true);
      Mark(action, ignore);
      result := WhileOrUntil(isUntil, test, action, ignore);
      if result.Status? {
        level := level - 1;
      }
    }

    /** The loop both while and until share. */
    method WhileOrUntil(isUntil: bool, test: Command, action: Command, ignore: bool) returns (result: Result)
      requires breaking == 0 && continuing == 0 && level > 0
      requires Marked(test, true) && Marked(action, ignore) && Nodes(test) !! Nodes(action)
      modifies this, Nodes(test), Nodes(action)
      ensures Marked(test, true) && Marked(action, ignore)
      ensures Shows(WhileLoop(isUntil, test.ast, action.ast, 0, ignore, old(level), old(world)), result)
      decreases world.polls, 2
    {
      var bodyStatus := 0;
      while true
        invariant breaking == 0 && continuing == 0 && level > 0
        invariant Marked(test, true) && Marked(action, ignore)
        invariant WhileLoop(isUntil, test.ast, action.ast, bodyStatus, ignore, level, world)
               == WhileLoop(isUntil, test.ast, action.ast, 0, ignore, old(level), old(world))
        invariant world.polls <= old(world.polls)
        decreases world.polls
      {
        ghost var t0 := Run(test.ast, true, level, world);
        var t := Execute(test, true);
        if !t.Status? {
          return t;
        }
        if isUntil == (t.s == 0) {
          if breaking > 0 {
            breaking := breaking - 1;
          }
          if continuing > 0 {
            continuing := continuing - 1;
          }
          return Status(bodyStatus);
        }
        if world.polls == 0 {
          return Thrown;
        }
        world := world.(polls := world.polls - 1);
        var r, again := Turn(action, ignore, t0.out);
        if !again {
          return r;
        }
        bodyStatus := r.s;
      }
    }

    method ExecuteFor(action: Command, ignore: bool) returns (result: Result)
      requires breaking == 0 && continuing == 0 && Ready(action, ignore)
      modifies this, Nodes(action)
      ensures Ready(action, ignore)
      ensures Shows(RunBody(For(action.ast), ignore, old(level), old(world)), result)
      decreases world.polls, 3
    {
      level := level + 1;
      var words := Draw();
      Mark(action, ignore);
      result := ForWords(words, action, ignore);
      if result.Status? {
        level := level - 1;
      }
    }

    method ForWords(words: int, action: Command, ignore: bool) returns (result: Result)
      requires breaking == 0 && continuing == 0 && level > 0 && Marked(action, ignore)
      modifies this, Nodes(action)
      ensures Marked(action, ignore)
      ensures Shows(ForLoop(words, 0, action.ast, ignore, old(level), old(world)), result)
      decreases world.polls, 2
    {
      var retval := 0;
      var left := words;
      while left > 0
        invariant breaking == 0 && continuing == 0 && level > 0 && Marked(action, ignore)
        invariant ForLoop(left, retval, action.ast, ignore, level, world)
               == ForLoop(words, 0, action.ast, ignore, old(level), old(world))
        invariant world.polls <= old(world.polls)
        decreases left
      {
        if world.polls == 0 {
          return Thrown;
        }
        world := world.(polls := world.polls - 1);
        var failed := Draw();
        if failed != 0 {
          return Status(1);
        }
        var r, again := Turn(action, ignore, Done(0));
        if !again {
          return r;
        }
        retval := r.s;
        left := left - 1;
      }
      result := Status(retval);
    }

    /** A failed initialisation returns at once, without giving its loop level back. */
    method ExecuteArithFor(action: Command, ignore: bool) returns (result: Result)
      requires breaking == 0 && continuing == 0 && Ready(action, ignore)
      modifies this, Nodes(action)
      ensures Ready(action, ignore)
      ensures Shows(RunBody(ArithFor(action.ast), ignore, old(level), old(world)), result)
      decreases world.polls, 3
    {
      level := level + 1;
      Mark(action, ignore);
      var init := Draw();
      if init < 0 {
        world := world.(initFailures := world.initFailures + 1);
        return Status(1);
      }
      result := ArithTurns(action, ignore);
      if result.Status? {
        level := level - 1;
      }
    }

    method ArithTurns(action: Command, ignore: bool) returns (result: Result)
      requires breaking == 0 && continuing == 0 && level > 0 && Marked(action, ignore)
      modifies this, Nodes(action)
      ensures Marked(action, ignore)
      ensures Shows(ArithLoop(0, action.ast, ignore, old(level), old(world)), result)
      decreases world.polls, 2
    {
      var bodyStatus := 0;
      while true
        invariant breaking == 0 && continuing == 0 && level > 0 && Marked(action, ignore)
        invariant ArithLoop(bodyStatus, action.ast, ignore, level, world)
               == ArithLoop(0, action.ast, ignore, old(level), old(world))
        invariant world.polls <= old(world.polls)
        decreases world.polls
      {
        var test := Draw();
        if test < 0 {
          return Status(1);
        }
        if test == 0 {
          return Status(bodyStatus);
        }
        if world.polls == 0 {
          return Thrown;
        }
        world := world.(polls := world.polls - 1);
        var r, again := Turn(action, ignore, Done(0));
        if !again {
          return r;
        }
        bodyStatus := r.s;
        var step := Draw();
        if step < 0 {
          return Status(1);
        }
      }
    }

    method ExecuteCase(c: Command) returns (result: Result)
      requires Entered(c) && c.kind.KCase? && c.partIgnore == c.ignore
      modifies this, c.repr
      ensures c.Sound(c.ignore) && c.ignore == old(c.ignore)
      ensures Shows(RunBody(c.ast.body, c.ignore, old(level), old(world)), result)
      decreases world.polls, 3
    {
      assert c.ClausesTree(c.kind.clauses, c.ast.body.clauses);
      result := ExecuteClauses(c, c.kind.clauses, c.ast.body.clauses, 0);
    }

    /** What a case command has come to so far. */
    ghost function Pending(retval: int): Out
      reads this
    {
      if breaking > 0 then Break(breaking, retval)
      else if continuing > 0 then Continue(continuing, retval)
      else Done(retval)
    }

    ghost predicate CanResume(retval: int)
      reads this
    {
      (breaking == 0 || continuing == 0) && breaking <= level && continuing <= level
      && (breaking > 0 || continuing > 0 ==> last == retval)
    }

    /** The clauses from cs on, none of them matched yet. */
    method ExecuteClauses(c: Command, cs: KClauses, ghost cl: Clauses, retval: int) returns (result: Result)
      requires c.Tree() && cl < c.ast && c.ClausesTree(cs, cl) && c.SoundClauses(cs, cl, c.ignore)
      requires CanResume(retval)
      modifies this, ClauseNodes(cs)
      ensures c.SoundClauses(cs, cl, c.ignore) && c.ignore == old(c.ignore)
      ensures Shows(RunClauses(cl, old(Pending(retval)), c.ignore, old(level), old(world)), result)
      decreases world.polls, 2, cs, 1
    {
      if cs.KNoClauses? {
        return Status(retval);
      }
      var matched := Draw();
      if matched == 0 {
        result := ExecuteClauses(c, cs.next, cl.next, retval);
      } else {
        result := ExecuteMatched(c, cs, cl, retval);
      }
    }

    /** The clause cs matched; ;& runs on into the next one, ;;& goes on matching. */
    method ExecuteMatched(c: Command, cs: KClauses, ghost cl: Clauses, retval: int) returns (result: Result)
      requires c.Tree() && cl < c.ast && c.ClausesTree(cs, cl) && c.SoundClauses(cs, cl, c.ignore)
      requires CanResume(retval) && cs.KClause?
      modifies this, ClauseNodes(cs)
      ensures c.SoundClauses(cs, cl, c.ignore) && c.ignore == old(c.ignore)
      ensures Shows(RunMatched(cl, old(Pending(retval)), c.ignore, old(level), old(world)), result)
      decreases world.polls, 2, cs, 0
    {
      result := ExecutePart(cs.action, c.ignore);
      if !result.Status? {
        return;
      }
      if cs.fallThrough {
        if cs.next.KClause? {
          result := ExecuteMatched(c, cs.next, cl.next, result.s);
        }
      } else if cs.testNext {
        result := ExecuteClauses(c, cs.next, cl.next, result.s);
      }
    }
  }
}
