/**
 Where a pending jump or an exit comes from.  A command that comes to break or continue does so
 because a break or continue inside it, at the end of some path, names more loops than enclose
 it; and one that exits does so because a command inside it failed where failure counts.
 */
module CommandJumps {
  import opened Options
  import opened CommandMeaning
  import opened CommandContexts

  function Around(p: Place): nat {
    if IsLoop(p) then 1 else 0
  }

  /** What ends every loop and list it is in, or may. */
  predicate Leaves(out: Out) {
    IsJump(out) || out.Exit?
  }

  /** The step's command comes to an exit, or to a jump that goes on with one loop less if the place is a loop. */
  predicate Raises(st: Step, ignored: bool, q: Res) {
    var r := There(st, ignored);
    if q.out.Exit? then r.out == q.out && r.w == q.w
    else IsJump(r.out) && IsJump(q.out) && q.out.n + Around(st.place) == r.out.n && q.out.Break? == r.out.Break?
  }

  lemma {:induction false} ForJump(words: int, s: int, action: Cmd, ignored: bool, level: nat, w: World)
    returns (st: Step)
    requires level > 0 && Leaves(ForLoop(words, s, action, ignored, level, w).out)
    ensures st.place.InFor? && st.cmd == action && ForComesTo(words, ignored, level, w, st) && st.w.polls <= w.polls
    ensures Raises(st, ignored, ForLoop(words, s, action, ignored, level, w))
    decreases w.polls
  {
    var w1 := Drawn(w).(polls := w.polls - 1);
    var r := Run(action, ignored, level, w1);
    assert Pass(Done(0), action, ignored, level, w1) == r;
    if Resumes(r.out) {
      st := ForJump(words - 1, r.out.s, action, ignored, r.level, r.w);
    } else {
      st := Step(InFor(words), action, level, w1);
    }
  }

  lemma {:induction false} ArithJump(s: int, action: Cmd, ignored: bool, level: nat, w: World) returns (st: Step)
    requires level > 0 && Leaves(ArithLoop(s, action, ignored, level, w).out)
    ensures st.place.InArith? && st.cmd == action && ArithComesTo(ignored, level, w, st) && st.w.polls <= w.polls
    ensures Raises(st, ignored, ArithLoop(s, action, ignored, level, w))
    decreases w.polls
  {
    var w1 := Drawn(w).(polls := w.polls - 1);
    var r := Run(action, ignored, level, w1);
    assert Pass(Done(0), action, ignored, level, w1) == r;
    if Resumes(r.out) {
      st := ArithJump(r.out.s, action, ignored, r.level, Drawn(r.w));
    } else {
      st := Step(InArith, action, level, w1);
    }
  }

  lemma {:induction false} WhileJump(isUntil: bool, test: Cmd, action: Cmd, s: int, ignored: bool, level: nat, w: World)
    returns (st: Step)
    requires level > 0 && Leaves(WhileLoop(isUntil, test, action, s, ignored, level, w).out)
    ensures (st.place.InTest? && st.place.isUntil == isUntil && st.place.action == action && st.cmd == test)
            || (st.place == InBody(isUntil, test) && st.cmd == action)
    ensures WhileComesTo(isUntil, test, action, s, ignored, level, w, st) && st.w.polls <= w.polls
    ensures Raises(st, ignored, WhileLoop(isUntil, test, action, s, ignored, level, w))
    decreases w.polls
  {
    var t := Run(test, true, level, w);
    if t.out.Exit? || (IsJump(t.out) && (Ends(isUntil, t.out.s) || !Resumes(t.out))) {
      st := Step(InTest(isUntil, action, s), test, level, w);
    } else {
      var w1 := t.w.(polls := t.w.polls - 1);
      var r := Pass(t.out, action, ignored, t.level, w1);
      if Resumes(r.out) {
        st := WhileJump(isUntil, test, action, r.out.s, ignored, r.level, r.w);
      } else {
        st := Step(InBody(isUntil, test), action, t.level, w1);
      }
    }
  }

  lemma {:induction false} ClausesJump(cl: Clauses, s: int, ignored: bool, level: nat, w: World) returns (st: Step)
    requires Leaves(RunClauses(cl, Done(s), ignored, level, w).out)
    ensures st.place.InClause? && ClausesComeTo(cl, ignored, level, w, st) && st.w.polls <= w.polls
    ensures Raises(st, ignored, RunClauses(cl, Done(s), ignored, level, w))
    decreases cl, 1
  {
    if Peek(w) == 0 {
      st := ClausesJump(cl.next, s, ignored, level, Drawn(w));
    } else {
      st := MatchJump(cl, s, ignored, level, Drawn(w));
    }
  }

  lemma {:induction false} MatchJump(cl: Clauses, s: int, ignored: bool, level: nat, w: World) returns (st: Step)
    requires cl.Clause? && Leaves(RunMatched(cl, Done(s), ignored, level, w).out)
    ensures st.place.InClause? && MatchComesTo(cl, ignored, level, w, st) && st.w.polls <= w.polls
    ensures Raises(st, ignored, RunMatched(cl, Done(s), ignored, level, w))
    decreases cl, 0
  {
    var r := RunOpt(cl.action, ignored, level, w);
    if Leaves(r.out) {
      st := Step(InClause(cl), cl.action.value, level, w);
      if IsJump(r.out) {
        PassedOn(cl, r, ignored);
      }
    } else if cl.fallThrough {
      st := MatchJump(cl.next, r.out.s, ignored, r.level, r.w);
    } else {
      st := ClausesJump(cl.next, r.out.s, ignored, r.level, r.w);
    }
  }

  /** Behind a jump the clauses of a case do nothing. */
  lemma {:induction false} ClausesPassed(cl: Clauses, acc: Out, ignored: bool, level: nat, w: World)
    requires IsJump(acc) && 1 <= acc.n <= level
    ensures var q := RunClauses(cl, acc, ignored, level, w); q.out == acc && q.level == level && Undisturbed(w, q.w)
    decreases cl, 1
  {
    if cl.Clause? {
      if Peek(w) == 0 {
        ClausesPassed(cl.next, acc, ignored, level, Drawn(w));
      } else {
        MatchPassed(cl, acc, ignored, level, Drawn(w));
      }
    }
  }

  lemma {:induction false} MatchPassed(cl: Clauses, acc: Out, ignored: bool, level: nat, w: World)
    requires cl.Clause? && IsJump(acc) && 1 <= acc.n <= level
    ensures var q := RunMatched(cl, acc, ignored, level, w); q.out == acc && q.level == level && Undisturbed(w, q.w)
    decreases cl, 0
  {
    if cl.fallThrough {
      if cl.next.Clause? {
        MatchPassed(cl.next, acc, ignored, level, w);
      }
    } else if cl.testNext {
      ClausesPassed(cl.next, acc, ignored, level, w);
    }
  }

  /** Nothing has been executed between the two worlds; words and patterns may have been drawn. */
  predicate Undisturbed(w: World, w': World) {
    w'.trace == w.trace && w'.initFailures == w.initFailures
  }

  lemma PassedOn(cl: Clauses, r: Res, ignored: bool)
    requires cl.Clause? && IsJump(r.out) && Fits(r)
    ensures var q := AfterClause(cl, r, ignored); q.out == r.out && q.level == r.level && Undisturbed(r.w, q.w)
  {
    if cl.fallThrough {
      if cl.next.Clause? {
        MatchPassed(cl.next, r.out, ignored, r.level, r.w);
      }
    } else if cl.testNext {
      ClausesPassed(cl.next, r.out, ignored, r.level, r.w);
    }
  }

  /** One step towards the break or continue. */
  lemma JumpStep(c: Cmd, ignored: bool, level: nat, w: World) returns (st: Step)
    requires Leaves(Run(c, ignored, level, w).out) && !c.body.Jump? && !c.body.Simple?
    ensures Enters(c, ignored, level, w, st) && st.w.polls < w.polls
    ensures Raises(st, ignored || c.invert, Run(c, ignored, level, w))
  {
    var e, w1 := ignored || c.invert, w.(polls := w.polls - 1);
    assert Run(c, ignored, level, w) == Inverting(c, RunBody(c.body, e, level, w1));
    match c.body
    case For(_) => st := LoopJump(c, ignored, level, w);
    case ArithFor(_) => st := LoopJump(c, ignored, level, w);
    case While(_, _, _) => st := LoopJump(c, ignored, level, w);
    case Case(clauses) => st := ClausesJump(clauses, 0, e, level, w1);
    case Group(inner) =>
      assert RunBody(c.body, e, level, w1) == RunOpt(inner, e, level, w1);
      st := Step(Within, inner.value, level, w1);
    case If(_, _, _) => st := IfJump(c, ignored, level, w);
    case Connection(_, _, _) => st := ListJump(c, ignored, level, w);
  }

  lemma LoopJump(c: Cmd, ignored: bool, level: nat, w: World) returns (st: Step)
    requires Leaves(Run(c, ignored, level, w).out) && (c.body.For? || c.body.ArithFor? || c.body.While?)
    ensures Enters(c, ignored, level, w, st) && st.w.polls < w.polls
    ensures Raises(st, ignored || c.invert, Run(c, ignored, level, w))
  {
    var e, w1 := ignored || c.invert, w.(polls := w.polls - 1);
    assert Run(c, ignored, level, w) == Inverting(c, RunBody(c.body, e, level, w1));
    match c.body
    case For(action) =>
      assert RunBody(c.body, e, level, w1) == LeaveLoop(ForLoop(Peek(w1), 0, action, e, level + 1, Drawn(w1)));
      st := ForJump(Peek(w1), 0, action, e, level + 1, Drawn(w1));
    case ArithFor(action) =>
      assert RunBody(c.body, e, level, w1) == LeaveLoop(ArithLoop(0, action, e, level + 1, Drawn(w1)));
      st := ArithJump(0, action, e, level + 1, Drawn(w1));
    case While(isUntil, test, action) =>
      assert RunBody(c.body, e, level, w1) == LeaveLoop(WhileLoop(isUntil, test, action, 0, e, level + 1, w1));
      st := WhileJump(isUntil, test, action, 0, e, level + 1, w1);
  }

  lemma IfJump(c: Cmd, ignored: bool, level: nat, w: World) returns (st: Step)
    requires Leaves(Run(c, ignored, level, w).out) && c.body.If?
    ensures Enters(c, ignored, level, w, st) && st.w.polls < w.polls
    ensures Raises(st, ignored || c.invert, Run(c, ignored, level, w))
  {
    var e, w1 := ignored || c.invert, w.(polls := w.polls - 1);
    var b := c.body;
    var r := Run(b.test, true, level, w1);
    assert Run(c, ignored, level, w) == Inverting(c, RunBody(b, e, level, w1));
    var branch := if r.out.Done? && r.out.s == 0 then b.thenCase else b.elseCase;
    assert RunBody(b, e, level, w1) == if r.out.Done? then RunOpt(branch, e, r.level, r.w) else r;
    if Leaves(r.out) {
      st := Step(TestOf(b.thenCase, b.elseCase), b.test, level, w1);
    } else {
      st := Step(BranchOf, branch.value, r.level, r.w);
    }
  }

  lemma ListJump(c: Cmd, ignored: bool, level: nat, w: World) returns (st: Step)
    requires Leaves(Run(c, ignored, level, w).out) && c.body.Connection?
    ensures Enters(c, ignored, level, w, st) && st.w.polls < w.polls
    ensures Raises(st, ignored || c.invert, Run(c, ignored, level, w))
  {
    var e, w1 := ignored || c.invert, w.(polls := w.polls - 1);
    var b := c.body;
    var r := RunOpt(b.first, e || !b.op.Semicolon?, level, w1);
    var on := r.out.Done? && (b.op.Semicolon? || (b.op.AndAnd? <==> r.out.s == 0));
    assert Run(c, ignored, level, w) == Inverting(c, RunBody(b, e, level, w1));
    assert RunBody(b, e, level, w1) == if on then RunOpt(b.second, e, r.level, r.w) else r;
    if Leaves(r.out) {
      st := Step(LeftOf(b.op, b.second), b.first.value, level, w1);
    } else {
      st := Step(RightOf, b.second.value, r.level, r.w);
    }
  }

  // ---- break and continue as they are written ---------------------------------------------

  /** A break or continue that is executed inside loops, and is no error that counts. */
  predicate Jumps(e: Spot) {
    e.cmd.body.Jump? && e.level > 0 && e.w.polls > 0 && (e.cmd.body.n >= 1 || e.ignored || e.cmd.invert)
  }

  /** The loops it leaves or resumes: as many as it says, or as there are; after an error all of them. */
  function Named(e: Spot): nat
    requires Jumps(e)
  {
    if 1 <= e.cmd.body.n <= e.level then e.cmd.body.n else e.level
  }

  /** What it comes to: `continue` goes on as such, and an error leaves as break does, with status 1. */
  function JumpThere(e: Spot): Out
    requires Jumps(e)
  {
    var s := if (e.cmd.body.n >= 1) == e.cmd.invert then 1 else 0;
    if e.cmd.body.n >= 1 && !e.cmd.body.isBreak then Continue(Named(e), s) else Break(Named(e), s)
  }

  lemma JumpRuns(e: Spot)
    requires e.cmd.body.Jump?
    ensures Jumps(e) ==> Run(e.cmd, e.ignored, e.level, e.w) == Res(JumpThere(e), e.level, e.w.(polls := e.w.polls - 1))
    ensures !Jumps(e) ==> !IsJump(Run(e.cmd, e.ignored, e.level, e.w).out)
  {
  }

  /** A break or continue, at the end of the path, that names more loops than the path has. */
  ghost predicate Overshoots(c: Cmd, ignored: bool, level: nat, w: World, path: seq<Step>) {
    Follows(c, ignored, level, w, path)
    && var e := End(c, ignored, level, w, path); Jumps(e) && Loops(path) < Named(e)
  }

  lemma {:induction false} JumpPath(c: Cmd, ignored: bool, level: nat, w: World) returns (path: seq<Step>)
    requires IsJump(Run(c, ignored, level, w).out)
    ensures Overshoots(c, ignored, level, w, path)
    ensures var q, r := Run(c, ignored, level, w).out, JumpThere(End(c, ignored, level, w, path));
            q.Break? == r.Break? && q.n == r.n - Loops(path)
    decreases w.polls
  {
    if c.body.Jump? {
      path := [];
      JumpRuns(Spot(c, ignored, level, w));
    } else {
      var st := JumpStep(c, ignored, level, w);
      var rest := JumpPath(st.cmd, Inside(st.place, ignored || c.invert), st.level, st.w);
      path := [st] + rest;
      assert path[1..] == rest;
    }
  }

  // ---- exits -------------------------------------------------------------------------------

  /**
   A command executed where its failure counts, which fails with status s: a simple command whose
   status is s, or a break or continue inside a loop with a count below 1.
   */
  predicate Fails(e: Spot, s: int) {
    e.w.polls > 0 && !e.ignored && !e.cmd.invert
    && ((e.cmd.body.Simple? && s == Peek(e.w) && s != 0)
        || (e.cmd.body.Jump? && e.level > 0 && e.cmd.body.n < 1 && s == 1))
  }

  /** The world in which it failed, the command itself on record. */
  function FailedIn(e: Spot): World
    requires e.w.polls > 0
  {
    var w := e.w.(polls := e.w.polls - 1);
    if e.cmd.body.Simple? then Drawn(w).(trace := w.trace + [e.cmd.body.id]) else w
  }

  lemma FailureExits(e: Spot, s: int)
    requires e.cmd.body.Simple? || e.cmd.body.Jump?
    ensures var r := Run(e.cmd, e.ignored, e.level, e.w);
            r.out == Exit(s) <==> Fails(e, s)
    ensures var r := Run(e.cmd, e.ignored, e.level, e.w);
            r.out.Exit? ==> r.w == FailedIn(e)
  {
  }

  /** An exit passes through every place: nothing that stands behind it is executed. */
  lemma {:induction false} ExitPasses(c: Cmd, ignored: bool, level: nat, w: World, path: seq<Step>)
    requires Follows(c, ignored, level, w, path) && Innermost(c, ignored, level, w, path).out.Exit?
    ensures var r, q := Innermost(c, ignored, level, w, path), Run(c, ignored, level, w); q.out == r.out && q.w == r.w
    decreases |path|
  {
    if path != [] {
      var st, e := path[0], ignored || c.invert;
      ExitPasses(st.cmd, Inside(st.place, e), st.level, st.w, path[1..]);
      RunIsAfter(c, ignored, level, w, st);
    }
  }

  lemma {:induction false} ExitPath(c: Cmd, ignored: bool, level: nat, w: World) returns (path: seq<Step>)
    requires Run(c, ignored, level, w).out.Exit?
    ensures Follows(c, ignored, level, w, path)
    ensures var e := End(c, ignored, level, w, path);
            Fails(e, Run(c, ignored, level, w).out.s) && Run(c, ignored, level, w).w == FailedIn(e)
    decreases w.polls
  {
    if c.body.Jump? || c.body.Simple? {
      path := [];
      FailureExits(Spot(c, ignored, level, w), Run(c, ignored, level, w).out.s);
    } else {
      var st := JumpStep(c, ignored, level, w);
      var rest := ExitPath(st.cmd, Inside(st.place, ignored || c.invert), st.level, st.w);
      path := [st] + rest;
      assert path[1..] == rest;
    }
  }

  /** The failure at the end of the path. */
  ghost predicate FailsAt(c: Cmd, ignored: bool, level: nat, w: World, path: seq<Step>, s: int) {
    Follows(c, ignored, level, w, path) && Fails(End(c, ignored, level, w, path), s)
  }

  /**
   The law of set -e: a run ends in Exit(s) if and only if some command in it is executed, where
   failure is not ignored, and fails with status s; and that is the last thing it does.
   */
  lemma ExitExactly(c: Cmd, ignored: bool, level: nat, w: World, s: int)
    ensures Run(c, ignored, level, w).out == Exit(s) <==> exists path :: FailsAt(c, ignored, level, w, path, s)
    ensures forall path :: FailsAt(c, ignored, level, w, path, s) ==>
              Run(c, ignored, level, w).w == FailedIn(End(c, ignored, level, w, path))
  {
    if Run(c, ignored, level, w).out == Exit(s) {
      var path := ExitPath(c, ignored, level, w);
      assert FailsAt(c, ignored, level, w, path, s);
    }
    forall path | FailsAt(c, ignored, level, w, path, s)
      ensures Run(c, ignored, level, w).out == Exit(s)
      ensures Run(c, ignored, level, w).w == FailedIn(End(c, ignored, level, w, path))
    {
      FailureExits(End(c, ignored, level, w, path), s);
      ExitPasses(c, ignored, level, w, path);
    }
  }
}
