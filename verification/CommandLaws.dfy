/**
 Statuses, spelt out: what `!` makes of one, which ones let a while or an until go on, and
 what a construct comes to that has nothing to execute or meets an error.
 */
module CommandLaws {
  import opened Options
  import opened CommandMeaning
  import opened CommandContexts

  /** ! turns success into failure with status 1 and every failure into success, and ignores failures inside. */
  lemma Negation(b: Body, ignored: bool, level: nat, w: World)
    ensures var r, q := Run(Cmd(false, b), true, level, w), Run(Cmd(true, b), ignored, level, w);
            q.level == r.level && q.w == r.w && (r.out.Done? <==> q.out.Done?)
            && (r.out == Done(0) ==> q.out == Done(1)) && (r.out.Done? && r.out.s != 0 ==> q.out == Done(0))
  {
    var w1 := if w.polls == 0 then w else w.(polls := w.polls - 1);
    assert w.polls > 0 ==> Run(Cmd(false, b), true, level, w) == RunBody(b, true, level, w1);
    assert w.polls > 0 ==> Run(Cmd(true, b), ignored, level, w) == Inverting(Cmd(true, b), RunBody(b, true, level, w1));
  }

  /**
   A while executes its body after a test with status 0, an until after any other; after the
   first test that says no it is over, with status 0.
   */
  lemma TestDecides(isUntil: bool, test: Cmd, action: Cmd, ignored: bool, level: nat, w: World)
    requires w.polls > 0
    ensures var c, t := Cmd(false, While(isUntil, test, action)), Run(test, true, level + 1, w.(polls := w.polls - 1));
            t.out.Done? ==>
              if isUntil == (t.out.s == 0) then
                Run(c, ignored, level, w) == Res(Done(0), t.level - 1, t.w)
              else
                t.w.polls > 0 ==>
                  Enters(c, ignored, level, w,
                         Step(InBody(isUntil, test), action, t.level, t.w.(polls := t.w.polls - 1)))
  {
    var c, w1 := Cmd(false, While(isUntil, test, action)), w.(polls := w.polls - 1);
    var t := Run(test, true, level + 1, w1);
    assert Run(c, ignored, level, w) == LeaveLoop(WhileLoop(isUntil, test, action, 0, ignored, level + 1, w1));
    if t.out.Done? && isUntil != (t.out.s == 0) && t.w.polls > 0 {
      var st := Step(InBody(isUntil, test), action, t.level, t.w.(polls := t.w.polls - 1));
      assert WhileComesTo(isUntil, test, action, 0, ignored, level + 1, w1, st);
    }
  }

  /** An empty group, an if without the branch asked for, and a for without words come to status 0. */
  lemma NothingToDo(test: Cmd, action: Cmd, ignored: bool, level: nat, w: World)
    requires w.polls > 0
    ensures var w1 := w.(polls := w.polls - 1);
            Run(Cmd(false, Group(None)), ignored, level, w) == Res(Done(0), level, w1)
            && (Peek(w) <= 0 ==> Run(Cmd(false, For(action)), ignored, level, w) == Res(Done(0), level, Drawn(w1)))
            && var t := Run(test, true, level, w1);
               t.out.Done? ==> Run(Cmd(false, If(test, None, None)), ignored, level, w) == Res(Done(0), t.level, t.w)
  {
    var w1 := w.(polls := w.polls - 1);
    var t := Run(test, true, level, w1);
    assert Run(Cmd(false, Group(None)), ignored, level, w) == RunBody(Group(None), ignored, level, w1);
    assert Run(Cmd(false, For(action)), ignored, level, w) == RunBody(For(action), ignored, level, w1);
    assert Run(Cmd(false, If(test, None, None)), ignored, level, w)
        == RunBody(If(test, None, None), ignored, level, w1);
    assert RunOpt(None, ignored, t.level, t.w) == Res(Done(0), t.level, t.w);
  }

  /** The patterns of these clauses are matched, and none matches. */
  predicate NoMatch(cl: Clauses, w: World) {
    cl.Clause? ==> Peek(w) == 0 && NoMatch(cl.next, Drawn(w))
  }

  lemma {:induction false} CaseUnmatched(cl: Clauses, ignored: bool, level: nat, w: World)
    requires NoMatch(cl, w)
    ensures RunClauses(cl, Done(0), ignored, level, w).out == Done(0)
    ensures Undrawn(w, RunClauses(cl, Done(0), ignored, level, w).w)
    decreases cl
  {
    if cl.Clause? {
      CaseUnmatched(cl.next, ignored, level, Drawn(w));
    }
  }

  predicate Undrawn(w: World, w': World) {
    w'.trace == w.trace && w'.polls == w.polls && w'.initFailures == w.initFailures
  }

  /** A case that matches nothing comes to status 0 and executes nothing. */
  lemma NothingMatched(cl: Clauses, ignored: bool, level: nat, w: World)
    requires w.polls > 0 && NoMatch(cl, w.(polls := w.polls - 1))
    ensures var q := Run(Cmd(false, Case(cl)), ignored, level, w);
            q.out == Done(0) && Undrawn(w.(polls := w.polls - 1), q.w)
  {
    var w1 := w.(polls := w.polls - 1);
    CaseUnmatched(cl, ignored, level, w1);
    assert Run(Cmd(false, Case(cl)), ignored, level, w) == RunBody(Case(cl), ignored, level, w1);
  }

  /** A for whose variable cannot be bound, or with an error in one of its expressions, comes to status 1. */
  lemma LoopErrors(action: Cmd, ignored: bool, level: nat, w: World)
    requires w.polls > 1
    ensures Peek(w) > 0 && Peek(Drawn(w)) != 0 ==> Run(Cmd(false, For(action)), ignored, level, w).out == Done(1)
    ensures Peek(w) < 0 || (Peek(w) >= 0 && Peek(Drawn(w)) < 0) ==>
              Run(Cmd(false, ArithFor(action)), ignored, level, w).out == Done(1)
    ensures Peek(w) >= 0 && Peek(Drawn(w)) == 0 ==> Run(Cmd(false, ArithFor(action)), ignored, level, w).out == Done(0)
  {
    var w1 := w.(polls := w.polls - 1);
    var d := Drawn(w1);
    assert Peek(d) == Peek(Drawn(w)) && d.polls > 0;
    if Peek(w) > 0 && Peek(d) != 0 {
      assert ForLoop(Peek(w1), 0, action, ignored, level + 1, d).out == Done(1);
      assert Run(Cmd(false, For(action)), ignored, level, w) == RunBody(For(action), ignored, level, w1);
    }
    if Peek(w) >= 0 && Peek(d) <= 0 {
      assert ArithLoop(0, action, ignored, level + 1, d).out == if Peek(d) < 0 then Done(1) else Done(0);
    }
    assert Run(Cmd(false, ArithFor(action)), ignored, level, w) == RunBody(ArithFor(action), ignored, level, w1);
  }
}
