/**
 Polls are only a bound on how much of a run is seen: a run that is not interrupted is the
 same, in outcome, level, trace and oracle, however many more polls there are.
 */
module CommandPolls {
  import opened Options
  import opened CommandMeaning

  function More(w: World, k: nat): World {
    w.(polls := w.polls + k)
  }

  function MoreRes(r: Res, k: nat): Res {
    r.(w := More(r.w, k))
  }

  lemma {:induction false} RunMore(c: Cmd, ignored: bool, level: nat, w: World, k: nat)
    requires Run(c, ignored, level, w).out != Interrupted
    ensures Run(c, ignored, level, More(w, k)) == MoreRes(Run(c, ignored, level, w), k)
    decreases w.polls, 0
  {
    var w1 := w.(polls := w.polls - 1);
    assert More(w, k).(polls := More(w, k).polls - 1) == More(w1, k);
    BodyMore(c.body, ignored || c.invert, level, w1, k);
  }

  lemma {:induction false} OptMore(c: Option<Cmd>, ignored: bool, level: nat, w: World, k: nat)
    requires RunOpt(c, ignored, level, w).out != Interrupted
    ensures RunOpt(c, ignored, level, More(w, k)) == MoreRes(RunOpt(c, ignored, level, w), k)
    decreases w.polls, 1
  {
    if c.Some? {
      RunMore(c.value, ignored, level, w, k);
    }
  }

  lemma {:induction false} BodyMore(b: Body, ignored: bool, level: nat, w: World, k: nat)
    requires RunBody(b, ignored, level, w).out != Interrupted
    ensures RunBody(b, ignored, level, More(w, k)) == MoreRes(RunBody(b, ignored, level, w), k)
    decreases w.polls, 4
  {
    DrawnMore(w, k);
    match b
    case Simple(_) =>
    case Jump(_, _) =>
    case For(action) => ForMore(Peek(w), 0, action, ignored, level + 1, Drawn(w), k);
    case ArithFor(action) =>
      if Peek(w) >= 0 {
        ArithMore(0, action, ignored, level + 1, Drawn(w), k);
      }
    case While(isUntil, test, action) => WhileMore(isUntil, test, action, 0, ignored, level + 1, w, k);
    case If(test, thenCase, elseCase) =>
      RunMore(test, true, level, w, k);
      var r := Run(test, true, level, w);
      if r.out.Done? {
        OptMore(if r.out.s == 0 then thenCase else elseCase, ignored, r.level, r.w, k);
      }
    case Case(clauses) => ClausesMore(clauses, Done(0), ignored, level, w, k);
    case Group(inner) => OptMore(inner, ignored, level, w, k);
    case Connection(op, first, second) =>
      OptMore(first, ignored || !op.Semicolon?, level, w, k);
      var r := RunOpt(first, ignored || !op.Semicolon?, level, w);
      if r.out.Done? && (op.Semicolon? || (op.AndAnd? <==> r.out.s == 0)) {
        OptMore(second, ignored, r.level, r.w, k);
      }
  }

  lemma DrawnMore(w: World, k: nat)
    ensures Peek(More(w, k)) == Peek(w) && Drawn(More(w, k)) == More(Drawn(w), k)
  {
  }

  lemma {:induction false} PassMore(test: Out, action: Cmd, ignored: bool, level: nat, w: World, k: nat)
    requires test.Break? || test.Continue? ==> 1 <= test.n <= level
    requires Pass(test, action, ignored, level, w).out != Interrupted
    ensures Pass(test, action, ignored, level, More(w, k)) == MoreRes(Pass(test, action, ignored, level, w), k)
    decreases w.polls, 1
  {
    if test.Done? {
      RunMore(action, ignored, level, w, k);
    }
  }

  lemma {:induction false} ForMore(left: int, s: int, action: Cmd, ignored: bool, level: nat, w: World, k: nat)
    requires level > 0 && ForLoop(left, s, action, ignored, level, w).out != Interrupted
    ensures ForLoop(left, s, action, ignored, level, More(w, k))
            == MoreRes(ForLoop(left, s, action, ignored, level, w), k)
    decreases w.polls, 2
  {
    DrawnMore(w, k);
    if left > 0 && w.polls > 0 && Peek(w) == 0 {
      var w1 := Drawn(w).(polls := w.polls - 1);
      assert Drawn(More(w, k)).(polls := More(w, k).polls - 1) == More(w1, k);
      PassMore(Done(0), action, ignored, level, w1, k);
      var r := Pass(Done(0), action, ignored, level, w1);
      if Resumes(r.out) {
        ForMore(left - 1, r.out.s, action, ignored, r.level, r.w, k);
      }
    }
  }

  lemma {:induction false} ArithMore(s: int, action: Cmd, ignored: bool, level: nat, w: World, k: nat)
    requires level > 0 && ArithLoop(s, action, ignored, level, w).out != Interrupted
    ensures ArithLoop(s, action, ignored, level, More(w, k)) == MoreRes(ArithLoop(s, action, ignored, level, w), k)
    decreases w.polls, 2
  {
    DrawnMore(w, k);
    if Peek(w) > 0 && w.polls > 0 {
      var w1 := Drawn(w).(polls := w.polls - 1);
      assert Drawn(More(w, k)).(polls := More(w, k).polls - 1) == More(w1, k);
      PassMore(Done(0), action, ignored, level, w1, k);
      var r := Pass(Done(0), action, ignored, level, w1);
      DrawnMore(r.w, k);
      if Resumes(r.out) && Peek(r.w) >= 0 {
        ArithMore(r.out.s, action, ignored, r.level, Drawn(r.w), k);
      }
    }
  }

  lemma {:induction false} WhileMore(isUntil: bool, test: Cmd, action: Cmd, s: int, ignored: bool, level: nat,
                                     w: World, k: nat)
    requires level > 0 && WhileLoop(isUntil, test, action, s, ignored, level, w).out != Interrupted
    ensures WhileLoop(isUntil, test, action, s, ignored, level, More(w, k))
         == MoreRes(WhileLoop(isUntil, test, action, s, ignored, level, w), k)
    decreases w.polls, 2
  {
    RunMore(test, true, level, w, k);
    var t := Run(test, true, level, w);
    if Returns(t.out) && !Ends(isUntil, t.out.s) && t.w.polls > 0 {
      var w1 := t.w.(polls := t.w.polls - 1);
      assert More(t.w, k).(polls := More(t.w, k).polls - 1) == More(w1, k);
      PassMore(t.out, action, ignored, t.level, w1, k);
      var r := Pass(t.out, action, ignored, t.level, w1);
      if Resumes(r.out) {
        WhileMore(isUntil, test, action, r.out.s, ignored, r.level, r.w, k);
      }
    }
  }

  lemma {:induction false} ClausesMore(cl: Clauses, acc: Out, ignored: bool, level: nat, w: World, k: nat)
    requires Returns(acc) && (acc.Break? || acc.Continue? ==> 1 <= acc.n <= level)
    requires RunClauses(cl, acc, ignored, level, w).out != Interrupted
    ensures RunClauses(cl, acc, ignored, level, More(w, k)) == MoreRes(RunClauses(cl, acc, ignored, level, w), k)
    decreases w.polls, 2, cl
  {
    DrawnMore(w, k);
    if cl.Clause? {
      if Peek(w) == 0 {
        ClausesMore(cl.next, acc, ignored, level, Drawn(w), k);
      } else {
        MatchedMore(cl, acc, ignored, level, Drawn(w), k);
      }
    }
  }

  lemma {:induction false} MatchedMore(cl: Clauses, acc: Out, ignored: bool, level: nat, w: World, k: nat)
    requires cl.Clause? && Returns(acc) && (acc.Break? || acc.Continue? ==> 1 <= acc.n <= level)
    requires RunMatched(cl, acc, ignored, level, w).out != Interrupted
    ensures RunMatched(cl, acc, ignored, level, More(w, k)) == MoreRes(RunMatched(cl, acc, ignored, level, w), k)
    decreases w.polls, 2, cl, 0
  {
    var r := if acc.Done? then RunOpt(cl.action, ignored, level, w) else Res(acc, level, w);
    if acc.Done? {
      OptMore(cl.action, ignored, level, w, k);
    }
    if Returns(r.out) {
      if cl.fallThrough {
        if cl.next.Clause? {
          MatchedMore(cl.next, r.out, ignored, r.level, r.w, k);
        }
      } else if cl.testNext {
        ClausesMore(cl.next, r.out, ignored, r.level, r.w, k);
      }
    }
  }
}
