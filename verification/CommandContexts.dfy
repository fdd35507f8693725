/**
 Where in a run a command stands: every place a command can be executed from, with the part
 of the run that comes after it.  A path of such places leads from a whole command, through
 any turns of any loops, to one command inside it.
 */
module CommandContexts {
  import opened Options
  import opened CommandMeaning

  datatype Place =
    | LeftOf(op: Connector, second: Option<Cmd>)
    | RightOf
    | TestOf(thenCase: Option<Cmd>, elseCase: Option<Cmd>)
    | BranchOf
    | Within
    | InClause(clause: Clauses)
    | InFor(left: int)
    | InArith
    | InBody(isUntil: bool, test: Cmd)
    | InTest(isUntil: bool, action: Cmd, s: int)

  predicate IsLoop(p: Place) {
    p.InFor? || p.InArith? || p.InBody? || p.InTest?
  }

  /** Is failure ignored in the place, given whether it is ignored around it? */
  predicate Inside(p: Place, ignored: bool) {
    ignored || p.TestOf? || p.InTest? || (p.LeftOf? && !p.op.Semicolon?)
  }

  predicate IsJump(out: Out) {
    out.Break? || out.Continue?
  }

  /** A pending jump names no more loops than there are. */
  predicate Fits(r: Res) {
    IsJump(r.out) ==> 1 <= r.out.n <= r.level
  }

  /** Inside a loop the level is not 0. */
  predicate Standing(r: Res) {
    Returns(r.out) ==> r.level > 0
  }

  // ---- what comes after the command in a place ------------------------------------------

  function AfterFor(left: int, action: Cmd, r: Res, ignored: bool): Res
    requires Standing(r)
  {
    if Resumes(r.out) then ForLoop(left - 1, r.out.s, action, ignored, r.level, r.w)
    else if Returns(r.out) then Res(Unwind(r.out, r.out.s), r.level, r.w)
    else r
  }

  function AfterArith(action: Cmd, r: Res, ignored: bool): Res
    requires Standing(r)
  {
    if Resumes(r.out) then
      if Peek(r.w) < 0 then Res(Done(1), r.level, Drawn(r.w))
      else ArithLoop(r.out.s, action, ignored, r.level, Drawn(r.w))
    else if Returns(r.out) then Res(Unwind(r.out, r.out.s), r.level, r.w)
    else r
  }

  function AfterBody(isUntil: bool, test: Cmd, action: Cmd, r: Res, ignored: bool): Res
    requires Standing(r)
  {
    if Resumes(r.out) then WhileLoop(isUntil, test, action, r.out.s, ignored, r.level, r.w)
    else if Returns(r.out) then Res(Unwind(r.out, r.out.s), r.level, r.w)
    else r
  }

  function AfterTest(isUntil: bool, test: Cmd, action: Cmd, s: int, r: Res, ignored: bool): Res
    requires Standing(r) && Fits(r)
  {
    if !Returns(r.out) then r
    else if Ends(isUntil, r.out.s) then Res(if r.out.Done? then Done(s) else Unwind(r.out, s), r.level, r.w)
    else if r.w.polls == 0 then Res(Interrupted, r.level, r.w)
    else AfterBody(isUntil, test, action, Pass(r.out, action, ignored, r.level, r.w.(polls := r.w.polls - 1)), ignored)
  }

  function AfterClause(clause: Clauses, r: Res, ignored: bool): Res
    requires clause.Clause? && Fits(r)
  {
    if !Returns(r.out) then r
    else if clause.fallThrough then
      if clause.next.NoClauses? then r else RunMatched(clause.next, r.out, ignored, r.level, r.w)
    else if !clause.testNext then r
    else RunClauses(clause.next, r.out, ignored, r.level, r.w)
  }

  predicate CanCome(p: Place, r: Res) {
    Fits(r) && (IsLoop(p) ==> Standing(r)) && (p.InClause? ==> p.clause.Clause?)
  }

  /** What the construct around the place comes to, the command in the place having come to r. */
  function Come(p: Place, c: Cmd, r: Res, ignored: bool): Res
    requires CanCome(p, r)
  {
    match p
    case LeftOf(op, second) =>
      if r.out.Done? && (op.Semicolon? || (op.AndAnd? <==> r.out.s == 0)) then RunOpt(second, ignored, r.level, r.w)
      else r
    case TestOf(thenCase, elseCase) =>
      if r.out.Done? then RunOpt(if r.out.s == 0 then thenCase else elseCase, ignored, r.level, r.w) else r
    case InClause(clause) => AfterClause(clause, r, ignored)
    case InFor(left) => LeaveLoop(AfterFor(left, c, r, ignored))
    case InArith => LeaveLoop(AfterArith(c, r, ignored))
    case InBody(isUntil, test) => LeaveLoop(AfterBody(isUntil, test, c, r, ignored))
    case InTest(isUntil, action, s) => LeaveLoop(AfterTest(isUntil, c, action, s, r, ignored))
    case _ => r
  }

  function Inverting(c: Cmd, r: Res): Res {
    if c.invert then Res(InvertOut(r.out), r.level, r.w) else r
  }

  // ---- getting to a place ------------------------------------------------------------------

  /** A command in a place, and the loop level and the world in which it is executed there. */
  datatype Step = Step(place: Place, cmd: Cmd, level: nat, w: World)

  /** Some turn of a for with `words` words to go executes the body as the step says. */
  predicate ForComesTo(words: int, ignored: bool, level: nat, w: World, st: Step)
    requires st.place.InFor?
    decreases w.polls
  {
    words > 0 && level > 0 && w.polls > 0 && Peek(w) == 0
    && var w1 := Drawn(w).(polls := w.polls - 1);
       (st.place.left == words && st.level == level && st.w == w1)
       || var r := Run(st.cmd, ignored, level, w1);
          Resumes(r.out) && r.w.polls < w.polls && ForComesTo(words - 1, ignored, r.level, r.w, st)
  }

  predicate ArithComesTo(ignored: bool, level: nat, w: World, st: Step)
    decreases w.polls
  {
    level > 0 && Peek(w) > 0 && w.polls > 0
    && var w1 := Drawn(w).(polls := w.polls - 1);
       (st.level == level && st.w == w1)
       || var r := Run(st.cmd, ignored, level, w1);
          Resumes(r.out) && Peek(r.w) >= 0 && r.w.polls < w.polls && ArithComesTo(ignored, r.level, Drawn(r.w), st)
  }

  /** Some turn of a while or until executes the test, or the body, as the step says. */
  predicate WhileComesTo(isUntil: bool, test: Cmd, action: Cmd, s: int, ignored: bool, level: nat, w: World, st: Step)
    decreases w.polls
  {
    level > 0
    && ((st.place == InTest(isUntil, action, s) && st.cmd == test && st.level == level && st.w == w)
        || var t := Run(test, true, level, w);
           Returns(t.out) && !Ends(isUntil, t.out.s) && t.w.polls > 0
           && var w1 := t.w.(polls := t.w.polls - 1);
              (t.out.Done? && st.place == InBody(isUntil, test) && st.cmd == action
               && st.level == t.level && st.w == w1)
              || var r := Pass(t.out, action, ignored, t.level, w1);
                 Resumes(r.out) && r.w.polls < w.polls
                 && WhileComesTo(isUntil, test, action, r.out.s, ignored, r.level, r.w, st))
  }

  predicate ClausesComeTo(cl: Clauses, ignored: bool, level: nat, w: World, st: Step)
    requires st.place.InClause?
    decreases cl, 1
  {
    cl.Clause?
    && if Peek(w) == 0 then ClausesComeTo(cl.next, ignored, level, Drawn(w), st)
       else MatchComesTo(cl, ignored, level, Drawn(w), st)
  }

  predicate MatchComesTo(cl: Clauses, ignored: bool, level: nat, w: World, st: Step)
    requires st.place.InClause? && cl.Clause?
    decreases cl, 0
  {
    (cl == st.place.clause && cl.action == Some(st.cmd) && st.level == level && st.w == w)
    || var r := RunOpt(cl.action, ignored, level, w);
       r.out.Done?
       && if cl.fallThrough then cl.next.Clause? && MatchComesTo(cl.next, ignored, r.level, r.w, st)
          else cl.testNext && ClausesComeTo(cl.next, ignored, r.level, r.w, st)
  }

  /** Running c executes the step's command, in the step's place directly inside c. */
  predicate Enters(c: Cmd, ignored: bool, level: nat, w: World, st: Step) {
    w.polls > 0
    && var e, w1 := ignored || c.invert, w.(polls := w.polls - 1);
       match st.place
       case LeftOf(op, second) => c.body == Connection(op, Some(st.cmd), second) && st.level == level && st.w == w1
       case RightOf =>
         c.body.Connection? && c.body.second == Some(st.cmd)
         && var op, r := c.body.op, RunOpt(c.body.first, e || !c.body.op.Semicolon?, level, w1);
            r.out.Done? && (op.Semicolon? || (op.AndAnd? <==> r.out.s == 0)) && st.level == r.level && st.w == r.w
       case TestOf(thenCase, elseCase) => c.body == If(st.cmd, thenCase, elseCase) && st.level == level && st.w == w1
       case BranchOf =>
         c.body.If?
         && var r := Run(c.body.test, true, level, w1);
            r.out.Done? && (if r.out.s == 0 then c.body.thenCase else c.body.elseCase) == Some(st.cmd)
            && st.level == r.level && st.w == r.w
       case Within => c.body == Group(Some(st.cmd)) && st.level == level && st.w == w1
       case InClause(_) => c.body.Case? && ClausesComeTo(c.body.clauses, e, level, w1, st)
       case InFor(_) => c.body == For(st.cmd) && ForComesTo(Peek(w1), e, level + 1, Drawn(w1), st)
       case InArith => c.body == ArithFor(st.cmd) && Peek(w1) >= 0 && ArithComesTo(e, level + 1, Drawn(w1), st)
       case InBody(isUntil, test) =>
         c.body == While(isUntil, test, st.cmd) && WhileComesTo(isUntil, test, st.cmd, 0, e, level + 1, w1, st)
       case InTest(isUntil, action, _) =>
         c.body == While(isUntil, st.cmd, action) && WhileComesTo(isUntil, st.cmd, action, 0, e, level + 1, w1, st)
  }

  /** What the step's command comes to in its place. */
  function There(st: Step, ignored: bool): Res {
    Run(st.cmd, Inside(st.place, ignored), st.level, st.w)
  }

  // ---- the whole run is what comes after the place -------------------------------------------

  lemma {:induction false} ForIsAfter(words: int, s: int, ignored: bool, level: nat, w: World, st: Step)
    requires st.place.InFor? && ForComesTo(words, ignored, level, w, st)
    ensures st.level > 0
    ensures ForLoop(words, s, st.cmd, ignored, level, w) == AfterFor(st.place.left, st.cmd, There(st, ignored), ignored)
    decreases w.polls
  {
    var w1 := Drawn(w).(polls := w.polls - 1);
    var r := Run(st.cmd, ignored, level, w1);
    assert Pass(Done(0), st.cmd, ignored, level, w1) == r;
    if !(st.place.left == words && st.level == level && st.w == w1) {
      ForIsAfter(words - 1, r.out.s, ignored, r.level, r.w, st);
    }
  }

  lemma {:induction false} ArithIsAfter(s: int, ignored: bool, level: nat, w: World, st: Step)
    requires st.place.InArith? && ArithComesTo(ignored, level, w, st)
    ensures st.level > 0
    ensures ArithLoop(s, st.cmd, ignored, level, w) == AfterArith(st.cmd, There(st, ignored), ignored)
    decreases w.polls
  {
    var w1 := Drawn(w).(polls := w.polls - 1);
    var r := Run(st.cmd, ignored, level, w1);
    assert Pass(Done(0), st.cmd, ignored, level, w1) == r;
    if !(st.level == level && st.w == w1) {
      ArithIsAfter(r.out.s, ignored, r.level, Drawn(r.w), st);
    }
  }

  lemma {:induction false} WhileIsAfter(isUntil: bool, test: Cmd, action: Cmd, s: int, ignored: bool, level: nat,
                                        w: World, st: Step)
    requires WhileComesTo(isUntil, test, action, s, ignored, level, w, st)
    requires (st.place.InTest? && st.cmd == test) || (st.place.InBody? && st.cmd == action)
    ensures st.level > 0 && CanCome(st.place, There(st, ignored))
    ensures LeaveLoop(WhileLoop(isUntil, test, action, s, ignored, level, w))
            == Come(st.place, st.cmd, There(st, ignored), ignored)
    decreases w.polls
  {
    var t := Run(test, true, level, w);
    if !(st.place == InTest(isUntil, action, s) && st.cmd == test && st.level == level && st.w == w) {
      var w1 := t.w.(polls := t.w.polls - 1);
      if !(t.out.Done? && st.place == InBody(isUntil, test) && st.cmd == action && st.level == t.level && st.w == w1) {
        var r := Pass(t.out, action, ignored, t.level, w1);
        WhileIsAfter(isUntil, test, action, r.out.s, ignored, r.level, r.w, st);
      }
    }
  }

  lemma {:induction false} ClausesAreAfter(cl: Clauses, s: int, ignored: bool, level: nat, w: World, st: Step)
    requires st.place.InClause? && ClausesComeTo(cl, ignored, level, w, st)
    ensures st.place.clause.Clause?
    ensures RunClauses(cl, Done(s), ignored, level, w) == AfterClause(st.place.clause, There(st, ignored), ignored)
    decreases cl, 1
  {
    if Peek(w) == 0 {
      ClausesAreAfter(cl.next, s, ignored, level, Drawn(w), st);
    } else {
      MatchIsAfter(cl, s, ignored, level, Drawn(w), st);
    }
  }

  lemma {:induction false} MatchIsAfter(cl: Clauses, s: int, ignored: bool, level: nat, w: World, st: Step)
    requires st.place.InClause? && cl.Clause? && MatchComesTo(cl, ignored, level, w, st)
    ensures st.place.clause.Clause?
    ensures RunMatched(cl, Done(s), ignored, level, w) == AfterClause(st.place.clause, There(st, ignored), ignored)
    decreases cl, 0
  {
    var r := RunOpt(cl.action, ignored, level, w);
    if !(cl == st.place.clause && cl.action == Some(st.cmd) && st.level == level && st.w == w) {
      if cl.fallThrough {
        MatchIsAfter(cl.next, r.out.s, ignored, r.level, r.w, st);
      } else {
        ClausesAreAfter(cl.next, r.out.s, ignored, r.level, r.w, st);
      }
    }
  }

  /** A run that executes the step's command comes to what is left to do once that has come to its result. */
  lemma RunIsAfter(c: Cmd, ignored: bool, level: nat, w: World, st: Step)
    requires Enters(c, ignored, level, w, st)
    ensures var e := ignored || c.invert;
            CanCome(st.place, There(st, e))
            && Run(c, ignored, level, w) == Inverting(c, Come(st.place, st.cmd, There(st, e), e))
  {
    var e, w1 := ignored || c.invert, w.(polls := w.polls - 1);
    assert Run(c, ignored, level, w) == Inverting(c, RunBody(c.body, e, level, w1));
    BodyIsAfter(c, e, level, w1, ignored, w, st);
  }

  lemma BodyIsAfter(c: Cmd, e: bool, level: nat, w1: World, ignored: bool, w: World, st: Step)
    requires Enters(c, ignored, level, w, st) && e == (ignored || c.invert) && w1 == w.(polls := w.polls - 1)
    ensures CanCome(st.place, There(st, e)) && RunBody(c.body, e, level, w1) == Come(st.place, st.cmd, There(st, e), e)
  {
    match st.place
    case InFor(_) => ForIsAfter(Peek(w1), 0, e, level + 1, Drawn(w1), st);
    case InArith => ArithIsAfter(0, e, level + 1, Drawn(w1), st);
    case InBody(isUntil, test) => WhileIsAfter(isUntil, test, st.cmd, 0, e, level + 1, w1, st);
    case InTest(isUntil, action, _) => WhileIsAfter(isUntil, st.cmd, action, 0, e, level + 1, w1, st);
    case _ => OtherIsAfter(c, e, level, w1, ignored, w, st);
  }

  lemma OtherIsAfter(c: Cmd, e: bool, level: nat, w1: World, ignored: bool, w: World, st: Step)
    requires Enters(c, ignored, level, w, st) && e == (ignored || c.invert) && w1 == w.(polls := w.polls - 1)
    requires !IsLoop(st.place)
    ensures CanCome(st.place, There(st, e)) && RunBody(c.body, e, level, w1) == Come(st.place, st.cmd, There(st, e), e)
  {
    if st.place.InClause? {
      ClausesAreAfter(c.body.clauses, 0, e, level, w1, st);
    }
  }

  // ---- paths ---------------------------------------------------------------------------------

  /** Each step of the path is taken inside the command of the one before it. */
  predicate Follows(c: Cmd, ignored: bool, level: nat, w: World, path: seq<Step>)
    decreases |path|
  {
    path == []
    || (Enters(c, ignored, level, w, path[0])
        && Follows(path[0].cmd, Inside(path[0].place, ignored || c.invert), path[0].level, path[0].w, path[1..]))
  }

  /** A command, and how and where it is executed. */
  datatype Spot = Spot(cmd: Cmd, ignored: bool, level: nat, w: World)

  /** The end of the path. */
  function End(c: Cmd, ignored: bool, level: nat, w: World, path: seq<Step>): Spot
    decreases |path|
  {
    if path == [] then Spot(c, ignored, level, w)
    else End(path[0].cmd, Inside(path[0].place, ignored || c.invert), path[0].level, path[0].w, path[1..])
  }

  /** What the command at the end of the path comes to. */
  function Innermost(c: Cmd, ignored: bool, level: nat, w: World, path: seq<Step>): (r: Res)
    ensures Fits(r)
  {
    var e := End(c, ignored, level, w, path);
    Run(e.cmd, e.ignored, e.level, e.w)
  }

  /** How many loops enclose the command at the end of the path. */
  function Loops(path: seq<Step>): nat
    decreases |path|
  {
    if path == [] then 0 else (if IsLoop(path[0].place) then 1 else 0) + Loops(path[1..])
  }

  // ---- every command executed is at the end of a path ---------------------------------------

  /** The k-th entry of the whole trace is written while the step's command is executed. */
  predicate Writes(st: Step, ignored: bool, k: nat, whole: seq<nat>) {
    |st.w.trace| <= k < |There(st, ignored).w.trace| && There(st, ignored).w.trace <= whole
  }

  lemma {:induction false} ForStep(words: int, s: int, action: Cmd, ignored: bool, level: nat, w: World, k: nat)
    returns (st: Step)
    requires level > 0 && |w.trace| <= k < |ForLoop(words, s, action, ignored, level, w).w.trace|
    ensures st.place.InFor? && st.cmd == action && ForComesTo(words, ignored, level, w, st) && st.w.polls <= w.polls
    ensures Writes(st, ignored, k, ForLoop(words, s, action, ignored, level, w).w.trace)
    decreases w.polls
  {
    var w1 := Drawn(w).(polls := w.polls - 1);
    var r := Run(action, ignored, level, w1);
    assert Pass(Done(0), action, ignored, level, w1) == r;
    if k < |r.w.trace| {
      st := Step(InFor(words), action, level, w1);
    } else {
      st := ForStep(words - 1, r.out.s, action, ignored, r.level, r.w, k);
    }
  }

  lemma {:induction false} ArithStep(s: int, action: Cmd, ignored: bool, level: nat, w: World, k: nat)
    returns (st: Step)
    requires level > 0 && |w.trace| <= k < |ArithLoop(s, action, ignored, level, w).w.trace|
    ensures st.place.InArith? && st.cmd == action && ArithComesTo(ignored, level, w, st) && st.w.polls <= w.polls
    ensures Writes(st, ignored, k, ArithLoop(s, action, ignored, level, w).w.trace)
    decreases w.polls
  {
    var w1 := Drawn(w).(polls := w.polls - 1);
    var r := Run(action, ignored, level, w1);
    assert Pass(Done(0), action, ignored, level, w1) == r;
    if k < |r.w.trace| {
      st := Step(InArith, action, level, w1);
    } else {
      st := ArithStep(r.out.s, action, ignored, r.level, Drawn(r.w), k);
    }
  }

  lemma {:induction false} WhileStep(isUntil: bool, test: Cmd, action: Cmd, s: int, ignored: bool, level: nat,
                                     w: World, k: nat)
    returns (st: Step)
    requires level > 0 && |w.trace| <= k < |WhileLoop(isUntil, test, action, s, ignored, level, w).w.trace|
    ensures (st.place.InTest? && st.place.isUntil == isUntil && st.place.action == action && st.cmd == test)
            || (st.place == InBody(isUntil, test) && st.cmd == action)
    ensures WhileComesTo(isUntil, test, action, s, ignored, level, w, st) && st.w.polls <= w.polls
    ensures Writes(st, ignored, k, WhileLoop(isUntil, test, action, s, ignored, level, w).w.trace)
    decreases w.polls
  {
    var t := Run(test, true, level, w);
    if k < |t.w.trace| {
      st := Step(InTest(isUntil, action, s), test, level, w);
    } else {
      var w1 := t.w.(polls := t.w.polls - 1);
      var r := Pass(t.out, action, ignored, t.level, w1);
      if k < |r.w.trace| {
        st := Step(InBody(isUntil, test), action, t.level, w1);
      } else {
        st := WhileStep(isUntil, test, action, r.out.s, ignored, r.level, r.w, k);
      }
    }
  }

  lemma {:induction false} ClausesStep(cl: Clauses, acc: Out, ignored: bool, level: nat, w: World, k: nat)
    returns (st: Step)
    requires Returns(acc) && (IsJump(acc) ==> 1 <= acc.n <= level)
    requires |w.trace| <= k < |RunClauses(cl, acc, ignored, level, w).w.trace|
    ensures acc.Done? && st.place.InClause? && ClausesComeTo(cl, ignored, level, w, st) && st.w.polls <= w.polls
    ensures Writes(st, ignored, k, RunClauses(cl, acc, ignored, level, w).w.trace)
    decreases cl, 1
  {
    if Peek(w) == 0 {
      st := ClausesStep(cl.next, acc, ignored, level, Drawn(w), k);
    } else {
      st := MatchStep(cl, acc, ignored, level, Drawn(w), k);
    }
  }

  lemma {:induction false} MatchStep(cl: Clauses, acc: Out, ignored: bool, level: nat, w: World, k: nat)
    returns (st: Step)
    requires cl.Clause? && Returns(acc) && (IsJump(acc) ==> 1 <= acc.n <= level)
    requires |w.trace| <= k < |RunMatched(cl, acc, ignored, level, w).w.trace|
    ensures acc.Done? && st.place.InClause? && MatchComesTo(cl, ignored, level, w, st) && st.w.polls <= w.polls
    ensures Writes(st, ignored, k, RunMatched(cl, acc, ignored, level, w).w.trace)
    decreases cl, 0
  {
    var r := if acc.Done? then RunOpt(cl.action, ignored, level, w) else Res(acc, level, w);
    if k < |r.w.trace| {
      st := Step(InClause(cl), cl.action.value, level, w);
    } else if cl.fallThrough {
      st := MatchStep(cl.next, r.out, ignored, r.level, r.w, k);
    } else {
      st := ClausesStep(cl.next, r.out, ignored, r.level, r.w, k);
    }
  }

  /** One step towards the command that writes the k-th entry of the trace. */
  lemma StepTo(c: Cmd, ignored: bool, level: nat, w: World, k: nat) returns (st: Step)
    requires |w.trace| <= k < |Run(c, ignored, level, w).w.trace| && !c.body.Simple?
    ensures Enters(c, ignored, level, w, st) && st.w.polls < w.polls
    ensures Writes(st, ignored || c.invert, k, Run(c, ignored, level, w).w.trace)
  {
    var e, w1 := ignored || c.invert, w.(polls := w.polls - 1);
    assert Run(c, ignored, level, w).w == RunBody(c.body, e, level, w1).w;
    match c.body
    case For(action) => st := ForStep(Peek(w1), 0, action, e, level + 1, Drawn(w1), k);
    case ArithFor(action) => st := ArithStep(0, action, e, level + 1, Drawn(w1), k);
    case While(isUntil, test, action) => st := WhileStep(isUntil, test, action, 0, e, level + 1, w1, k);
    case Case(clauses) => st := ClausesStep(clauses, Done(0), e, level, w1, k);
    case Group(inner) => st := GroupStep(c, ignored, level, w, k);
    case If(test, thenCase, elseCase) => st := IfStep(c, ignored, level, w, k);
    case Connection(op, first, second) => st := ListStep(c, ignored, level, w, k);
  }

  lemma GroupStep(c: Cmd, ignored: bool, level: nat, w: World, k: nat) returns (st: Step)
    requires |w.trace| <= k < |Run(c, ignored, level, w).w.trace| && c.body.Group?
    ensures Enters(c, ignored, level, w, st) && st.w.polls < w.polls
    ensures Writes(st, ignored || c.invert, k, Run(c, ignored, level, w).w.trace)
  {
    var e, w1 := ignored || c.invert, w.(polls := w.polls - 1);
    assert Run(c, ignored, level, w).w == RunBody(c.body, e, level, w1).w == RunOpt(c.body.inner, e, level, w1).w;
    st := Step(Within, c.body.inner.value, level, w1);
  }

  lemma IfStep(c: Cmd, ignored: bool, level: nat, w: World, k: nat) returns (st: Step)
    requires |w.trace| <= k < |Run(c, ignored, level, w).w.trace| && c.body.If?
    ensures Enters(c, ignored, level, w, st) && st.w.polls < w.polls
    ensures Writes(st, ignored || c.invert, k, Run(c, ignored, level, w).w.trace)
  {
    var e, w1 := ignored || c.invert, w.(polls := w.polls - 1);
    var b := c.body;
    var r := Run(b.test, true, level, w1);
    assert Run(c, ignored, level, w).w == RunBody(b, e, level, w1).w;
    var branch := if r.out.Done? && r.out.s == 0 then b.thenCase else b.elseCase;
    assert RunBody(b, e, level, w1) == if r.out.Done? then RunOpt(branch, e, r.level, r.w) else r;
    if k < |r.w.trace| {
      st := Step(TestOf(b.thenCase, b.elseCase), b.test, level, w1);
    } else {
      st := Step(BranchOf, branch.value, r.level, r.w);
    }
  }

  lemma ListStep(c: Cmd, ignored: bool, level: nat, w: World, k: nat) returns (st: Step)
    requires |w.trace| <= k < |Run(c, ignored, level, w).w.trace| && c.body.Connection?
    ensures Enters(c, ignored, level, w, st) && st.w.polls < w.polls
    ensures Writes(st, ignored || c.invert, k, Run(c, ignored, level, w).w.trace)
  {
    var e, w1 := ignored || c.invert, w.(polls := w.polls - 1);
    var b := c.body;
    var r := RunOpt(b.first, e || !b.op.Semicolon?, level, w1);
    var on := r.out.Done? && (b.op.Semicolon? || (b.op.AndAnd? <==> r.out.s == 0));
    assert Run(c, ignored, level, w).w == RunBody(b, e, level, w1).w;
    assert RunBody(b, e, level, w1) == if on then RunOpt(b.second, e, r.level, r.w) else r;
    if k < |r.w.trace| {
      st := Step(LeftOf(b.op, b.second), b.first.value, level, w1);
    } else {
      st := Step(RightOf, b.second.value, r.level, r.w);
    }
  }

  /** So every entry of the trace of a run is written by the simple command at the end of some path. */
  lemma {:induction false} PathTo(c: Cmd, ignored: bool, level: nat, w: World, k: nat) returns (path: seq<Step>)
    requires |w.trace| <= k < |Run(c, ignored, level, w).w.trace|
    ensures Follows(c, ignored, level, w, path)
    ensures var e := End(c, ignored, level, w, path);
            e.cmd.body == Simple(Run(c, ignored, level, w).w.trace[k]) && |e.w.trace| == k
    decreases w.polls
  {
    if c.body.Simple? {
      path := [];
    } else {
      var st := StepTo(c, ignored, level, w, k);
      var rest := PathTo(st.cmd, Inside(st.place, ignored || c.invert), st.level, st.w, k);
      path := [st] + rest;
      assert path[1..] == rest;
    }
  }
}
