/**
 What a shell command means with `set -e` on: a semantics that carries, as an argument,
 whether failure is being ignored, and that reports break and continue as structured
 results on their way to the loop they name.  No flags, no counters.

 Simple commands, word expansion, pattern matching and arithmetic are oracles: each
 draws its result from a script.  An interrupt may arrive at any poll; every run,
 finished or not, is a run cut off after some number of polls.
 */
module CommandMeaning {
  import opened Options

  datatype Connector = Semicolon | AndAnd | OrOr

  datatype Cmd = Cmd(invert: bool, body: Body)

  datatype Body =
    | Simple(id: nat)
    | Jump(isBreak: bool, n: int)
    | For(action: Cmd)
    | ArithFor(action: Cmd)
    | While(isUntil: bool, test: Cmd, action: Cmd)
    | If(test: Cmd, thenCase: Option<Cmd>, elseCase: Option<Cmd>)
    | Case(clauses: Clauses)
    | Group(inner: Option<Cmd>)
    | Connection(op: Connector, first: Option<Cmd>, second: Option<Cmd>)

  /** fallThrough is ;& and testNext is ;;& at the end of a clause. */
  datatype Clauses = NoClauses | Clause(action: Option<Cmd>, fallThrough: bool, testNext: bool, next: Clauses)

  /** The oracle script, the polls left before an interrupt, the simple commands run so far,
      and how often an arithmetic for failed in its initialisation. */
  datatype World = World(script: seq<int>, polls: nat, trace: seq<nat>, initFailures: nat)

  function Peek(w: World): int {
    if w.script == [] then 0 else w.script[0]
  }

  function Drawn(w: World): World {
    if w.script == [] then w else w.(script := w.script[1..])
  }

  datatype Out =
    | Done(s: int)
    | Break(n: nat, s: int)
    | Continue(n: nat, s: int)
    | Exit(s: int)
    | Interrupted

  /** The outcome, the loop level and the world afterwards. */
  datatype Res = Res(out: Out, level: nat, w: World)

  function Invert(s: int): int {
    if s == 0 then 1 else 0
  }

  function InvertOut(out: Out): Out {
    match out
    case Done(s) => Done(Invert(s))
    case Break(n, s) => Break(n, Invert(s))
    case Continue(n, s) => Continue(n, Invert(s))
    case _ => out
  }

  predicate Returns(out: Out) {
    out.Done? || out.Break? || out.Continue?
  }

  /**
   What every construct promises: an ignored failure never exits and an exit is a failure;
   a jump in flight names between one and all of the enclosing loops; and the loop level is
   back where it was, but for one level for each failed initialisation; and the trace only grows.
   */
  ghost predicate Keeps(ignored: bool, level: nat, w: World, r: Res) {
    r.w.polls <= w.polls && w.trace <= r.w.trace
    && (r.out.Exit? ==> !ignored && r.out.s != 0)
    && (r.out.Break? ==> 1 <= r.out.n <= r.level)
    && (r.out.Continue? ==> 1 <= r.out.n <= r.level)
    && w.initFailures <= r.w.initFailures
    && (Returns(r.out) ==> r.level == level + (r.w.initFailures - w.initFailures))
  }

  function Run(c: Cmd, ignored: bool, level: nat, w: World): (r: Res)
    ensures Keeps(ignored, level, w, r)
    ensures Returns(r.out) ==> r.w.polls < w.polls
    decreases w.polls, 0
  {
    if w.polls == 0 then Res(Interrupted, level, w)
    else
      var r := RunBody(c.body, ignored || c.invert, level, w.(polls := w.polls - 1));
      if c.invert then Res(InvertOut(r.out), r.level, r.w) else r
  }

  /** A missing command succeeds. */
  function RunOpt(c: Option<Cmd>, ignored: bool, level: nat, w: World): (r: Res)
    ensures Keeps(ignored, level, w, r)
    decreases w.polls, 1
  {
    if c.None? then Res(Done(0), level, w) else Run(c.value, ignored, level, w)
  }

  function RunBody(b: Body, ignored: bool, level: nat, w: World): (r: Res)
    ensures Keeps(ignored, level, w, r)
    decreases w.polls, 4
  {
    match b
    case Simple(id) => Checked(Peek(w), ignored, level, Drawn(w).(trace := w.trace + [id]))
    case Jump(isBreak, n) => RunJump(isBreak, n, ignored, level, w)
    case For(action) =>
      LeaveLoop(ForLoop(Peek(w), 0, action, ignored, level + 1, Drawn(w)))
    case ArithFor(action) =>
      if Peek(w) < 0 then Res(Done(1), level + 1, Drawn(w).(initFailures := w.initFailures + 1))
      else LeaveLoop(ArithLoop(0, action, ignored, level + 1, Drawn(w)))
    case While(isUntil, test, action) =>
      LeaveLoop(WhileLoop(isUntil, test, action, 0, ignored, level + 1, w))
    case If(test, thenCase, elseCase) =>
      var r := Run(test, true, level, w);
      if !r.out.Done? then r
      else RunOpt(if r.out.s == 0 then thenCase else elseCase, ignored, r.level, r.w)
    case Case(clauses) => RunClauses(clauses, Done(0), ignored, level, w)
    case Group(inner) => RunOpt(inner, ignored, level, w)
    case Connection(op, first, second) =>
      var r := RunOpt(first, ignored || !op.Semicolon?, level, w);
      if r.out.Done? && (op.Semicolon? || (op.AndAnd? <==> r.out.s == 0)) then RunOpt(second, ignored, r.level, r.w)
      else r
  }

  /** With set -e on, a failure that is not ignored ends the shell. */
  function Checked(s: int, ignored: bool, level: nat, w: World): Res {
    Res(if s != 0 && !ignored then Exit(s) else Done(s), level, w)
  }

  /** break and continue outside a loop do nothing; a count below one is an error that breaks out of everything. */
  function RunJump(isBreak: bool, n: int, ignored: bool, level: nat, w: World): (r: Res)
    ensures Keeps(ignored, level, w, r)
  {
    if level == 0 then Res(Done(0), level, w)
    else if n <= 0 then Res(if ignored then Break(level, 1) else Exit(1), level, w)
    else
      var k: nat := if n > level then level else n;
      Res(if isBreak then Break(k, 0) else Continue(k, 0), level, w)
  }

  function LeaveLoop(r: Res): Res {
    Res(r.out, if r.level == 0 then 0 else r.level - 1, r.w)
  }

  /** A jump that has reached a loop's end: one loop less to leave, with the loop's status. */
  function Unwind(out: Out, s: int): Out {
    match out
    case Break(n, _) => if n <= 1 then Done(s) else Break(n - 1, s)
    case Continue(n, _) => if n <= 1 then Done(s) else Continue(n - 1, s)
    case _ => out
  }

  /** What a loop promises, counted inside the loop. */
  ghost predicate LoopKeeps(ignored: bool, level: nat, w: World, r: Res) {
    r.w.polls <= w.polls && w.trace <= r.w.trace
    && (r.out.Exit? ==> !ignored && r.out.s != 0)
    && (r.out.Break? ==> 1 <= r.out.n < r.level)
    && (r.out.Continue? ==> 1 <= r.out.n < r.level)
    && w.initFailures <= r.w.initFailures
    && (Returns(r.out) ==> r.level == level + (r.w.initFailures - w.initFailures))
  }

  /** After a loop body: does the loop go round again? */
  predicate Resumes(out: Out) {
    out.Done? || (out.Continue? && out.n == 1)
  }

  /** One pass through a loop body, unless the loop's test raised a jump. */
  function Pass(test: Out, action: Cmd, ignored: bool, level: nat, w: World): (r: Res)
    requires test.Break? || test.Continue? ==> 1 <= test.n <= level
    ensures Returns(test) ==> Keeps(ignored, level, w, r)
    decreases w.polls, 1
  {
    if test.Done? then Run(action, ignored, level, w) else Res(test, level, w)
  }

  /** The words of a for, one after the other; binding the variable may fail. */
  function ForLoop(left: int, s: int, action: Cmd, ignored: bool, level: nat, w: World): (r: Res)
    requires level > 0
    ensures LoopKeeps(ignored, level, w, r)
    decreases w.polls, 2
  {
    if left <= 0 then Res(Done(s), level, w)
    else if w.polls == 0 then Res(Interrupted, level, w)
    else if Peek(w) != 0 then Res(Done(1), level, Drawn(w).(polls := w.polls - 1))
    else
      var r := Pass(Done(0), action, ignored, level, Drawn(w).(polls := w.polls - 1));
      if Resumes(r.out) then ForLoop(left - 1, r.out.s, action, ignored, r.level, r.w)
      else if Returns(r.out) then Res(Unwind(r.out, r.out.s), r.level, r.w)
      else r
  }

  /** for ((init; test; step)) after its initialisation; a negative draw is an expression error. */
  function ArithLoop(s: int, action: Cmd, ignored: bool, level: nat, w: World): (r: Res)
    requires level > 0
    ensures LoopKeeps(ignored, level, w, r)
    decreases w.polls, 2
  {
    var test := Peek(w);
    if test < 0 then Res(Done(1), level, Drawn(w))
    else if test == 0 then Res(Done(s), level, Drawn(w))
    else if w.polls == 0 then Res(Interrupted, level, Drawn(w))
    else
      var r := Pass(Done(0), action, ignored, level, Drawn(w).(polls := w.polls - 1));
      if Resumes(r.out) then
        if Peek(r.w) < 0 then Res(Done(1), r.level, Drawn(r.w))
        else ArithLoop(r.out.s, action, ignored, r.level, Drawn(r.w))
      else if Returns(r.out) then Res(Unwind(r.out, r.out.s), r.level, r.w)
      else r
  }

  /** The status that ends a while or until loop. */
  predicate Ends(isUntil: bool, s: int) {
    isUntil <==> s == 0
  }

  /**
   A jump raised by the test counts against this loop as well; but when its status is one
   that ends the loop, even `continue` leaves it.
   */
  function WhileLoop(isUntil: bool, test: Cmd, action: Cmd, s: int, ignored: bool, level: nat, w: World): (r: Res)
    requires level > 0
    ensures LoopKeeps(ignored, level, w, r)
    decreases w.polls, 2
  {
    var t := Run(test, true, level, w);
    if !Returns(t.out) then t
    else if Ends(isUntil, t.out.s) then
      Res(if t.out.Done? then Done(s) else Unwind(t.out, s), t.level, t.w)
    else if t.w.polls == 0 then Res(Interrupted, t.level, t.w)
    else
      var w1 := t.w.(polls := t.w.polls - 1);
      var r := Pass(t.out, action, ignored, t.level, w1);
      if Resumes(r.out) then WhileLoop(isUntil, test, action, r.out.s, ignored, r.level, r.w)
      else if Returns(r.out) then Res(Unwind(r.out, r.out.s), r.level, r.w)
      else r
  }

  /** Clauses still to be tried, `acc` the outcome so far: patterns are matched even behind a jump. */
  function RunClauses(cl: Clauses, acc: Out, ignored: bool, level: nat, w: World): (r: Res)
    requires Returns(acc) && (acc.Break? || acc.Continue? ==> 1 <= acc.n <= level)
    ensures Keeps(ignored, level, w, r)
    decreases w.polls, 2, cl
  {
    match cl
    case NoClauses => Res(acc, level, w)
    case Clause(_, _, _, next) =>
      if Peek(w) == 0 then RunClauses(next, acc, ignored, level, Drawn(w))
      else RunMatched(cl, acc, ignored, level, Drawn(w))
  }

  function RunMatched(cl: Clauses, acc: Out, ignored: bool, level: nat, w: World): (r: Res)
    requires cl.Clause? && Returns(acc) && (acc.Break? || acc.Continue? ==> 1 <= acc.n <= level)
    ensures Keeps(ignored, level, w, r)
    decreases w.polls, 2, cl, 0
  {
    var r := if acc.Done? then RunOpt(cl.action, ignored, level, w) else Res(acc, level, w);
    if !Returns(r.out) then r
    else if cl.fallThrough then
      if cl.next.NoClauses? then r else RunMatched(cl.next, r.out, ignored, r.level, r.w)
    else if !cl.testNext then r
    else RunClauses(cl.next, r.out, ignored, r.level, r.w)
  }
}
