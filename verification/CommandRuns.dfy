/**
 What holds over whole runs: how far break and continue travel, what a leaked loop level
 does, and that neither sticky flags nor function calls change what a tree means the next
 time it runs.
 */
module CommandRuns {
  import opened Options
  import opened CommandMeaning
  import opened CommandContexts
  import opened CommandJumps

  // ---- how far a jump travels -----------------------------------------------------

  function Jumping(isBreak: bool, n: nat, s: int): Out {
    if isBreak then Break(n, s) else Continue(n, s)
  }

  /** The status a jump with status s has when it has left the place. */
  function Through(p: Place, s: int): int {
    if p.InTest? && Ends(p.isUntil, s) then p.s else s
  }

  /** The status of a jump that was raised at the end of the path, where it leaves the whole command. */
  function StatusOutside(c: Cmd, path: seq<Step>, s: int): int
    decreases |path|
  {
    if path == [] then s
    else
      var t := Through(path[0].place, StatusOutside(path[0].cmd, path[1..], s));
      if c.invert then Invert(t) else t
  }

  /** No test of a while or until on the way; and no case, whose later patterns are still matched. */
  predicate Untested(path: seq<Step>) {
    forall k :: 0 <= k < |path| ==> !path[k].place.InTest?
  }

  predicate Plain(path: seq<Step>) {
    forall k :: 0 <= k < |path| ==> !path[k].place.InTest? && !path[k].place.InClause?
  }

  /** A jump beyond the place leaves it: a loop takes one off its count, anything else lets it pass. */
  lemma JumpThrough(p: Place, c: Cmd, r: Res, ignored: bool)
    requires CanCome(p, r) && IsJump(r.out) && (IsLoop(p) ==> r.out.n > 1)
    ensures var q, d := Come(p, c, r, ignored), if IsLoop(p) then 1 else 0;
            Undisturbed(r.w, q.w)
            && ((p.InTest? && q.out.Interrupted?)
                || q == Res(Jumping(r.out.Break?, r.out.n - d, Through(p, r.out.s)), r.level - d, q.w))
            && (!p.InTest? && !p.InClause? ==> q.w == r.w)
  {
    if p.InClause? {
      PassedOn(p.clause, r, ignored);
    }
  }

  /** A break of the last of its loops leaves it, with its own status. */
  lemma LastBreak(p: Place, c: Cmd, r: Res, ignored: bool)
    requires IsLoop(p) && CanCome(p, r) && r.out.Break? && r.out.n == 1
    ensures var q := Come(p, c, r, ignored);
            Undisturbed(r.w, q.w)
            && ((p.InTest? && q.out.Interrupted?) || q == Res(Done(Through(p, r.out.s)), r.level - 1, q.w))
            && (!p.InTest? ==> q.w == r.w)
  {
  }

  /**
   What a loop does when it goes round again: the next word, the step and the test, or the test.
   From its own test it goes round only if the status is not one that ends it.
   */
  function NextTurn(p: Place, c: Cmd, s: int, ignored: bool, level: nat, w: World): Res
    requires level > 0 && IsLoop(p)
  {
    LeaveLoop(match p
              case InFor(left) => ForLoop(left - 1, s, c, ignored, level, w)
              case InBody(isUntil, test) => WhileLoop(isUntil, test, c, s, ignored, level, w)
              case InTest(isUntil, action, old') =>
                if Ends(isUntil, s) then Res(Done(old'), level, w)
                else if w.polls == 0 then Res(Interrupted, level, w)
                else WhileLoop(isUntil, c, action, s, ignored, level, w.(polls := w.polls - 1))
              case _ => if Peek(w) < 0 then Res(Done(1), level, Drawn(w))
                        else ArithLoop(s, c, ignored, level, Drawn(w)))
  }

  /**
   A command that comes to a jump leaves whatever it stands in, as long as fewer loops enclose it
   than the jump has to leave.  One loop after the other is left and no command is executed on the
   way.  (Between the test of a while and its body an interrupt may still come.)
   */
  lemma {:induction false} JumpPasses(c: Cmd, ignored: bool, level: nat, w: World, path: seq<Step>)
    requires Follows(c, ignored, level, w, path)
    requires var r := Innermost(c, ignored, level, w, path); IsJump(r.out) && Loops(path) < r.out.n
    ensures var r, q, d := Innermost(c, ignored, level, w, path), Run(c, ignored, level, w), Loops(path);
            Undisturbed(r.w, q.w)
            && (q.out == Interrupted
                || q == Res(Jumping(r.out.Break?, r.out.n - d, StatusOutside(c, path, r.out.s)), r.level - d, q.w))
            && (q.out == Interrupted ==> !Untested(path)) && (Plain(path) ==> q.w == r.w)
    decreases |path|
  {
    if path != [] {
      var st, e := path[0], ignored || c.invert;
      JumpPasses(st.cmd, Inside(st.place, e), st.level, st.w, path[1..]);
      RunIsAfter(c, ignored, level, w, st);
      JumpOut(c, st.place, st.cmd, Innermost(c, ignored, level, w, path), There(st, e), Loops(path[1..]),
              StatusOutside(st.cmd, path[1..], Innermost(c, ignored, level, w, path).out.s), e);
    }
  }

  /** One step out of a path, the jump r having come to r1 in the place. */
  lemma JumpOut(c: Cmd, p: Place, hole: Cmd, r: Res, r1: Res, d: nat, s: int, ignored: bool)
    requires Fits(r) && IsJump(r.out) && CanCome(p, r1) && d + (if IsLoop(p) then 1 else 0) < r.out.n
    requires r1.out == Interrupted || r1 == Res(Jumping(r.out.Break?, r.out.n - d, s), r.level - d, r1.w)
    ensures var q, d1 := Inverting(c, Come(p, hole, r1, ignored)), d + if IsLoop(p) then 1 else 0;
            var t := Through(p, s);
            Undisturbed(r1.w, q.w)
            && (q.out == Interrupted
                || q == Res(Jumping(r.out.Break?, r.out.n - d1, if c.invert then Invert(t) else t), r.level - d1, q.w))
            && (q.out == Interrupted ==> r1.out == Interrupted || p.InTest?)
            && (!p.InTest? && !p.InClause? ==> q.w == r1.w)
  {
    if IsJump(r1.out) {
      JumpThrough(p, hole, r1, ignored);
    }
  }

  /**
   break n and continue n, as they are written, leave whatever they stand in as long as fewer than
   n loops enclose them: any loop at any of its turns, with any commands before and after.
   */
  lemma JumpLeaves(c: Cmd, ignored: bool, level: nat, w: World, path: seq<Step>)
    requires Overshoots(c, ignored, level, w, path)
    ensures var e, q, d := End(c, ignored, level, w, path), Run(c, ignored, level, w), Loops(path);
            var j := JumpThere(e);
            Undisturbed(e.w, q.w)
            && (q.out == Interrupted
                || q == Res(Jumping(j.Break?, Named(e) - d, StatusOutside(c, path, j.s)), e.level - d, q.w))
            && (q.out == Interrupted ==> !Untested(path))
            && (Plain(path) ==> q.w == e.w.(polls := e.w.polls - 1))
  {
    JumpRuns(End(c, ignored, level, w, path));
    JumpPasses(c, ignored, level, w, path);
  }

  /** break n leaves the n-th loop too, which is done, whatever is left of it, with the status of the break. */
  lemma BreakLeaves(c: Cmd, ignored: bool, level: nat, w: World, path: seq<Step>)
    requires path != [] && IsLoop(path[0].place) && Follows(c, ignored, level, w, path)
    requires var e := End(c, ignored, level, w, path); Jumps(e) && JumpThere(e).Break? && Loops(path) == Named(e)
    ensures var e, q := End(c, ignored, level, w, path), Run(c, ignored, level, w);
            Undisturbed(e.w, q.w)
            && (q.out == Interrupted
                || q == Res(Done(StatusOutside(c, path, JumpThere(e).s)), e.level - Loops(path), q.w))
            && (q.out == Interrupted ==> !Untested(path))
            && (Plain(path) ==> q.w == e.w.(polls := e.w.polls - 1))
  {
    var st, e := path[0], ignored || c.invert;
    JumpRuns(End(c, ignored, level, w, path));
    JumpPasses(st.cmd, Inside(st.place, e), st.level, st.w, path[1..]);
    RunIsAfter(c, ignored, level, w, st);
    var r1 := There(st, e);
    if IsJump(r1.out) {
      LastBreak(st.place, st.cmd, r1, e);
    }
  }

  /** A continue of the last of its loops makes it go round again. */
  lemma LastContinue(p: Place, c: Cmd, r: Res, ignored: bool)
    requires IsLoop(p) && CanCome(p, r) && r.out.Continue? && r.out.n == 1
    ensures Come(p, c, r, ignored) == NextTurn(p, c, r.out.s, ignored, r.level, r.w)
  {
  }

  /**
   continue n leaves the loops before the n-th, and the n-th goes round again: its next word, its
   step or its test.
   */
  lemma ContinueResumes(c: Cmd, ignored: bool, level: nat, w: World, path: seq<Step>)
    requires path != [] && IsLoop(path[0].place) && Follows(c, ignored, level, w, path)
    requires var e := End(c, ignored, level, w, path); Jumps(e) && JumpThere(e).Continue? && Loops(path) == Named(e)
    ensures var e, st, on := End(c, ignored, level, w, path), path[0], ignored || c.invert;
            var q, r1 := Run(c, ignored, level, w), There(st, on);
            Undisturbed(e.w, r1.w) && (Plain(path[1..]) ==> r1.w == e.w.(polls := e.w.polls - 1))
            && ((q.out == Interrupted && r1.out == Interrupted && !Untested(path[1..]))
                || (r1.level == e.level - (Loops(path) - 1) && r1.level > 0
                    && var s := StatusOutside(st.cmd, path[1..], JumpThere(e).s);
                       q == Inverting(c, NextTurn(st.place, st.cmd, s, on, r1.level, r1.w))))
  {
    var st, on := path[0], ignored || c.invert;
    JumpRuns(End(c, ignored, level, w, path));
    JumpPasses(st.cmd, Inside(st.place, on), st.level, st.w, path[1..]);
    RunIsAfter(c, ignored, level, w, st);
    var r1 := There(st, on);
    if IsJump(r1.out) {
      LastContinue(st.place, st.cmd, r1, on);
    }
  }

  // ---- loops that give their level back, and one that does not ---------------------

  /**
   A command that returns leaves a jump pending if and only if some break or continue in it was
   executed with fewer loops around it, inside the command, than it named.
   */
  lemma PendingExactly(c: Cmd, ignored: bool, level: nat, w: World)
    requires Returns(Run(c, ignored, level, w).out)
    ensures IsJump(Run(c, ignored, level, w).out) <==> exists path :: Overshoots(c, ignored, level, w, path)
  {
    if IsJump(Run(c, ignored, level, w).out) {
      var path := JumpPath(c, ignored, level, w);
    }
    if path :| Overshoots(c, ignored, level, w, path) {
      JumpLeaves(c, ignored, level, w, path);
    }
  }

  /**
   Outside every loop, a command that returns has the level back at 0 exactly when no
   arithmetic for failed in its initialisation, and then no jump is pending.  After a failure
   one is pending exactly when a break or continue named more loops than there were.
   */
  lemma NothingPending(c: Cmd, ignored: bool, w: World)
    requires Returns(Run(c, ignored, 0, w).out)
    ensures Run(c, ignored, 0, w).level == 0 <==> Run(c, ignored, 0, w).w.initFailures == w.initFailures
    ensures Run(c, ignored, 0, w).level == 0 ==> Run(c, ignored, 0, w).out.Done?
    ensures Run(c, ignored, 0, w).out.Done? <==> !exists path :: Overshoots(c, ignored, 0, w, path)
  {
    assert Keeps(ignored, 0, w, Run(c, ignored, 0, w));
    PendingExactly(c, ignored, 0, w);
  }

  /** A for is entered: there is a word, and binding it succeeds. */
  predicate Opens(w: World) {
    w.polls >= 2 && Peek(w) > 0 && Peek(Drawn(w)) == 0
  }

  function Entered(w: World): World
    requires w.polls >= 2
  {
    Drawn(Drawn(w)).(polls := w.polls - 2)
  }

  /** for ((i;t;s)) { }; for x in words { break 2 }; command 7 */
  function Leaky(): Cmd {
    Cmd(false, Connection(Semicolon, Some(Cmd(false, ArithFor(Cmd(false, Group(None))))), Some(LeakyRest())))
  }

  function LeakyRest(): Cmd {
    Cmd(false, Connection(Semicolon, Some(Cmd(false, For(Cmd(false, Jump(true, 2))))), Some(Cmd(false, Simple(7)))))
  }

  /** A for whose body is break m, with `level` loops around it. */
  lemma BreakInFor(m: nat, level: nat, w: World)
    requires m > 0 && w.polls >= 3 && Opens(w)
    ensures var k := if m > level + 1 then level + 1 else m;
            Run(Cmd(false, For(Cmd(false, Jump(true, m)))), false, level, w)
            == Res(if k == 1 then Done(0) else Break(k - 1, 0), level, Entered(w).(polls := w.polls - 3))
  {
    var jump := Cmd(false, Jump(true, m));
    var w1, w2 := w.(polls := w.polls - 1), Entered(w);
    var k := if m > level + 1 then level + 1 else m;
    assert Run(jump, false, level + 1, w2) == RunBody(Jump(true, m), false, level + 1, w2.(polls := w2.polls - 1));
    var st := CommandContexts.Step(InFor(Peek(w1)), jump, level + 1, w2);
    assert ForComesTo(Peek(w1), false, level + 1, Drawn(w1), st);
    RunIsAfter(Cmd(false, For(jump)), false, level, w, st);
    assert There(st, false) == Res(Break(k, 0), level + 1, w2.(polls := w2.polls - 1));
  }

  lemma LeakyRestRun(level: nat, w: World)
    requires w.polls >= 10 && Opens(w.(polls := w.polls - 1))
    ensures var r := Run(LeakyRest(), false, level, w);
            if level == 0 then r.w.trace == w.trace + [7] && !r.out.Break?
            else r.w.trace == w.trace && r.out == Break(1, 0)
  {
    var w1 := w.(polls := w.polls - 1);
    BreakInFor(2, level, w1);
    var r := Run(LeakyRest().body.first.value, false, level, w1);
    assert Run(Cmd(false, Simple(7)), false, r.level, r.w)
        == RunBody(Simple(7), false, r.level, r.w.(polls := r.w.polls - 1));
    assert RunOpt(LeakyRest().body.first, false, level, w1) == r;
    assert RunOpt(LeakyRest().body.second, false, r.level, r.w) == Run(Cmd(false, Simple(7)), false, r.level, r.w);
    assert Run(LeakyRest(), false, level, w) == RunBody(LeakyRest().body, false, level, w1);
  }

  /**
   The level a failed initialisation keeps is one that a later break can spend: with it
   `break 2` in a lone loop stays pending and the next command never runs; had the test been
   false instead, it would run.
   */
  lemma FailedInitialisationLeaks(w: World)
    requires w.polls >= 20 && w.initFailures == 0 && w.trace == []
    ensures Run(Leaky(), false, 0, w.(script := [-1, 1, 0])).out == Break(1, 0)
    ensures Run(Leaky(), false, 0, w.(script := [-1, 1, 0])).w.trace == []
    ensures Run(Leaky(), false, 0, w.(script := [0, 0, 1, 0])).w.trace == [7]
  {
    var w1 := w.(script := [-1, 1, 0], polls := w.polls - 1);
    var w2 := w.(script := [0, 0, 1, 0], polls := w.polls - 1);
    var init := Cmd(false, ArithFor(Cmd(false, Group(None))));
    var r1 := Run(init, false, 0, w1);
    assert [-1, 1, 0][1..] == [1, 0];
    assert r1 == RunBody(init.body, false, 0, w1.(polls := w.polls - 2));
    assert r1 == Res(Done(1), 1, w1.(script := [1, 0], polls := w.polls - 2, initFailures := 1));
    var r2 := Run(init, false, 0, w2);
    assert [0, 0, 1, 0][1..] == [0, 1, 0] && [0, 1, 0][1..] == [1, 0];
    assert ArithLoop(0, Cmd(false, Group(None)), false, 1, w2.(script := [0, 1, 0], polls := w.polls - 2)).w.script
        == [1, 0];
    assert r2 == RunBody(init.body, false, 0, w2.(polls := w.polls - 2));
    assert r2 == Res(Done(0), 0, w2.(script := [1, 0], polls := w.polls - 2));
    assert [1, 0][1..] == [0];
    LeakyRestRun(1, r1.w);
    LeakyRestRun(0, r2.w);
    assert RunOpt(Leaky().body.first, false, 0, w1) == r1;
    assert RunOpt(Leaky().body.first, false, 0, w2) == r2;
    assert RunOpt(Leaky().body.second, false, r1.level, r1.w) == Run(LeakyRest(), false, r1.level, r1.w);
    assert RunOpt(Leaky().body.second, false, r2.level, r2.w) == Run(LeakyRest(), false, r2.level, r2.w);
  }
}
