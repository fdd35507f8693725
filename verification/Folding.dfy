/**
 Three facts on values and two on the heap are passed on by many proofs that need not look
 into them, and would slow these down.  Folded(n, p, x) says p(x) behind a countdown from an
 n that no proof knows; the lemma beside each such fact opens it by calling Unfolded.
 FoldedIn is the same for a p that reads the heap.
 */
module Folding {
  ghost predicate Folded<T>(n: nat, p: T -> bool, x: T)
    decreases n
  {
    if n > 0 then Folded(n - 1, p, x) else p(x)
  }

  lemma {:induction false} Unfolded<T>(n: nat, p: T -> bool, x: T)
    ensures Folded(n, p, x) <==> p(x)
    decreases n
  {
    if n > 0 {
      Unfolded(n - 1, p, x);
    }
  }

  ghost predicate FoldedIn<T>(n: nat, p: T ~> bool, x: T)
    requires p.requires(x)
    reads p.reads(x)
    decreases n
  {
    if n > 0 then FoldedIn(n - 1, p, x) else p(x)
  }

  lemma {:induction false} UnfoldedIn<T>(n: nat, p: T ~> bool, x: T)
    requires p.requires(x)
    ensures FoldedIn(n, p, x) <==> p(x)
    decreases n
  {
    if n > 0 {
      UnfoldedIn(n - 1, p, x);
    }
  }
}
