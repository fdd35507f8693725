/**
 The terms of {start..end..incr} (mkseq in bin/bash/braces.c), on the shell's 32-bit
 integers: when the sequence is refused, what it contains, and whether the vector
 allocated for it is large enough.
 */
module BraceSequence {
  import opened Options
  import opened IntMax

  /** ADDOVERFLOW and SUBOVERFLOW of include/typemax.h. */
  predicate AddOverflow(a: int, b: int, minv: int, maxv: int) {
    (a > 0 && b > maxv - a) || (a < 0 && b < minv - a)
  }

  predicate SubOverflow(a: int, b: int, minv: int, maxv: int) {
    (b > 0 && a < minv + b) || (b < 0 && a > maxv + b)
  }

  /** The increment with its sign corrected; zero counts as one. */
  function Step(start: int, end: int, incr: int): int {
    var i := if incr == 0 then 1 else incr;
    if (start > end && i > 0) || (start < end && i < 0) then -i else i
  }

  /** The terms are start, start + step, ... as far as end allows. */
  function Length(start: int, end: int, incr: int): nat {
    Abs(end - start) / Abs(Step(start, end, incr)) + 1
  }

  ghost predicate IsSequence(terms: seq<int>, start: int, end: int, incr: int) {
    |terms| == Length(start, end, incr)
    && forall k :: 0 <= k < |terms| ==> terms[k] == Term(start, Step(start, end, incr), k)
  }

  function Term(start: int, step: int, k: int): int {
    start + k * step
  }

  /** The sequence is given up: negating incr, or counting the terms, would overflow. */
  predicate Refused(start: int, end: int, incr: int) {
    (incr == INTMAX_MIN && start < end)
    || SubOverflow(end, start, INTMAX_MIN + 3, INTMAX_MAX - 2)
    || (Abs(end - start) == INTMAX_MAX - 1) || (Abs(end - start) == INTMAX_MAX)
    || (Abs(end - start) < INTMAX_MAX && Abs(end - start) / Abs(Step(start, end, incr)) > INTMAX_MAX - 3)
  }

  /** {0..INTMAX_MIN}: the distance overflows unnoticed, and so does the count made from it. */
  predicate Miscounted(start: int, end: int, incr: int) {
    start == 0 && end == INTMAX_MIN && incr != INTMAX_MIN
  }

  lemma QuotientIs(d: nat, size: nat, m: nat)
    requires size > 0 && m * size <= d < (m + 1) * size
    ensures d / size == m
  {
    var q := d / size;
    assert q * size <= d < (q + 1) * size;
    assert q < m ==> (q + 1) * size <= m * size;
    assert m < q ==> (m + 1) * size <= q * size;
  }

  /** The count as C computes it, with a distance or increment of 2^31 wrapped to INTMAX_MIN. */
  lemma Counted(d: nat, size: nat)
    requires d <= INTMAX_MAX + 1 && 0 < size <= INTMAX_MAX + 1
    ensures var count := Quotient(Wrap(d), Wrap(size));
            if d == INTMAX_MAX + 1 && size <= INTMAX_MAX then count == -(d / size) && count < 0
            else count == d / size
  {
    if size > INTMAX_MAX && d <= INTMAX_MAX {
      QuotientIs(d, size, 0);
    } else if d > INTMAX_MAX && size <= INTMAX_MAX {
      assert d / size >= 1;
    }
  }

  lemma TermFrom(start: int, step: int, k: nat)
    ensures Term(start, step, k) == if step > 0 then start + k * Abs(step) else start - k * Abs(step)
  {
  }

  lemma Multiples(d: nat, size: nat, k: nat)
    requires size > 0 && k <= d / size
    ensures k * size <= d < (d / size + 1) * size
  {
    var q := d / size;
    assert q * size <= d < (q + 1) * size;
    assert k * size <= q * size;
  }

  /** Every term lies between start and end, and one more would pass end. */
  lemma NeverPassesEnd(start: int, end: int, incr: int, k: nat)
    requires k < Length(start, end, incr)
    ensures var t, step := Term(start, Step(start, end, incr), k), Step(start, end, incr);
            if start <= end then start <= t <= end else end <= t <= start
    ensures var t, step := Term(start, Step(start, end, incr), Length(start, end, incr)), Step(start, end, incr);
            if step > 0 then t > end else t < end
  {
    var d, step := Abs(end - start), Step(start, end, incr);
    Multiples(d, Abs(step), k);
    TermFrom(start, step, k);
    TermFrom(start, step, d / Abs(step) + 1);
  }

  /**
   Refused are the most negative increment where it would have to be negated, and distances of
   2^31 - 2 and more, or one less counted in ones; but not the distance of 2^31 from 0.
   */
  lemma RefusedExactly(start: intmax, end: intmax, incr: intmax)
    ensures Refused(start, end, incr)
            <==> (incr == -0x8000_0000 && start < end)
                 || (Distance(start, end) >= 0x7fff_fffe && !(start == 0 && end == -0x8000_0000))
                 || (Distance(start, end) == 0x7fff_fffd && -1 <= incr <= 1)
  {
    var d, size := Abs(end - start), Abs(Step(start, end, incr));
    if d < INTMAX_MAX {
      if size == 1 {
        QuotientIs(d, 1, d);
      } else {
        Halves(d, size);
      }
    }
  }

  function Distance(start: int, end: int): nat {
    if start <= end then end - start else start - end
  }

  lemma Halves(d: nat, size: nat)
    requires size >= 2
    ensures 2 * (d / size) <= d
  {
    DivBounds(d, size);
  }

  /** An ordinary sequence is not refused, whatever the sign of its increment. */
  lemma OrdinarySequence(start: intmax, end: intmax, incr: intmax)
    requires -0x3fff_fff0 <= start <= 0x3fff_fff0 && -0x3fff_fff0 <= end <= 0x3fff_fff0 && incr != -0x8000_0000
    ensures !Refused(start, end, incr)
  {
    RefusedExactly(start, end, incr);
  }

  /** The inputs that are counted wrong are not among those refused, so {0..-2147483648} is one that gets through. */
  lemma MiscountedGetThrough(incr: intmax)
    requires incr != INTMAX_MIN
    ensures Miscounted(0, INTMAX_MIN, incr) && !Refused(0, INTMAX_MIN, incr)
  {
  }

  /** It has 2^31 + 1 terms, and a slot count below 0. */
  lemma MiscountedByFar()
    ensures Miscounted(0, INTMAX_MIN, 1) && !Refused(0, INTMAX_MIN, 1)
    ensures Length(0, INTMAX_MIN, 1) == INTMAX_MAX + 2 && 3 - Length(0, INTMAX_MIN, 1) < 0
  {
  }

  /** mkseq: the terms, and the number of slots of the vector they are stored in. */
  method MkSeq(start: intmax, end: intmax, incr0: intmax) returns (terms: Option<seq<int>>, slots: int)
    ensures terms.None? <==> Refused(start, end, incr0)
    ensures terms.None? <==> (incr0 == -0x8000_0000 && start < end)
                             || (Distance(start, end) >= 0x7fff_fffe && !(start == 0 && end == -0x8000_0000))
                             || (Distance(start, end) == 0x7fff_fffd && -1 <= incr0 <= 1)
    ensures terms.Some? ==> IsSequence(terms.value, start, end, incr0)
    ensures terms.Some? ==> (slots == |terms.value| + 1 <==> !Miscounted(start, end, incr0))
    ensures terms.Some? && Miscounted(start, end, incr0) ==> slots == 3 - |terms.value|
  {
    var incr: int := incr0;
    RefusedExactly(start, end, incr0);
    terms, slots := None, 0;
    if incr == 0 {
      incr := 1;
    }
    if start > end && incr > 0 {
      incr := -incr;
    } else if start < end && incr < 0 {
      if incr == INTMAX_MIN {
        return;
      }
      incr := -incr;
    }
    if SubOverflow(end, start, INTMAX_MIN + 3, INTMAX_MAX - 2) {
      return;
    }
    var distance: int := Wrap(Abs(end - start));
    if AddOverflow(distance, 2, INTMAX_MIN, INTMAX_MAX) {
      return;
    }
    var size: int := Wrap(Abs(incr));
    Counted(Abs(end - start), Abs(incr));
    var count := Quotient(distance, size);
    if AddOverflow(count, 1, INTMAX_MIN, INTMAX_MAX) {
      return;
    }
    if count > INTMAX_MAX - 3 {
      return;
    }
    slots := count + 1 + 1;
    assert incr == Step(start, end, incr0);
    var result := Terms(start, end, incr);
    terms := Some(result);
  }

  /** The loop of mkseq. */
  method Terms(start: intmax, end: intmax, incr: int) returns (result: seq<int>)
    requires incr != 0 && -INTMAX_MAX - 1 <= incr <= INTMAX_MAX
    requires (start < end ==> incr > 0) && (start > end ==> incr < 0)
    ensures |result| == Abs(end - start) / Abs(incr) + 1
    ensures forall k :: 0 <= k < |result| ==> INTMAX_MIN <= result[k] <= INTMAX_MAX && result[k] == Term(start, incr, k)
  {
    var n: int := start;
    result := [];
    ghost var d, size := Abs(end - start), Abs(incr);
    while true
      invariant |result| * size <= d && INTMAX_MIN <= n <= INTMAX_MAX
      invariant n == Term(start, incr, |result|)
      invariant forall k :: 0 <= k < |result| ==>
                  INTMAX_MIN <= result[k] <= INTMAX_MAX && result[k] == Term(start, incr, k)
      decreases d - |result| * size
    {
      TermFrom(start, incr, |result|);
      TermFrom(start, incr, |result| + 1);
      assert (|result| + 1) * size == |result| * size + size;
      result := result + [n];
      if AddOverflow(n, incr, INTMAX_MIN, INTMAX_MAX) {
        break;
      }
      n := n + incr;
      if (incr < 0 && n < end) || (incr > 0 && n > end) {
        break;
      }
    }
    QuotientIs(d, size, |result| - 1);
  }
}
