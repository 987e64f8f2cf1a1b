/**
 * The derived values of an account's movement list: the balance shown by
 * `calcDisplayBalance` and the income, expense and interest shown by
 * `calcDisplaySummary`. Every list function is defined by its last element,
 * which mirrors the append-only way movements grow.
 */
module Movements {

  /** Sum of a movement list, `reduce((acc, mov) => acc + mov, 0)`. */
  function Sum(s: seq<int>): int
  {
    if |s| == 0 then 0 else Sum(s[..|s| - 1]) + s[|s| - 1]
  }

  /** The deposits, `filter(mov => mov > 0)`, in their original order. */
  function Deposits(s: seq<int>): (d: seq<int>)
    ensures forall m :: m in d <==> m in s && m > 0
  {
    if |s| == 0 then []
    else
      var last := s[|s| - 1];
      assert forall m :: m in s <==> m in s[..|s| - 1] || m == last;
      Deposits(s[..|s| - 1]) + (if last > 0 then [last] else [])
  }

  /** The withdrawals, `filter(mov => mov < 0)`, in their original order. */
  function Withdrawals(s: seq<int>): (w: seq<int>)
    ensures forall m :: m in w <==> m in s && m < 0
  {
    if |s| == 0 then []
    else
      var last := s[|s| - 1];
      assert forall m :: m in s <==> m in s[..|s| - 1] || m == last;
      Withdrawals(s[..|s| - 1]) + (if last < 0 then [last] else [])
  }

  /** The deposit filter keeps every positive movement as often as it occurs, and nothing else. */
  lemma {:induction false} DepositsCount(s: seq<int>)
    ensures forall m :: multiset(Deposits(s))[m] == if m > 0 then multiset(s)[m] else 0
    decreases |s|
  {
    if |s| > 0 {
      var p, last := s[..|s| - 1], s[|s| - 1];
      DepositsCount(p);
      assert s == p + [last];
      assert Deposits(s) == Deposits(p) + (if last > 0 then [last] else []);
    }
  }

  /** The withdrawal filter keeps every negative movement as often as it occurs, and nothing else. */
  lemma {:induction false} WithdrawalsCount(s: seq<int>)
    ensures forall m :: multiset(Withdrawals(s))[m] == if m < 0 then multiset(s)[m] else 0
    decreases |s|
  {
    if |s| > 0 {
      var p, last := s[..|s| - 1], s[|s| - 1];
      WithdrawalsCount(p);
      assert s == p + [last];
      assert Withdrawals(s) == Withdrawals(p) + (if last < 0 then [last] else []);
    }
  }

  /** Sum of absolute values, `reduce((acc, mov) => acc + Math.abs(mov), 0)`. */
  function AbsSum(s: seq<int>): int
  {
    if |s| == 0 then 0
    else AbsSum(s[..|s| - 1]) + (if s[|s| - 1] < 0 then -s[|s| - 1] else s[|s| - 1])
  }

  /** Total deposited (the "in" figure of the summary). */
  function Income(s: seq<int>): int
  {
    Sum(Deposits(s))
  }

  /** Total withdrawn, as a magnitude (the "out" figure of the summary). */
  function Expense(s: seq<int>): int
  {
    AbsSum(Withdrawals(s))
  }

  /** Interest one deposit earns, `mov * interestRate / 100`, in exact arithmetic. */
  function Term(m: int, rate: real): real
  {
    (m as real) * rate / 100.0
  }

  /** The per-deposit interest amounts, `map(mov => mov * rate / 100)`. */
  function Terms(d: seq<int>, rate: real): (t: seq<real>)
    ensures |t| == |d|
    ensures forall k :: 0 <= k < |d| ==> t[k] == Term(d[k], rate)
  {
    if |d| == 0 then [] else Terms(d[..|d| - 1], rate) + [Term(d[|d| - 1], rate)]
  }

  /** The interest amounts that survive `filter(int => int >= 1)`. */
  function AtLeastOne(t: seq<real>): (k: seq<real>)
    ensures forall x :: x in k <==> x in t && x >= 1.0
  {
    if |t| == 0 then []
    else
      var last := t[|t| - 1];
      assert forall x :: x in t <==> x in t[..|t| - 1] || x == last;
      AtLeastOne(t[..|t| - 1]) + (if last >= 1.0 then [last] else [])
  }

  /** The at-least-1 filter keeps every such term as often as it occurs, and nothing else. */
  lemma {:induction false} AtLeastOneCount(t: seq<real>)
    ensures forall x :: multiset(AtLeastOne(t))[x] == if x >= 1.0 then multiset(t)[x] else 0
    decreases |t|
  {
    if |t| > 0 {
      var p, last := t[..|t| - 1], t[|t| - 1];
      AtLeastOneCount(p);
      assert t == p + [last];
      assert AtLeastOne(t) == AtLeastOne(p) + (if last >= 1.0 then [last] else []);
    }
  }

  function SumReal(t: seq<real>): real
  {
    if |t| == 0 then 0.0 else SumReal(t[..|t| - 1]) + t[|t| - 1]
  }

  /** The interest terms that are actually summed. */
  function KeptTerms(s: seq<int>, rate: real): seq<real>
  {
    AtLeastOne(Terms(Deposits(s), rate))
  }

  /** The interest figure of the summary. */
  function Interest(s: seq<int>, rate: real): real
  {
    SumReal(KeptTerms(s, rate))
  }

  // ---------------------------------------------------------------------
  // Balance, income and expense

  lemma SumAppend(s: seq<int>, x: int)
    ensures Sum(s + [x]) == Sum(s) + x
  {
    assert (s + [x])[..|s|] == s;
  }

  lemma {:induction false} SumConcat(a: seq<int>, b: seq<int>)
    ensures Sum(a + b) == Sum(a) + Sum(b)
    decreases |b|
  {
    if |b| == 0 {
      assert a + b == a;
    } else {
      var b' := b[..|b| - 1];
      assert a + b == (a + b') + [b[|b| - 1]];
      SumAppend(a + b', b[|b| - 1]);
      SumConcat(a, b');
      SumAppend(b', b[|b| - 1]);
      assert b == b' + [b[|b| - 1]];
    }
  }

  /** The balance (the sum) of a list is its income minus its expense. */
  lemma {:induction false} BalanceIsIncomeMinusExpense(s: seq<int>)
    ensures Sum(s) == Income(s) - Expense(s)
    decreases |s|
  {
    if |s| > 0 {
      var p, x := s[..|s| - 1], s[|s| - 1];
      BalanceIsIncomeMinusExpense(p);
      var dx := if x > 0 then [x] else [];
      var wx := if x < 0 then [x] else [];
      assert Deposits(s) == Deposits(p) + dx;
      assert Withdrawals(s) == Withdrawals(p) + wx;
      SumConcat(Deposits(p), dx);
      assert Sum(dx) == (if x > 0 then x else 0) by {
        if x > 0 { assert dx[..0] == []; }
      }
      AbsSumConcat(Withdrawals(p), wx);
      assert AbsSum(wx) == (if x < 0 then -x else 0) by {
        if x < 0 { assert wx[..0] == []; }
      }
    }
  }

  lemma {:induction false} AbsSumConcat(a: seq<int>, b: seq<int>)
    ensures AbsSum(a + b) == AbsSum(a) + AbsSum(b)
    decreases |b|
  {
    if |b| == 0 {
      assert a + b == a;
    } else {
      var b' := b[..|b| - 1];
      assert a + b == (a + b') + [b[|b| - 1]];
      assert (a + b)[..|a + b| - 1] == a + b';
      AbsSumConcat(a, b');
    }
  }

  /** Absolute values never sum to a negative number. */
  lemma {:induction false} AbsSumNonNegative(s: seq<int>)
    ensures AbsSum(s) >= 0
    decreases |s|
  {
    if |s| > 0 {
      AbsSumNonNegative(s[..|s| - 1]);
    }
  }

  /** The expense figure is a magnitude: never negative; likewise income. */
  lemma SummaryNonNegative(s: seq<int>)
    ensures Expense(s) >= 0
    ensures Income(s) >= 0
  {
    AbsSumNonNegative(Withdrawals(s));
    PositiveSumNonNegative(Deposits(s));
  }

  lemma {:induction false} PositiveSumNonNegative(s: seq<int>)
    requires forall m :: m in s ==> m > 0
    ensures Sum(s) >= 0
    ensures |s| > 0 ==> Sum(s) > 0
    decreases |s|
  {
    if |s| > 0 {
      var p := s[..|s| - 1];
      assert forall m :: m in p ==> m in s;
      assert s[|s| - 1] in s;
      PositiveSumNonNegative(p);
    }
  }

  /**
   * The loop computes the same left fold that Sum defines by its last
   * element, one movement at a time.
   */
  method ReduceSum(s: seq<int>) returns (acc: int)
    ensures acc == Sum(s)
  {
    acc := 0;
    var i := 0;
    while i < |s|
      invariant 0 <= i <= |s|
      invariant acc == Sum(s[..i])
    {
      assert s[..i + 1] == s[..i] + [s[i]];
      SumAppend(s[..i], s[i]);
      acc := acc + s[i];
      i := i + 1;
    }
    assert s[..|s|] == s;
  }

  // ---------------------------------------------------------------------
  // Interest

  /**
   * Every summed interest term is at least 1 and is the interest of some
   * deposit of the list.
   */
  lemma KeptTermsFromDeposits(s: seq<int>, rate: real)
    ensures forall x :: x in KeptTerms(s, rate) ==>
      x >= 1.0 && exists m :: m in s && m > 0 && x == Term(m, rate)
  {
    var d := Deposits(s);
    var t := Terms(d, rate);
    forall x | x in KeptTerms(s, rate)
      ensures x >= 1.0 && exists m :: m in s && m > 0 && x == Term(m, rate)
    {
      assert x in t;
      var k :| 0 <= k < |t| && t[k] == x;
      assert d[k] in d;
    }
  }

  lemma {:induction false} SumRealAtLeastCount(t: seq<real>)
    requires forall x :: x in t ==> x >= 1.0
    ensures SumReal(t) >= |t| as real
    decreases |t|
  {
    if |t| > 0 {
      var p := t[..|t| - 1];
      assert forall x :: x in p ==> x in t;
      assert t[|t| - 1] in t;
      SumRealAtLeastCount(p);
    }
  }

  /** Interest is never negative: it counts at least 1 per summed term. */
  lemma InterestNonNegative(s: seq<int>, rate: real)
    ensures Interest(s, rate) >= |KeptTerms(s, rate)| as real >= 0.0
  {
    KeptTermsFromDeposits(s, rate);
    SumRealAtLeastCount(KeptTerms(s, rate));
  }

  /** Dropping non-negative terms can only lower a sum. */
  lemma {:induction false} AtLeastOneBelowSum(t: seq<real>)
    requires forall x :: x in t ==> x >= 0.0
    ensures SumReal(AtLeastOne(t)) <= SumReal(t)
    decreases |t|
  {
    if |t| > 0 {
      var p, x := t[..|t| - 1], t[|t| - 1];
      assert forall y :: y in p ==> y in t;
      assert x in t;
      AtLeastOneBelowSum(p);
      var kx := if x >= 1.0 then [x] else [];
      SumRealConcat(AtLeastOne(p), kx);
      assert SumReal(kx) == (if x >= 1.0 then x else 0.0) by {
        if x >= 1.0 { assert kx[..0] == []; }
      }
    }
  }

  lemma {:induction false} SumRealConcat(a: seq<real>, b: seq<real>)
    ensures SumReal(a + b) == SumReal(a) + SumReal(b)
    decreases |b|
  {
    if |b| == 0 {
      assert a + b == a;
    } else {
      var b' := b[..|b| - 1];
      assert a + b == (a + b') + [b[|b| - 1]];
      assert (a + b)[..|a + b| - 1] == a + b';
      SumRealConcat(a, b');
    }
  }

  /** `Term` is additive in the movement. */
  lemma TermAdd(a: int, b: int, rate: real)
    ensures Term(a + b, rate) == Term(a, rate) + Term(b, rate)
  {
    assert ((a + b) as real) * rate == (a as real) * rate + (b as real) * rate;
  }

  /** Peeling the last deposit off the interest terms. */
  lemma TermsSnoc(d: seq<int>, rate: real)
    requires |d| > 0
    ensures SumReal(Terms(d, rate)) == SumReal(Terms(d[..|d| - 1], rate)) + Term(d[|d| - 1], rate)
  {
    var t := Terms(d, rate);
    assert t[..|t| - 1] == Terms(d[..|d| - 1], rate);
  }

  /** The interest terms of a list sum to the term of its sum. */
  lemma {:induction false} TermsLinear(d: seq<int>, rate: real)
    ensures SumReal(Terms(d, rate)) == Term(Sum(d), rate)
    decreases |d|
  {
    if |d| == 0 {
      assert Terms(d, rate) == [];
      assert Term(0, rate) == 0.0;
    } else {
      var p, x := d[..|d| - 1], d[|d| - 1];
      TermsLinear(p, rate);
      TermsSnoc(d, rate);
      TermAdd(Sum(p), x, rate);
      assert Sum(d) == Sum(p) + x;
    }
  }

  /** With a non-negative rate, the interest terms of the deposits are non-negative. */
  lemma TermsNonNegative(s: seq<int>, rate: real)
    requires rate >= 0.0
    ensures forall x :: x in Terms(Deposits(s), rate) ==> x >= 0.0
  {
    var d := Deposits(s);
    var t := Terms(d, rate);
    forall x | x in t
      ensures x >= 0.0
    {
      var k :| 0 <= k < |t| && t[k] == x;
      assert d[k] in d;
      TermNonNegative(d[k], rate);
    }
  }

  lemma TermNonNegative(m: int, rate: real)
    requires m > 0 && rate >= 0.0
    ensures Term(m, rate) >= 0.0
  {
    assert (m as real) * rate >= 0.0;
  }

  /** Dropping the terms below 1 can only lower the interest. */
  lemma InterestBelowAllTerms(s: seq<int>, rate: real)
    requires rate >= 0.0
    ensures Interest(s, rate) <= SumReal(Terms(Deposits(s), rate))
  {
    TermsNonNegative(s, rate);
    AtLeastOneBelowSum(Terms(Deposits(s), rate));
  }

  /** With a non-negative rate the interest never exceeds income * rate / 100. */
  lemma InterestAtMostIncomeRate(s: seq<int>, rate: real)
    requires rate >= 0.0
    ensures Interest(s, rate) <= (Income(s) as real) * rate / 100.0
  {
    InterestBelowAllTerms(s, rate);
    TermsLinear(Deposits(s), rate);
  }

  /** A deposit whose own interest is below 1 contributes nothing at all. */
  lemma SmallInterestDropped(s: seq<int>, m: int, rate: real)
    requires Term(m, rate) < 1.0
    ensures Interest(s + [m], rate) == Interest(s, rate)
  {
    var s' := s + [m];
    assert s'[..|s'| - 1] == s;
    if m > 0 {
      assert Deposits(s') == Deposits(s) + [m];
      var d := Deposits(s);
      assert Terms(d + [m], rate) == Terms(d, rate) + [Term(m, rate)] by {
        assert (d + [m])[..|d|] == d;
      }
      var t := Terms(d, rate) + [Term(m, rate)];
      assert t[..|t| - 1] == Terms(d, rate);
      assert AtLeastOne(t) == AtLeastOne(Terms(d, rate)) + [];
      assert AtLeastOne(Terms(d, rate)) + [] == AtLeastOne(Terms(d, rate));
    } else {
      assert Deposits(s') == Deposits(s) + [];
      assert Deposits(s) + [] == Deposits(s);
    }
  }

  /** A deposit whose own interest is at least 1 adds exactly that interest. */
  lemma KeptTermAdded(s: seq<int>, m: int, rate: real)
    requires m > 0 && Term(m, rate) >= 1.0
    ensures Interest(s + [m], rate) == Interest(s, rate) + Term(m, rate)
  {
    var s' := s + [m];
    assert s'[..|s'| - 1] == s;
    assert Deposits(s') == Deposits(s) + [m];
    var d := Deposits(s);
    assert Terms(d + [m], rate) == Terms(d, rate) + [Term(m, rate)] by {
      assert (d + [m])[..|d|] == d;
    }
    var t := Terms(d, rate) + [Term(m, rate)];
    assert t[..|t| - 1] == Terms(d, rate);
    var k := AtLeastOne(Terms(d, rate));
    assert AtLeastOne(t) == k + [Term(m, rate)];
    assert (k + [Term(m, rate)])[..|k|] == k;
  }
}
