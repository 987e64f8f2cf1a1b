/**
 * `displayMovements`: the movement list as rows, top to bottom. Each
 * movement of the (possibly sorted) array is inserted with
 * `insertAdjacentHTML('afterBegin', …)`, so every new row lands on top and
 * the last movement ends up first. A row's number is its 1-based position in
 * the array that was iterated, i.e. in the sorted copy when sorting.
 */
module Render {

  datatype Kind = Deposit | Withdrawal

  /** One displayed row: its number, its type tag and its amount. */
  datatype Row = Row(number: nat, kind: Kind, value: int)

  /** `mov > 0 ? 'deposit' : 'withdrawal'`: a zero movement is a withdrawal. */
  function KindOf(m: int): Kind
  {
    if m > 0 then Deposit else Withdrawal
  }

  predicate Ascending(s: seq<int>)
  {
    forall i, j :: 0 <= i < j < |s| ==> s[i] <= s[j]
  }

  function Insert(x: int, s: seq<int>): (r: seq<int>)
    requires Ascending(s)
    ensures Ascending(r)
    ensures multiset(r) == multiset(s) + multiset{x}
  {
    if |s| == 0 then [x]
    else if x <= s[0] then [x] + s
    else
      var t := Insert(x, s[1..]);
      InsertBehindHead(x, s, t);
      [s[0]] + t
  }

  /** Inserting behind a smaller head keeps the head in front. */
  lemma InsertBehindHead(x: int, s: seq<int>, t: seq<int>)
    requires Ascending(s) && |s| > 0 && s[0] < x
    requires Ascending(t) && multiset(t) == multiset(s[1..]) + multiset{x}
    ensures Ascending([s[0]] + t)
    ensures multiset([s[0]] + t) == multiset(s) + multiset{x}
  {
    assert s == [s[0]] + s[1..];
    forall k | 0 <= k < |t|
      ensures s[0] <= t[k]
    {
      assert t[k] in multiset(t);
      if t[k] != x {
        assert t[k] in multiset(s[1..]);
        assert t[k] in s[1..];
      }
    }
  }

  /**
   * `movements.slice().sort((a, b) => a - b)`: a fresh ascending copy. For
   * integers the comparator yields exactly one possible order.
   */
  function SortAscending(s: seq<int>): (r: seq<int>)
    ensures Ascending(r)
    ensures multiset(r) == multiset(s)
    ensures |r| == |s|
  {
    if |s| == 0 then []
    else
      assert s == [s[0]] + s[1..];
      var r := Insert(s[0], SortAscending(s[1..]));
      assert |r| == |multiset(r)|;
      r
  }

  /** `forEach` with `afterBegin`: rows for movs[i..] are put on top of acc. */
  function Prepend(movs: seq<int>, i: nat, acc: seq<Row>): seq<Row>
    requires i <= |movs|
    decreases |movs| - i
  {
    if i == |movs| then acc
    else Prepend(movs, i + 1, [Row(i + 1, KindOf(movs[i]), movs[i])] + acc)
  }

  /** The rows, top to bottom, are the array read backwards, each labelled index+1. */
  predicate ShowsReversed(rows: seq<Row>, movs: seq<int>)
  {
    && |rows| == |movs|
    && forall k :: 0 <= k < |rows| ==>
         rows[k] == Row(|movs| - k, KindOf(movs[|movs| - 1 - k]), movs[|movs| - 1 - k])
  }

  /** The rows `displayMovements(movements, sort)` leaves in the container. */
  function DisplayMovements(movements: seq<int>, sort: bool): (rows: seq<Row>)
    ensures ShowsReversed(rows, if sort then SortAscending(movements) else movements)
    ensures sort ==> forall j, k :: 0 <= j < k < |rows| ==> rows[j].value >= rows[k].value
  {
    var movs := if sort then SortAscending(movements) else movements;
    PrependRows(movs, 0, []);
    Prepend(movs, 0, [])
  }

  /** Values of rows, top to bottom. */
  function Values(rows: seq<Row>): seq<int>
  {
    seq(|rows|, k requires 0 <= k < |rows| => rows[k].value)
  }

  function Reverse(s: seq<int>): (r: seq<int>)
  {
    if |s| == 0 then [] else [s[|s| - 1]] + Reverse(s[..|s| - 1])
  }

  // ---------------------------------------------------------------------

  lemma {:induction false} PrependRows(movs: seq<int>, i: nat, acc: seq<Row>)
    requires i <= |movs|
    ensures |Prepend(movs, i, acc)| == |movs| - i + |acc|
    ensures forall k :: 0 <= k < |movs| - i ==>
      Prepend(movs, i, acc)[k] == Row(|movs| - k, KindOf(movs[|movs| - 1 - k]), movs[|movs| - 1 - k])
    ensures forall k :: 0 <= k < |acc| ==> Prepend(movs, i, acc)[|movs| - i + k] == acc[k]
    decreases |movs| - i
  {
    if i < |movs| {
      var acc' := [Row(i + 1, KindOf(movs[i]), movs[i])] + acc;
      var p := Prepend(movs, i + 1, acc');
      assert p == Prepend(movs, i, acc);
      PrependRows(movs, i + 1, acc');
      forall k | 0 <= k < |movs| - i
        ensures p[k] == Row(|movs| - k, KindOf(movs[|movs| - 1 - k]), movs[|movs| - 1 - k])
      {
        if k == |movs| - i - 1 {
          assert p[|movs| - (i + 1) + 0] == acc'[0];
        }
      }
      forall k | 0 <= k < |acc|
        ensures p[|movs| - i + k] == acc[k]
      {
        assert p[|movs| - (i + 1) + (k + 1)] == acc'[k + 1];
      }
    }
  }

  lemma {:induction false} ReverseIndex(s: seq<int>)
    ensures |Reverse(s)| == |s|
    ensures forall k :: 0 <= k < |s| ==> Reverse(s)[k] == s[|s| - 1 - k]
    decreases |s|
  {
    if |s| > 0 {
      ReverseIndex(s[..|s| - 1]);
    }
  }

  lemma {:induction false} ReverseMultiset(s: seq<int>)
    ensures multiset(Reverse(s)) == multiset(s)
    decreases |s|
  {
    if |s| > 0 {
      ReverseMultiset(s[..|s| - 1]);
      assert s == s[..|s| - 1] + [s[|s| - 1]];
    }
  }

  /** Unsorted, the displayed amounts are the movements read backwards. */
  lemma RenderUnsortedReversed(movements: seq<int>)
    ensures Values(DisplayMovements(movements, false)) == Reverse(movements)
  {
    var rows := DisplayMovements(movements, false);
    ReverseIndex(movements);
    assert forall k :: 0 <= k < |rows| ==> Values(rows)[k] == movements[|movements| - 1 - k];
  }

  /**
   * In either mode every movement is displayed exactly once and none is
   * changed: the displayed amounts are the movements as a multiset.
   */
  lemma RenderShowsMovements(movements: seq<int>, sort: bool)
    ensures multiset(Values(DisplayMovements(movements, sort))) == multiset(movements)
  {
    var movs := if sort then SortAscending(movements) else movements;
    var rows := DisplayMovements(movements, sort);
    ReverseIndex(movs);
    ReverseMultiset(movs);
    assert forall k :: 0 <= k < |rows| ==> Values(rows)[k] == Reverse(movs)[k];
    assert Values(rows) == Reverse(movs);
  }

  /** Two ascending arrangements of the same values are identical. */
  lemma {:induction false} AscendingUnique(a: seq<int>, b: seq<int>)
    requires Ascending(a) && Ascending(b)
    requires multiset(a) == multiset(b)
    ensures a == b
    decreases |a|
  {
    assert |a| == |multiset(a)| == |b|;
    if |a| > 0 {
      assert a[0] in multiset(b);
      assert b[0] in multiset(a);
      assert a[0] == b[0];
      assert a == [a[0]] + a[1..];
      assert b == [b[0]] + b[1..];
      assert multiset(a[1..]) == multiset(a) - multiset{a[0]};
      assert multiset(b[1..]) == multiset(b) - multiset{b[0]};
      assert Ascending(a[1..]) && Ascending(b[1..]);
      AscendingUnique(a[1..], b[1..]);
    }
  }
}
