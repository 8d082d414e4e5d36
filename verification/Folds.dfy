/** Weighted sums over sequences: the bookkeeping counters of every component
    (free frames, used cache slots, threads inside a section) are such sums. */
module Folds {

  function Sum<T>(s: seq<T>, w: T -> int): int
  {
    if s == [] then 0 else w(s[0]) + Sum(s[1..], w)
  }

  /** Replacing one element changes the sum by the difference of the two weights. */
  lemma {:induction false} SumUpdate<T>(s: seq<T>, i: nat, x: T, w: T -> int)
    requires i < |s|
    ensures Sum(s[i := x], w) == Sum(s, w) - w(s[i]) + w(x)
  {
    if i == 0 {
      assert s[0 := x][1..] == s[1..];
    } else {
      assert s[i := x][1..] == s[1..][i - 1 := x];
      SumUpdate(s[1..], i - 1, x, w);
    }
  }

  lemma {:induction false} SumAppend<T>(s: seq<T>, x: T, w: T -> int)
    ensures Sum(s + [x], w) == Sum(s, w) + w(x)
  {
    if s != [] {
      assert (s + [x])[1..] == s[1..] + [x];
      SumAppend(s[1..], x, w);
    }
  }

  /** A sum of non-negative weights bounds each of them, and is positive only if one is. */
  lemma {:induction false} SumNonNegative<T>(s: seq<T>, w: T -> int)
    requires forall x :: x in s ==> w(x) >= 0
    ensures Sum(s, w) >= 0
    ensures forall i :: 0 <= i < |s| ==> w(s[i]) <= Sum(s, w)
    ensures Sum(s, w) > 0 <==> exists i :: 0 <= i < |s| && w(s[i]) > 0
  {
    if s != [] {
      SumNonNegative(s[1..], w);
      forall i | 0 <= i < |s| ensures w(s[i]) <= Sum(s, w) {
        if i > 0 { assert s[i] == s[1..][i - 1]; }
      }
      if exists i :: 0 <= i < |s| && w(s[i]) > 0 {
        var i :| 0 <= i < |s| && w(s[i]) > 0;
        assert w(s[i]) <= Sum(s, w);
      }
      if Sum(s, w) > 0 && w(s[0]) == 0 {
        var j :| 0 <= j < |s[1..]| && w(s[1..][j]) > 0;
        assert w(s[j + 1]) > 0;
      }
    }
  }

  /** Two different positions together weigh no more than the whole. */
  lemma {:induction false} SumTwo<T>(s: seq<T>, w: T -> int, i: nat, j: nat)
    requires forall x :: x in s ==> w(x) >= 0
    requires i < |s| && j < |s| && i != j
    ensures w(s[i]) + w(s[j]) <= Sum(s, w)
  {
    var i', j' := if i < j then i else j, if i < j then j else i;
    if i' == 0 {
      SumNonNegative(s[1..], w);
      assert s[j'] == s[1..][j' - 1];
    } else {
      assert s[1..][i' - 1] == s[i'] && s[1..][j' - 1] == s[j'];
      SumTwo(s[1..], w, i' - 1, j' - 1);
      assert s[0] in s;
    }
  }

  /** A sum in which every element weighs nothing is zero. */
  lemma {:induction false} SumZero<T>(s: seq<T>, w: T -> int)
    requires forall x :: x in s ==> w(x) == 0
    ensures Sum(s, w) == 0
  {
    if s != [] { SumZero(s[1..], w); }
  }
}
