/** Searching and removing in lists, as the commons library does. */
module Lists {

  ghost predicate NoDuplicates<T(!new)>(s: seq<T>) {
    forall i, j :: 0 <= i < j < |s| ==> s[i] != s[j]
  }

  /** The index of the first element that satisfies the test, or the length. */
  function FirstWhere<T>(q: seq<T>, test: T -> bool): (r: nat)
    ensures r <= |q|
    ensures r < |q| ==> test(q[r])
    ensures forall k :: 0 <= k < r ==> !test(q[k])
  {
    if q == [] || test(q[0]) then 0
    else
      var r := FirstWhere(q[1..], test);
      assert forall k :: 1 <= k < r + 1 ==> q[k] == q[1..][k - 1];
      r + 1
  }

  function RemoveAt<T>(q: seq<T>, i: nat): seq<T>
    requires i < |q|
  {
    q[..i] + q[i + 1..]
  }

  /** `list_find` and the search of `list_remove_by_condition`. */
  method Find<T>(q: seq<T>, test: T -> bool) returns (i: nat)
    ensures i == FirstWhere(q, test)
    ensures i <= |q| && (i < |q| ==> test(q[i])) && forall k :: 0 <= k < i ==> !test(q[k])
  {
    i := 0;
    while i < |q| && !test(q[i])
      invariant i <= |q|
      invariant forall k :: 0 <= k < i ==> !test(q[k])
    {
      i := i + 1;
    }
    FirstIsUnique(q, test, i);
  }

  lemma FirstIsUnique<T>(q: seq<T>, test: T -> bool, i: nat)
    requires i <= |q| && (i < |q| ==> test(q[i])) && forall k :: 0 <= k < i ==> !test(q[k])
    ensures FirstWhere(q, test) == i
  {
  }
}
