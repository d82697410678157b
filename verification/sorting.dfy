/**
 * A stable insertion sort by a total preorder, used for Python's `sorted(...,
 * key=...)` (stable) and for pandas' sorts by a unique id.  The preorder is
 * passed as a function so one definition serves integer ids and string keys.
 */
module Sorting {

  ghost predicate TotalPreorder<T(!new)>(leq: (T, T) -> bool)
  {
    && (forall a, b :: leq(a, b) || leq(b, a))
    && (forall a, b, c :: leq(a, b) && leq(b, c) ==> leq(a, c))
  }

  ghost predicate Sorted<T>(s: seq<T>, leq: (T, T) -> bool)
  {
    forall i, j :: 0 <= i < j < |s| ==> leq(s[i], s[j])
  }

  /** Places `x` in front of the first element it does not exceed. */
  function Insert<T(!new)>(x: T, s: seq<T>, leq: (T, T) -> bool): (r: seq<T>)
    requires TotalPreorder(leq)
    requires Sorted(s, leq)
    ensures Sorted(r, leq)
    ensures multiset(r) == multiset(s) + multiset{x}
    ensures |r| == |s| + 1
    decreases |s|
  {
    if |s| == 0 then [x]
    else if leq(x, s[0]) then
      var r := [x] + s;
      assert forall j :: 0 < j < |r| ==> leq(s[0], r[j]);
      r
    else
      var tail := Insert(x, s[1..], leq);
      HeadBelowInserted(x, s, tail, leq);
      ConsSorted(s[0], tail, leq);
      assert s == [s[0]] + s[1..];
      [s[0]] + tail
  }

  /** When `x` goes after the head, the head is below everything the tail receives. */
  lemma HeadBelowInserted<T(!new)>(x: T, s: seq<T>, tail: seq<T>, leq: (T, T) -> bool)
    requires TotalPreorder(leq) && Sorted(s, leq) && |s| > 0 && !leq(x, s[0])
    requires multiset(tail) == multiset(s[1..]) + multiset{x}
    ensures forall j :: 0 <= j < |tail| ==> leq(s[0], tail[j])
  {
    assert leq(s[0], x);
    forall j | 0 <= j < |tail|
      ensures leq(s[0], tail[j])
    {
      assert tail[j] in multiset(tail);
      if tail[j] != x {
        assert tail[j] in multiset(s[1..]);
        var k :| 0 <= k < |s[1..]| && s[1..][k] == tail[j];
        assert s[1..][k] == s[k + 1];
      }
    }
  }

  lemma ConsSorted<T>(a: T, t: seq<T>, leq: (T, T) -> bool)
    requires Sorted(t, leq) && forall j :: 0 <= j < |t| ==> leq(a, t[j])
    ensures Sorted([a] + t, leq)
  {
    forall i, j | 0 <= i < j < |[a] + t|
      ensures leq(([a] + t)[i], ([a] + t)[j])
    {
      assert ([a] + t)[j] == t[j - 1];
      if i > 0 {
        assert ([a] + t)[i] == t[i - 1];
      }
    }
  }

  /** Stable sort: elements the preorder ties keep their input order. */
  function SortBy<T(!new)>(s: seq<T>, leq: (T, T) -> bool): (r: seq<T>)
    requires TotalPreorder(leq)
    ensures Sorted(r, leq)
    ensures multiset(r) == multiset(s)
    ensures |r| == |s|
    decreases |s|
  {
    if |s| == 0 then []
    else
      assert s == [s[0]] + s[1..];
      Insert(s[0], SortBy(s[1..], leq), leq)
  }

  /** The elements of `s` the preorder ties with `y`, in their order in `s`. */
  function Tied<T>(s: seq<T>, y: T, leq: (T, T) -> bool): seq<T>
    decreases |s|
  {
    if |s| == 0 then []
    else (if leq(y, s[0]) && leq(s[0], y) then [s[0]] else []) + Tied(s[1..], y, leq)
  }

  /** Inserting `x` puts it in front of the elements it ties with and leaves their order alone. */
  lemma {:induction false} InsertTied<T(!new)>(x: T, s: seq<T>, y: T, leq: (T, T) -> bool)
    requires TotalPreorder(leq)
    requires Sorted(s, leq)
    ensures Tied(Insert(x, s, leq), y, leq)
         == (if leq(y, x) && leq(x, y) then [x] else []) + Tied(s, y, leq)
    decreases |s|
  {
    var tx := if leq(y, x) && leq(x, y) then [x] else [];
    if |s| == 0 {
      assert Insert(x, s, leq) == [x];
      assert Tied([x], y, leq) == tx + Tied([x][1..], y, leq);
    } else if leq(x, s[0]) {
      var r := [x] + s;
      assert Insert(x, s, leq) == r;
      assert r[1..] == s;
      assert Tied(r, y, leq) == tx + Tied(s, y, leq);
    } else {
      var tail := Insert(x, s[1..], leq);
      var r := [s[0]] + tail;
      assert Insert(x, s, leq) == r;
      assert r[1..] == tail;
      var t0 := if leq(y, s[0]) && leq(s[0], y) then [s[0]] else [];
      InsertTied(x, s[1..], y, leq);
      assert Tied(r, y, leq) == t0 + (tx + Tied(s[1..], y, leq));
      assert Tied(s, y, leq) == t0 + Tied(s[1..], y, leq);
      var head := s[0];
      assert leq(x, y) && leq(y, head) ==> leq(x, head);
      SwapAroundEmpty(t0, tx, Tied(s[1..], y, leq));
    }
  }

  /** Two pieces of which one is empty can be put in either order. */
  lemma SwapAroundEmpty<T>(a: seq<T>, b: seq<T>, c: seq<T>)
    requires a == [] || b == []
    ensures a + (b + c) == b + (a + c)
  {
    if a == [] {
      assert a + (b + c) == b + c;
    } else {
      assert b + (a + c) == a + c;
    }
  }

  /**
   * Stability: for every key, the elements with that key come out in the
   * order they went in.  With the permutation and sortedness in `SortBy`'s
   * contract this determines the result.
   */
  lemma {:induction false} SortByIsStable<T(!new)>(s: seq<T>, leq: (T, T) -> bool)
    requires TotalPreorder(leq)
    ensures forall y :: Tied(SortBy(s, leq), y, leq) == Tied(s, y, leq)
    decreases |s|
  {
    if |s| > 0 {
      SortByIsStable(s[1..], leq);
      forall y
        ensures Tied(SortBy(s, leq), y, leq) == Tied(s, y, leq)
      {
        InsertTied(s[0], SortBy(s[1..], leq), y, leq);
      }
    }
  }

  /** When every element ties with `y`, keeping the ties keeps everything. */
  lemma {:induction false} AllTied<T>(s: seq<T>, y: T, leq: (T, T) -> bool)
    requires forall k :: 0 <= k < |s| ==> leq(y, s[k]) && leq(s[k], y)
    ensures Tied(s, y, leq) == s
    decreases |s|
  {
    if |s| > 0 {
      AllTied(s[1..], y, leq);
      assert s == [s[0]] + s[1..];
    }
  }

  /** A sequence that is already in order is returned unchanged. */
  lemma {:induction false} SortBySortedIsIdentity<T(!new)>(s: seq<T>, leq: (T, T) -> bool)
    requires TotalPreorder(leq)
    requires Sorted(s, leq)
    ensures SortBy(s, leq) == s
    decreases |s|
  {
    if |s| > 0 {
      assert Sorted(s[1..], leq);
      SortBySortedIsIdentity(s[1..], leq);
      if |s| > 1 {
        assert leq(s[0], s[1..][0]);
      }
      assert s == [s[0]] + s[1..];
    }
  }
}
