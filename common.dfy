/**
 * Small shared vocabulary: optional values and results (the source's
 * `null`/`undefined` and thrown errors), integer max/min, and the extreme
 * elements and sorted prefixes of a finite set of integer keys (the
 * source's `Map` key sorting).
 */
module Common {

  datatype Option<T> = None | Some(value: T)

  datatype Result<T, E> = Success(value: T) | Failure(error: E)

  function Max(a: int, b: int): int { if a >= b then a else b }

  function Min(a: int, b: int): int { if a <= b then a else b }

  /** A set that is not empty has an element. */
  lemma NonEmptyHasElement(s: set<int>)
    ensures s == {} || exists x :: x in s
  {
    if forall x :: x !in s {
      assert s == {};
    }
  }

  /** Every non-empty finite set of integers has a greatest element. */
  lemma {:induction false} HasGreatest(s: set<int>)
    requires s != {}
    ensures exists m :: m in s && forall y :: y in s ==> y <= m
    decreases |s|
  {
    NonEmptyHasElement(s);
    var x :| x in s;
    var rest := s - {x};
    var g := x;
    if rest != {} {
      HasGreatest(rest);
      var m :| m in rest && forall y :: y in rest ==> y <= m;
      g := Max(x, m);
    }
    forall y | y in s ensures y <= g {
      if y != x { assert y in rest; }
    }
    assert g in s;
  }

  /** Every non-empty finite set of integers has a least element. */
  lemma {:induction false} HasLeast(s: set<int>)
    requires s != {}
    ensures exists m :: m in s && forall y :: y in s ==> m <= y
    decreases |s|
  {
    NonEmptyHasElement(s);
    var x :| x in s;
    var rest := s - {x};
    var g := x;
    if rest != {} {
      HasLeast(rest);
      var m :| m in rest && forall y :: y in rest ==> m <= y;
      g := Min(x, m);
    }
    forall y | y in s ensures g <= y {
      if y != x { assert y in rest; }
    }
    assert g in s;
  }

  function SetMax(s: set<int>): (m: int)
    requires s != {}
    ensures m in s && forall y :: y in s ==> y <= m
  {
    HasGreatest(s);
    var m :| m in s && forall y :: y in s ==> y <= m;
    m
  }

  function SetMin(s: set<int>): (m: int)
    requires s != {}
    ensures m in s && forall y :: y in s ==> m <= y
  {
    HasLeast(s);
    var m :| m in s && forall y :: y in s ==> m <= y;
    m
  }

  /** `a` comes strictly before `b` in the requested order. */
  predicate Before(descending: bool, a: int, b: int) {
    if descending then a > b else a < b
  }

  /**
   * The first `n` elements of `s` in ascending (or descending) order:
   * what sorting a JavaScript `Map`'s entries by key and slicing the
   * first `n` yields, for distinct keys.
   */
  function TopKeys(s: set<int>, descending: bool, n: nat): (r: seq<int>)
    ensures |r| == Min(n, |s|)
    ensures forall i :: 0 <= i < |r| ==> r[i] in s
    decreases n
  {
    if n == 0 || s == {} then []
    else
      var b := if descending then SetMax(s) else SetMin(s);
      assert |s - {b}| == |s| - 1;
      [b] + TopKeys(s - {b}, descending, n - 1)
  }

  /** The first element `TopKeys` picks comes before every key left for the rest. */
  lemma TopKeysHead(s: set<int>, descending: bool, b: int)
    requires s != {} && b == (if descending then SetMax(s) else SetMin(s))
    ensures forall k :: k in s - {b} ==> Before(descending, b, k)
  {
  }

  /** `TopKeys` is strictly ordered. */
  lemma {:induction false} TopKeysSorted(s: set<int>, descending: bool, n: nat)
    ensures forall i, j :: 0 <= i < j < |TopKeys(s, descending, n)| ==>
      Before(descending, TopKeys(s, descending, n)[i], TopKeys(s, descending, n)[j])
    decreases n
  {
    if n > 0 && s != {} {
      var b := if descending then SetMax(s) else SetMin(s);
      var rest := TopKeys(s - {b}, descending, n - 1);
      TopKeysSorted(s - {b}, descending, n - 1);
      TopKeysHead(s, descending, b);
      var r := [b] + rest;
      assert r == TopKeys(s, descending, n);
      forall i, j | 0 <= i < j < |r| ensures Before(descending, r[i], r[j]) {
        assert r[j] == rest[j - 1] && rest[j - 1] in s - {b};
        if i > 0 { assert r[i] == rest[i - 1]; }
      }
    }
  }

  /** Every key `TopKeys` leaves out comes after all the keys it keeps. */
  lemma {:induction false} TopKeysBest(s: set<int>, descending: bool, n: nat)
    ensures forall k :: k in s && k !in TopKeys(s, descending, n) ==>
      forall i :: 0 <= i < |TopKeys(s, descending, n)| ==> Before(descending, TopKeys(s, descending, n)[i], k)
    decreases n
  {
    if n > 0 && s != {} {
      var b := if descending then SetMax(s) else SetMin(s);
      var rest := TopKeys(s - {b}, descending, n - 1);
      TopKeysBest(s - {b}, descending, n - 1);
      TopKeysHead(s, descending, b);
      var r := [b] + rest;
      assert r == TopKeys(s, descending, n);
      forall k, i | k in s && k !in r && 0 <= i < |r| ensures Before(descending, r[i], k) {
        assert k in s - {b} && k !in rest;
        if i > 0 { assert r[i] == rest[i - 1]; }
      }
    }
  }

  /** With `n` at least the size of `s`, `TopKeys` keeps every key. */
  lemma {:induction false} TopKeysAll(s: set<int>, descending: bool, n: nat)
    requires n >= |s|
    ensures forall k :: k in s ==> k in TopKeys(s, descending, n)
    decreases n
  {
    if n > 0 && s != {} {
      var b := if descending then SetMax(s) else SetMin(s);
      assert |s - {b}| == |s| - 1;
      TopKeysAll(s - {b}, descending, n - 1);
      forall k | k in s ensures k in TopKeys(s, descending, n) {
        if k != b { assert k in s - {b}; }
      }
    }
  }

  /** Every element of `s`, ascending. */
  function SortedKeys(s: set<int>): (r: seq<int>)
    ensures |r| == |s|
    ensures forall k :: k in s <==> k in r
    ensures forall i, j :: 0 <= i < j < |r| ==> r[i] < r[j]
  {
    TopKeysSorted(s, false, |s|);
    TopKeysAll(s, false, |s|);
    TopKeys(s, false, |s|)
  }
}
