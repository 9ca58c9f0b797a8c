/** Filtering comprehensions, and Python's stable `sorted` and first-of-equals `max` with a key. */
module Selection {

  function Filter<T>(s: seq<T>, keep: T -> bool): (r: seq<T>)
    ensures |r| <= |s|
  {
    if s == [] then [] else (if keep(s[0]) then [s[0]] else []) + Filter(s[1..], keep)
  }

  /** A comprehension holds exactly the elements that pass its condition. */
  lemma {:induction false} FilterKeeps<T>(s: seq<T>, keep: T -> bool, x: T)
    ensures x in Filter(s, keep) <==> x in s && keep(x)
    decreases |s|
  {
    if s != [] {
      FilterKeeps(s[1..], keep, x);
      assert s == [s[0]] + s[1..];
    }
  }

  lemma {:induction false} FilterConcat<T>(a: seq<T>, b: seq<T>, keep: T -> bool)
    ensures Filter(a + b, keep) == Filter(a, keep) + Filter(b, keep)
    decreases |a|
  {
    if a == [] {
      assert a + b == b;
    } else {
      assert (a + b)[0] == a[0] && (a + b)[1..] == a[1..] + b;
      FilterConcat(a[1..], b, keep);
      var head := if keep(a[0]) then [a[0]] else [];
      assert head + (Filter(a[1..], keep) + Filter(b, keep)) == (head + Filter(a[1..], keep)) + Filter(b, keep);
    }
  }

  /** The first element whose key no other exceeds. */
  function FirstMax<T(!new)>(s: seq<T>, key: T -> real): (m: T)
    requires s != []
    ensures m in s && forall x :: x in s ==> key(x) <= key(m)
  {
    if |s| == 1 then s[0]
    else
      assert s == [s[0]] + s[1..];
      var rest := FirstMax(s[1..], key);
      if key(s[0]) >= key(rest) then s[0] else rest
  }

  /** Selecting by key stops at the first of equals. */
  lemma {:induction false} FirstMaxIsFirst<T(!new)>(s: seq<T>, key: T -> real, i: nat)
    requires i < |s| && (forall j :: 0 <= j < i ==> key(s[j]) < key(s[i]))
    requires forall j :: i <= j < |s| ==> key(s[j]) <= key(s[i])
    ensures FirstMax(s, key) == s[i]
    decreases |s|
  {
    if |s| > 1 {
      if i > 0 {
        assert s[1..][i - 1] == s[i];
        FirstMaxIsFirst(s[1..], key, i - 1);
      }
    }
  }

  /** Elements that come later and are no larger change nothing. */
  lemma {:induction false} FirstMaxPrefix<T(!new)>(a: seq<T>, b: seq<T>, key: T -> real)
    requires a != [] && forall x :: x in b ==> key(x) <= key(FirstMax(a, key))
    ensures FirstMax(a + b, key) == FirstMax(a, key)
    decreases |a|
  {
    var s := a + b;
    assert s[1..] == a[1..] + b;
    if |a| > 1 {
      assert a == [a[0]] + a[1..];
      if key(a[0]) < key(FirstMax(a[1..], key)) {
        FirstMaxPrefix(a[1..], b, key);
      } else {
        var m := FirstMax(s[1..], key);
        assert m in a[1..] || m in b;
      }
    } else if b != [] {
      assert FirstMax(b, key) in b;
      assert s[1..] == b;
    }
  }

  // ---------------------------------------------------------------- sorting

  function InsertBy<T>(v: T, s: seq<T>, key: T -> real): (r: seq<T>)
    ensures |r| == |s| + 1
  {
    if s == [] || key(v) <= key(s[0]) then [v] + s else [s[0]] + InsertBy(v, s[1..], key)
  }

  /** Stable: an element goes before the equals that followed it. */
  function SortBy<T>(s: seq<T>, key: T -> real): (r: seq<T>)
    ensures |r| == |s|
  {
    if s == [] then [] else InsertBy(s[0], SortBy(s[1..], key), key)
  }

  ghost predicate SortedBy<T(!new)>(s: seq<T>, key: T -> real) {
    forall i, j :: 0 <= i < j < |s| ==> key(s[i]) <= key(s[j])
  }

  lemma {:induction false} InsertByKeeps<T>(v: T, s: seq<T>, key: T -> real)
    ensures multiset(InsertBy(v, s, key)) == multiset{v} + multiset(s)
    decreases |s|
  {
    if s != [] && key(v) > key(s[0]) {
      InsertByKeeps(v, s[1..], key);
      assert s == [s[0]] + s[1..];
    }
  }

  lemma {:induction false} InsertBySorts<T(!new)>(v: T, s: seq<T>, key: T -> real)
    requires SortedBy(s, key)
    ensures SortedBy(InsertBy(v, s, key), key)
    decreases |s|
  {
    if s != [] && key(v) > key(s[0]) {
      InsertBySorts(v, s[1..], key);
      InsertByKeeps(v, s[1..], key);
      PrependSorted(s[0], v, s[1..], InsertBy(v, s[1..], key), key);
    }
  }

  lemma PrependSorted<T(!new)>(x: T, v: T, s: seq<T>, r: seq<T>, key: T -> real)
    requires SortedBy(r, key) && multiset(r) == multiset{v} + multiset(s)
    requires key(x) <= key(v) && forall y :: y in s ==> key(x) <= key(y)
    ensures SortedBy([x] + r, key)
  {
    forall y | y in r ensures key(x) <= key(y) { assert y in multiset(r); }
  }

  lemma {:induction false} SortBySorts<T(!new)>(s: seq<T>, key: T -> real)
    ensures SortedBy(SortBy(s, key), key)
    ensures multiset(SortBy(s, key)) == multiset(s)
    decreases |s|
  {
    if s != [] {
      SortBySorts(s[1..], key);
      InsertBySorts(s[0], SortBy(s[1..], key), key);
      InsertByKeeps(s[0], SortBy(s[1..], key), key);
      assert s == [s[0]] + s[1..];
    }
  }

  /** What is already in order stays put. */
  lemma {:induction false} SortByIsStable<T(!new)>(s: seq<T>, key: T -> real)
    requires SortedBy(s, key)
    ensures SortBy(s, key) == s
    decreases |s|
  {
    if s != [] {
      SortByIsStable(s[1..], key);
      assert s == [s[0]] + s[1..];
    }
  }
}
