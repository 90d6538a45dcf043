/** Python's `sorted(items, key=...)`: the stable sort of a sequence under a total preorder.
    The insertion sort below is only a definition; `StableSortIsUnique` shows that sortedness and
    stability determine the result, so any stable sort computes the same sequence. */
module Sorting {

  ghost predicate TotalPreorder<T(!new)>(le: (T, T) -> bool) {
    && (forall x, y :: le(x, y) || le(y, x))
    && (forall x, y, z :: le(x, y) && le(y, z) ==> le(x, z))
  }

  ghost predicate Sorted<T>(le: (T, T) -> bool, s: seq<T>) {
    forall i, j :: 0 <= i < j < |s| ==> le(s[i], s[j])
  }

  /** The elements of `s` that compare equal to `x`, in the order of `s`. */
  ghost function Ties<T>(le: (T, T) -> bool, x: T, s: seq<T>): seq<T> {
    if s == [] then []
    else (if le(x, s[0]) && le(s[0], x) then [s[0]] else []) + Ties(le, x, s[1..])
  }

  function Insert<T>(le: (T, T) -> bool, x: T, s: seq<T>): seq<T> {
    if s == [] then [x]
    else if le(x, s[0]) then [x] + s
    else [s[0]] + Insert(le, x, s[1..])
  }

  function Sort<T>(le: (T, T) -> bool, s: seq<T>): seq<T> {
    if s == [] then [] else Insert(le, s[0], Sort(le, s[1..]))
  }

  lemma InsertElements<T>(le: (T, T) -> bool, x: T, s: seq<T>)
    ensures multiset(Insert(le, x, s)) == multiset{x} + multiset(s)
  {
    if s != [] && !le(x, s[0]) {
      InsertElements(le, x, s[1..]);
      assert s == [s[0]] + s[1..];
    }
  }

  lemma {:induction false} SortElements<T>(le: (T, T) -> bool, s: seq<T>)
    ensures multiset(Sort(le, s)) == multiset(s)
    ensures |Sort(le, s)| == |s|
    ensures forall x :: x in Sort(le, s) <==> x in s
  {
    if s != [] {
      SortElements(le, s[1..]);
      InsertElements(le, s[0], Sort(le, s[1..]));
      assert s == [s[0]] + s[1..];
    }
    assert |multiset(Sort(le, s))| == |multiset(s)|;
    forall x ensures x in Sort(le, s) <==> x in s {
      assert x in multiset(Sort(le, s)) <==> x in multiset(s);
    }
  }

  lemma {:induction false} InsertSorted<T(!new)>(le: (T, T) -> bool, x: T, s: seq<T>)
    requires TotalPreorder(le) && Sorted(le, s)
    ensures Sorted(le, Insert(le, x, s))
  {
    if s != [] && !le(x, s[0]) {
      var rest := Insert(le, x, s[1..]);
      InsertSorted(le, x, s[1..]);
      InsertElements(le, x, s[1..]);
      forall j | 0 <= j < |rest| ensures le(s[0], rest[j]) {
        assert rest[j] in multiset(rest);
        if rest[j] != x {
          assert rest[j] in s[1..];
        }
      }
    }
  }

  lemma {:induction false} SortSorted<T(!new)>(le: (T, T) -> bool, s: seq<T>)
    requires TotalPreorder(le)
    ensures Sorted(le, Sort(le, s))
  {
    if s != [] {
      SortSorted(le, s[1..]);
      InsertSorted(le, s[0], Sort(le, s[1..]));
    }
  }

  lemma {:induction false} InsertTies<T(!new)>(le: (T, T) -> bool, x: T, s: seq<T>, key: T)
    requires TotalPreorder(le)
    ensures Ties(le, key, Insert(le, x, s)) == Ties(le, key, [x] + s)
  {
    assert ([x] + s)[1..] == s;
    if s != [] && !le(x, s[0]) {
      var rest := Insert(le, x, s[1..]);
      InsertTies(le, x, s[1..], key);
      assert ([s[0]] + rest)[1..] == rest;
      assert ([x] + s[1..])[1..] == s[1..];
    }
  }

  /** Stability: elements that compare equal keep their relative order. */
  lemma {:induction false} SortStable<T(!new)>(le: (T, T) -> bool, s: seq<T>, key: T)
    requires TotalPreorder(le)
    ensures Ties(le, key, Sort(le, s)) == Ties(le, key, s)
  {
    if s != [] {
      var rest := Sort(le, s[1..]);
      SortStable(le, s[1..], key);
      InsertTies(le, s[0], rest, key);
      assert ([s[0]] + rest)[1..] == rest;
    }
  }

  lemma {:induction false} TiesNonEmpty<T(!new)>(le: (T, T) -> bool, key: T, s: seq<T>)
    requires Ties(le, key, s) != []
    ensures exists y :: y in s && le(key, y) && le(y, key)
  {
    if !(le(key, s[0]) && le(s[0], key)) {
      TiesNonEmpty(le, key, s[1..]);
      var y :| y in s[1..] && le(key, y) && le(y, key);
      assert y in s;
    }
  }

  lemma HeadLeadsItsTies<T(!new)>(le: (T, T) -> bool, s: seq<T>)
    requires TotalPreorder(le) && s != []
    ensures Ties(le, s[0], s) != [] && Ties(le, s[0], s)[0] == s[0]
  {
    assert le(s[0], s[0]);
  }

  lemma HeadIsLeast<T(!new)>(le: (T, T) -> bool, a: seq<T>, b: seq<T>)
    requires TotalPreorder(le) && Sorted(le, a) && a != [] && b != []
    requires Ties(le, b[0], a) == Ties(le, b[0], b)
    ensures le(a[0], b[0])
  {
    assert le(b[0], b[0]);
    TiesNonEmpty(le, b[0], a);
    var y :| y in a && le(b[0], y) && le(y, b[0]);
    var k :| 0 <= k < |a| && a[k] == y;
    assert le(a[0], y) by { assert le(a[0], a[0]); }
  }

  /** Two sorted sequences with the same elements in the same order among equals are the same. */
  lemma {:induction false} StableSortIsUnique<T(!new)>(le: (T, T) -> bool, a: seq<T>, b: seq<T>)
    requires TotalPreorder(le) && Sorted(le, a) && Sorted(le, b)
    requires forall key :: Ties(le, key, a) == Ties(le, key, b)
    ensures a == b
  {
    if a != [] { HeadLeadsItsTies(le, a); }
    if b != [] { HeadLeadsItsTies(le, b); }
    if a != [] && b != [] {
      HeadIsLeast(le, a, b);
      HeadIsLeast(le, b, a);
      assert Ties(le, a[0], b)[0] == b[0];
      forall key ensures Ties(le, key, a[1..]) == Ties(le, key, b[1..]) {
        var n := if le(key, a[0]) && le(a[0], key) then 1 else 0;
        assert Ties(le, key, a)[n..] == Ties(le, key, a[1..]);
        assert Ties(le, key, b)[n..] == Ties(le, key, b[1..]);
      }
      StableSortIsUnique(le, a[1..], b[1..]);
    }
  }

  lemma {:induction false} SortOfSorted<T>(le: (T, T) -> bool, s: seq<T>)
    requires Sorted(le, s)
    ensures Sort(le, s) == s
  {
    if s != [] {
      SortOfSorted(le, s[1..]);
      if |s| > 1 {
        assert le(s[0], s[1]);
      }
    }
  }
}
