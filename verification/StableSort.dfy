/** Stable sorting, as Python's list.sort and sorted do it, for any total preorder. */
module StableSort {
  /** `before(a, b)`: a may stand ahead of b. */
  ghost predicate TotalPreorder<T(!new)>(before: (T, T) -> bool) {
    && (forall a, b :: before(a, b) || before(b, a))
    && (forall a, b, c :: before(a, b) && before(b, c) ==> before(a, c))
  }

  function Insert<T>(before: (T, T) -> bool, x: T, s: seq<T>): seq<T> {
    if s == [] then [x]
    else if before(x, s[0]) then [x] + s
    else [s[0]] + Insert(before, x, s[1..])
  }

  function SortBy<T>(before: (T, T) -> bool, s: seq<T>): seq<T> {
    if s == [] then [] else Insert(before, s[0], SortBy(before, s[1..]))
  }

  ghost predicate Sorted<T>(before: (T, T) -> bool, s: seq<T>) {
    forall i, j :: 0 <= i < j < |s| ==> before(s[i], s[j])
  }

  /** The elements that tie with x, in order. */
  ghost function Ties<T>(before: (T, T) -> bool, x: T, s: seq<T>): seq<T> {
    if s == [] then []
    else (if before(x, s[0]) && before(s[0], x) then [s[0]] else []) + Ties(before, x, s[1..])
  }

  lemma {:induction false} InsertKeepsElements<T>(before: (T, T) -> bool, x: T, s: seq<T>)
    ensures multiset(Insert(before, x, s)) == multiset{x} + multiset(s)
  {
    if s != [] && !before(x, s[0]) {
      InsertKeepsElements(before, x, s[1..]);
      assert s == [s[0]] + s[1..];
    }
  }

  lemma {:induction false} SortKeepsElements<T>(before: (T, T) -> bool, s: seq<T>)
    ensures multiset(SortBy(before, s)) == multiset(s)
  {
    if s != [] {
      SortKeepsElements(before, s[1..]);
      InsertKeepsElements(before, s[0], SortBy(before, s[1..]));
      assert s == [s[0]] + s[1..];
    }
  }

  lemma {:induction false} InsertSorts<T(!new)>(before: (T, T) -> bool, x: T, s: seq<T>)
    requires TotalPreorder(before) && Sorted(before, s)
    ensures Sorted(before, Insert(before, x, s))
  {
    if s != [] {
      if before(x, s[0]) {
        forall j | 0 <= j < |s|
          ensures before(x, s[j])
        {
          assert j > 0 ==> before(s[0], s[j]);
        }
      } else {
        InsertSorts(before, x, s[1..]);
        var rest := Insert(before, x, s[1..]);
        InsertKeepsElements(before, x, s[1..]);
        forall j | 0 <= j < |rest|
          ensures before(s[0], rest[j])
        {
          assert rest[j] in multiset(rest);
          if rest[j] != x {
            assert rest[j] in s[1..];
          }
        }
      }
    }
  }

  lemma {:induction false} SortSorts<T(!new)>(before: (T, T) -> bool, s: seq<T>)
    requires TotalPreorder(before)
    ensures Sorted(before, SortBy(before, s))
  {
    if s != [] {
      SortSorts(before, s[1..]);
      InsertSorts(before, s[0], SortBy(before, s[1..]));
    }
  }

  lemma TiesOfCons<T>(before: (T, T) -> bool, y: T, x: T, s: seq<T>)
    ensures Ties(before, y, [x] + s) == (if before(y, x) && before(x, y) then [x] else []) + Ties(before, y, s)
  {
    assert ([x] + s)[1..] == s;
  }

  lemma {:induction false} InsertIsStable<T(!new)>(before: (T, T) -> bool, x: T, s: seq<T>, y: T)
    requires TotalPreorder(before) && Sorted(before, s)
    ensures Ties(before, y, Insert(before, x, s)) == Ties(before, y, [x] + s)
  {
    if s != [] && !before(x, s[0]) {
      var rest := s[1..];
      InsertIsStable(before, x, rest, y);
      TiesOfCons(before, y, s[0], Insert(before, x, rest));
      TiesOfCons(before, y, x, rest);
      TiesOfCons(before, y, s[0], rest);
      TiesOfCons(before, y, x, s);
      assert s == [s[0]] + rest;
    }
  }

  lemma {:induction false} SortIsStable<T(!new)>(before: (T, T) -> bool, s: seq<T>, y: T)
    requires TotalPreorder(before)
    ensures Ties(before, y, SortBy(before, s)) == Ties(before, y, s)
  {
    if s != [] {
      var rest := SortBy(before, s[1..]);
      SortIsStable(before, s[1..], y);
      SortSorts(before, s[1..]);
      InsertIsStable(before, s[0], rest, y);
      assert ([s[0]] + rest)[1..] == rest;
    }
  }

  lemma {:induction false} TiesAreMembers<T>(before: (T, T) -> bool, x: T, s: seq<T>)
    ensures forall y :: y in Ties(before, x, s) ==> y in s
    ensures x in s && before(x, x) ==> x in Ties(before, x, s)
  {
    if s != [] {
      TiesAreMembers(before, x, s[1..]);
    }
  }

  /** Order and stability leave no choice: any sorted list that keeps every tie in order is this one. */
  lemma {:induction false} StableOrderIsUnique<T(!new)>(before: (T, T) -> bool, a: seq<T>, b: seq<T>)
    requires TotalPreorder(before) && Sorted(before, a) && Sorted(before, b)
    requires forall x :: Ties(before, x, a) == Ties(before, x, b)
    ensures a == b
  {
    if a == [] {
      if b != [] {
        TiesAreMembers(before, b[0], b);
      }
    } else {
      SameHead(before, a, b);
      forall x
        ensures Ties(before, x, a[1..]) == Ties(before, x, b[1..])
      {
        var n := if before(x, a[0]) && before(a[0], x) then 1 else 0;
        assert Ties(before, x, a)[n..] == Ties(before, x, a[1..]);
        assert Ties(before, x, b)[n..] == Ties(before, x, b[1..]);
      }
      StableOrderIsUnique(before, a[1..], b[1..]);
      assert a == [a[0]] + a[1..] && b == [b[0]] + b[1..];
    }
  }

  lemma SameHead<T(!new)>(before: (T, T) -> bool, a: seq<T>, b: seq<T>)
    requires TotalPreorder(before) && Sorted(before, a) && Sorted(before, b) && a != []
    requires forall x :: Ties(before, x, a) == Ties(before, x, b)
    ensures b != [] && a[0] == b[0]
  {
    var x := a[0];
    assert before(x, x);
    TiesAreMembers(before, x, a);
    TiesAreMembers(before, x, b);
    assert x in b;
    var y := b[0];
    assert before(y, y);
    TiesAreMembers(before, y, b);
    TiesAreMembers(before, y, a);
    assert before(x, y) && before(y, x);
    assert Ties(before, x, a)[0] == x;
    assert Ties(before, x, b)[0] == y;
  }

  lemma SortOfSorted<T(!new)>(before: (T, T) -> bool, s: seq<T>)
    requires TotalPreorder(before) && Sorted(before, s)
    ensures SortBy(before, s) == s
  {
    SortSorts(before, s);
    forall x
      ensures Ties(before, x, SortBy(before, s)) == Ties(before, x, s)
    {
      SortIsStable(before, s, x);
    }
    StableOrderIsUnique(before, SortBy(before, s), s);
  }
}
