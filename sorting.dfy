/** The stable sort that JavaScript's `Array.prototype.sort` performs (the
    language requires it to be stable), over a comparison `le(a, b)` read as
    "`a` may stand before `b`", that is, `compare(a, b) <= 0`.

    The model is a left-to-right insertion sort: every element is inserted
    after all elements already placed that may stand before it. */
module Sorting {

  /** `le` is total and transitive: what a consistent comparator gives. */
  ghost predicate TotalPreorder<T(!new)>(le: (T, T) -> bool) {
    (forall a, b :: le(a, b) || le(b, a)) &&
    (forall a, b, c :: le(a, b) && le(b, c) ==> le(a, c))
  }

  predicate SortedBy<T>(s: seq<T>, le: (T, T) -> bool) {
    forall i, j :: 0 <= i < j < |s| ==> le(s[i], s[j])
  }

  /** Inserts `x` after every leading element that may stand before it. */
  function Insert<T>(x: T, s: seq<T>, le: (T, T) -> bool): (r: seq<T>)
    ensures multiset(r) == multiset(s) + multiset{x}
  {
    if s == [] then [x]
    else
      assert s == [s[0]] + s[1..];
      if le(s[0], x) then [s[0]] + Insert(x, s[1..], le) else [x] + s
  }

  function SortBy<T>(s: seq<T>, le: (T, T) -> bool): (r: seq<T>)
    ensures multiset(r) == multiset(s)
  {
    if s == [] then []
    else
      var n := |s| - 1;
      assert s == s[..n] + [s[n]];
      Insert(s[n], SortBy(s[..n], le), le)
  }

  /** The elements of `s` tied with `x` under `le`, in their order in `s`. */
  function Ties<T>(s: seq<T>, x: T, le: (T, T) -> bool): seq<T> {
    if s == [] then []
    else
      var n := |s| - 1;
      Ties(s[..n], x, le) + (if le(x, s[n]) && le(s[n], x) then [s[n]] else [])
  }

  lemma {:induction false} InsertSorted<T(!new)>(x: T, s: seq<T>, le: (T, T) -> bool)
    requires TotalPreorder(le) && SortedBy(s, le)
    ensures SortedBy(Insert(x, s, le), le)
  {
    if s != [] && le(s[0], x) {
      InsertSorted(x, s[1..], le);
      var t := Insert(x, s[1..], le);
      forall y | y in t ensures le(s[0], y) {
        assert y in multiset(t);
        if y != x {
          assert y in s[1..];
        }
      }
    }
  }

  /** The sort's result is ordered. */
  lemma {:induction false} SortByIsSorted<T(!new)>(s: seq<T>, le: (T, T) -> bool)
    requires TotalPreorder(le)
    ensures SortedBy(SortBy(s, le), le)
  {
    if s != [] {
      var n := |s| - 1;
      SortByIsSorted(s[..n], le);
      InsertSorted(s[n], SortBy(s[..n], le), le);
    }
  }

  lemma {:induction false} InsertAfterAll<T>(x: T, s: seq<T>, le: (T, T) -> bool)
    requires forall y :: y in s ==> le(y, x)
    ensures Insert(x, s, le) == s + [x]
  {
    if s != [] {
      InsertAfterAll(x, s[1..], le);
    }
  }

  /** Sorting what is already sorted changes nothing: re-sorting a stored,
      sorted list leaves it as it was. */
  lemma {:induction false} SortBySortedIsIdentity<T>(s: seq<T>, le: (T, T) -> bool)
    requires SortedBy(s, le)
    ensures SortBy(s, le) == s
  {
    if s != [] {
      var n := |s| - 1;
      var init, x := s[..n], s[n];
      assert init + [x] == s;
      SortedSplit(init, x, le);
      SortBySortedIsIdentity(init, le);
      InsertAfterAll(x, init, le);
      assert SortBy(s, le) == Insert(x, SortBy(init, le), le);
    }
  }

  /** A sorted sequence is a sorted prefix followed by an element every
      element of the prefix may stand before. */
  lemma SortedSplit<T>(init: seq<T>, x: T, le: (T, T) -> bool)
    requires SortedBy(init + [x], le)
    ensures SortedBy(init, le)
    ensures forall y :: y in init ==> le(y, x)
  {
    var s := init + [x];
    forall i, j | 0 <= i < j < |init| ensures le(init[i], init[j]) {
      assert s[i] == init[i] && s[j] == init[j];
    }
    forall y | y in init ensures le(y, x) {
      var i :| 0 <= i < |init| && init[i] == y;
      assert s[i] == y && s[|init|] == x;
    }
  }

  lemma {:induction false} TiesAppend<T>(a: seq<T>, b: seq<T>, x: T, le: (T, T) -> bool)
    ensures Ties(a + b, x, le) == Ties(a, x, le) + Ties(b, x, le)
  {
    if b != [] {
      var n := |b| - 1;
      assert (a + b)[..|a| + n] == a + b[..n];
      TiesAppend(a, b[..n], x, le);
    } else {
      assert a + b == a;
    }
  }

  lemma {:induction false} NoTies<T>(s: seq<T>, x: T, le: (T, T) -> bool)
    requires forall y :: y in s ==> !(le(x, y) && le(y, x))
    ensures Ties(s, x, le) == []
  {
    if s != [] {
      var n := |s| - 1;
      assert forall y :: y in s[..n] ==> y in s;
      NoTies(s[..n], x, le);
    }
  }

  /** Ties of a single element. */
  lemma {:induction false} TiesOne<T>(e: T, x: T, le: (T, T) -> bool)
    ensures Ties([e], x, le) == if le(x, e) && le(e, x) then [e] else []
  {
    assert [e][..0] == [];
  }

  /** An element that may not stand before the head of a sorted sequence
      is tied with none of it. */
  lemma {:induction false} SmallerThanAll<T(!new)>(e: T, s: seq<T>, x: T, le: (T, T) -> bool)
    requires TotalPreorder(le) && SortedBy(s, le)
    requires s != [] && !le(s[0], e) && le(x, e) && le(e, x)
    ensures Ties(s, x, le) == []
  {
    forall y | y in s ensures !(le(x, y) && le(y, x)) {
      var i :| 0 <= i < |s| && s[i] == y;
      assert le(s[0], y);
    }
    NoTies(s, x, le);
  }

  lemma {:induction false} InsertTies<T(!new)>(e: T, s: seq<T>, x: T, le: (T, T) -> bool)
    requires TotalPreorder(le) && SortedBy(s, le)
    ensures Ties(Insert(e, s, le), x, le)
         == Ties(s, x, le) + (if le(x, e) && le(e, x) then [e] else [])
  {
    TiesOne(e, x, le);
    if s == [] {
      assert Insert(e, s, le) == [e];
    } else if le(s[0], e) {
      assert SortedBy(s[1..], le);
      InsertTies(e, s[1..], x, le);
      InsertTiesStep(e, s, x, le);
    } else {
      assert Insert(e, s, le) == [e] + s;
      TiesAppend([e], s, x, le);
      if le(x, e) && le(e, x) {
        SmallerThanAll(e, s, x, le);
      }
    }
  }

  /** The step of `InsertTies` where `e` goes past the head of `s`. */
  lemma {:induction false} InsertTiesStep<T>(e: T, s: seq<T>, x: T, le: (T, T) -> bool)
    requires s != [] && le(s[0], e)
    requires Ties(Insert(e, s[1..], le), x, le)
          == Ties(s[1..], x, le) + (if le(x, e) && le(e, x) then [e] else [])
    ensures Ties(Insert(e, s, le), x, le)
         == Ties(s, x, le) + (if le(x, e) && le(e, x) then [e] else [])
  {
    assert Insert(e, s, le) == [s[0]] + Insert(e, s[1..], le);
    TiesAppend([s[0]], Insert(e, s[1..], le), x, le);
    TiesAppend([s[0]], s[1..], x, le);
    assert [s[0]] + s[1..] == s;
  }

  /** Stability: the elements tied with any `x` keep their input order. */
  lemma {:induction false} SortByIsStable<T(!new)>(s: seq<T>, x: T, le: (T, T) -> bool)
    requires TotalPreorder(le)
    ensures Ties(SortBy(s, le), x, le) == Ties(s, x, le)
  {
    if s != [] {
      var n := |s| - 1;
      SortByIsStable(s[..n], x, le);
      SortByIsSorted(s[..n], le);
      InsertTies(s[n], SortBy(s[..n], le), x, le);
    }
  }
}
