/** Stable insertion sort, standing for the library sort with a key. */
module Sorting {
  import opened Sequences

  /** A strict order that any two unequal keys are comparable in. */
  ghost predicate Linear<T(!new)>(before: (T, T) -> bool) {
    && (forall a, b :: before(a, b) ==> !before(b, a))
    && (forall a, b, c :: !before(b, a) && !before(c, b) ==> !before(c, a))
  }

  ghost predicate Ordered<T>(s: seq<T>, before: (T, T) -> bool) {
    forall i, j :: 0 <= i < j < |s| ==> !before(s[j], s[i])
  }

  function Insert<T>(x: T, s: seq<T>, before: (T, T) -> bool): seq<T> {
    if s == [] || !before(s[0], x) then [x] + s else [s[0]] + Insert(x, s[1..], before)
  }

  function SortBy<T>(s: seq<T>, before: (T, T) -> bool): seq<T> {
    if s == [] then [] else Insert(s[0], SortBy(s[1..], before), before)
  }

  lemma {:induction false} InsertKeeps<T>(x: T, s: seq<T>, before: (T, T) -> bool)
    ensures multiset(Insert(x, s, before)) == multiset(s) + multiset{x}
  {
    if s != [] && before(s[0], x) {
      InsertKeeps(x, s[1..], before);
      assert s == [s[0]] + s[1..];
    }
  }

  lemma {:induction false} InsertMeaning<T(!new)>(x: T, s: seq<T>, before: (T, T) -> bool)
    requires Linear(before) && Ordered(s, before)
    ensures Ordered(Insert(x, s, before), before)
    ensures multiset(Insert(x, s, before)) == multiset(s) + multiset{x}
  {
    InsertKeeps(x, s, before);
    if s == [] {
    } else if !before(s[0], x) {
      var r := [x] + s;
      forall i, j | 0 <= i < j < |r| ensures !before(r[j], r[i]) {
        assert j > 1 ==> !before(s[j - 1], s[0]);
      }
    } else {
      var rest := Insert(x, s[1..], before);
      InsertMeaning(x, s[1..], before);
      forall k | 0 <= k < |rest| ensures !before(rest[k], s[0]) {
        assert rest[k] in multiset(rest);
        assert rest[k] == x || rest[k] in s[1..];
      }
    }
  }

  /** The sort orders the list and only rearranges it. */
  lemma {:induction false} SortByMeaning<T(!new)>(s: seq<T>, before: (T, T) -> bool)
    requires Linear(before)
    ensures Ordered(SortBy(s, before), before) && multiset(SortBy(s, before)) == multiset(s)
  {
    if s != [] {
      SortByMeaning(s[1..], before);
      InsertMeaning(s[0], SortBy(s[1..], before), before);
      assert s == [s[0]] + s[1..];
    }
  }

  /** Of any two different elements one comes before the other. */
  ghost predicate TotalOn<T>(s: seq<T>, before: (T, T) -> bool) {
    forall i, j :: 0 <= i < |s| && 0 <= j < |s| && s[i] != s[j] ==> before(s[i], s[j]) || before(s[j], s[i])
  }

  lemma TailsMatch<T>(a: seq<T>, b: seq<T>)
    requires multiset(a) == multiset(b) && a != [] && b != [] && a[0] == b[0]
    ensures multiset(a[1..]) == multiset(b[1..])
  {
    assert a == [a[0]] + a[1..] && b == [b[0]] + b[1..];
    assert multiset(a[1..]) == multiset(a) - multiset{a[0]};
  }

  /** There is only one ordered arrangement of elements of which any two different ones are in order. */
  lemma {:induction false} OrderedIsUnique<T(!new)>(a: seq<T>, b: seq<T>, before: (T, T) -> bool)
    requires multiset(a) == multiset(b) && Ordered(a, before) && Ordered(b, before) && TotalOn(a, before)
    ensures a == b
  {
    SameMembers(a, b);
    if a != [] {
      FirstIsFirst(a, b, before);
      FirstIsFirst(b, a, before);
      assert a[0] == b[0] by {
        assert b[0] in a;
      }
      TailsMatch(a, b);
      OrderedIsUnique(a[1..], b[1..], before);
      assert a == [a[0]] + a[1..] && b == [b[0]] + b[1..];
    }
  }

  lemma FirstIsFirst<T>(a: seq<T>, b: seq<T>, before: (T, T) -> bool)
    requires a != [] && b != [] && Ordered(a, before) && b[0] in a
    ensures b[0] == a[0] || !before(b[0], a[0])
  {
    var k :| 0 <= k < |a| && a[k] == b[0];
    if k > 0 { assert !before(a[k], a[0]); }
  }

  function Mapped<T, U>(s: seq<T>, f: T -> U): (r: seq<U>)
    ensures |r| == |s| && forall k :: 0 <= k < |s| ==> r[k] == f(s[k])
  {
    if s == [] then [] else [f(s[0])] + Mapped(s[1..], f)
  }

  /** Sorting before or after an order-preserving renaming is the same. */
  lemma {:induction false} SortCommutes<T(!new), U>(s: seq<T>, f: T -> U, before: (T, T) -> bool, after: (U, U) -> bool)
    requires forall a, b :: before(a, b) <==> after(f(a), f(b))
    ensures Mapped(SortBy(s, before), f) == SortBy(Mapped(s, f), after)
  {
    if s != [] {
      SortCommutes(s[1..], f, before, after);
      InsertCommutes(s[0], SortBy(s[1..], before), f, before, after);
    }
  }

  lemma {:induction false} InsertCommutes<T(!new), U>(x: T, s: seq<T>, f: T -> U, before: (T, T) -> bool,
                                                     after: (U, U) -> bool)
    requires forall a, b :: before(a, b) <==> after(f(a), f(b))
    ensures Mapped(Insert(x, s, before), f) == Insert(f(x), Mapped(s, f), after)
  {
    if s == [] {
    } else if !before(s[0], x) {
      assert ([x] + s)[1..] == s;
    } else {
      InsertCommutes(x, s[1..], f, before, after);
      assert ([s[0]] + Insert(x, s[1..], before))[1..] == Insert(x, s[1..], before);
    }
  }
}
