/** Small facts about finite sequences that several components share. */
module Sequences {

  ghost predicate Distinct<T>(s: seq<T>) {
    forall i, j :: 0 <= i < j < |s| ==> s[i] != s[j]
  }

  function Elements<T>(s: seq<T>): set<T> {
    set x | x in s
  }

  lemma {:induction false} DistinctSize<T>(s: seq<T>)
    requires Distinct(s)
    ensures |Elements(s)| == |s|
  {
    if |s| > 0 {
      var front := s[..|s| - 1];
      DistinctSize(front);
      assert Elements(s) == Elements(front) + {s[|s| - 1]};
    }
  }

  lemma DistinctConcat<T>(a: seq<T>, b: seq<T>)
    requires Distinct(a) && Distinct(b)
    requires forall x :: x in a ==> x !in b
    ensures Distinct(a + b)
    ensures forall x :: x in a + b <==> x in a || x in b
  {
    forall i, j | 0 <= i < j < |a + b| ensures (a + b)[i] != (a + b)[j] {
      if i < |a| <= j {
        assert a[i] in a && b[j - |a|] in b;
      }
    }
  }

  /** More entries than available values: two entries coincide. */
  lemma Pigeonhole<T>(s: seq<T>, values: set<T>)
    requires forall x :: x in s ==> x in values
    requires |s| > |values|
    ensures exists i, j :: 0 <= i < j < |s| && s[i] == s[j]
  {
    if Distinct(s) {
      DistinctSize(s);
      SubsetSize(Elements(s), values);
    }
  }

  lemma {:induction false} SubsetSize<T>(a: set<T>, b: set<T>)
    requires a <= b
    ensures |a| <= |b|
    ensures |a| == |b| ==> a == b
  {
    if a != {} {
      var x :| x in a;
      SubsetSize(a - {x}, b - {x});
    }
  }

  lemma TwiceCounted<T>(s: seq<T>, i: nat, j: nat)
    requires i < j < |s| && s[i] == s[j]
    ensures multiset(s)[s[i]] >= 2
  {
    assert s == s[..j] + s[j..];
    assert s[..j][i] == s[i] && s[j..][0] == s[i];
    assert s[i] in s[..j] && s[i] in s[j..];
  }

  lemma CountedTwice<T>(s: seq<T>, x: T)
    requires multiset(s)[x] >= 2
    ensures exists i, j :: 0 <= i < j < |s| && s[i] == x && s[j] == x
  {
    assert x in s;
    var k :| 0 <= k < |s| && s[k] == x;
    var front, back := s[..k], s[k + 1..];
    assert s == front + [x] + back;
    assert multiset(s)[x] == multiset(front)[x] + 1 + multiset(back)[x];
    if x in front {
      var l :| 0 <= l < |front| && front[l] == x;
      assert s[l] == x;
    } else {
      assert x in back;
      var l :| 0 <= l < |back| && back[l] == x;
      assert s[k + 1 + l] == x;
    }
  }

  lemma SameMembers<T>(a: seq<T>, b: seq<T>)
    requires multiset(a) == multiset(b)
    ensures |a| == |b| && forall x :: x in a <==> x in b
  {
    assert |multiset(a)| == |a| && |multiset(b)| == |b|;
    forall x ensures x in a <==> x in b {
      assert x in a <==> x in multiset(a);
      assert x in b <==> x in multiset(b);
    }
  }

  /** Two places of b correspond to two places of a rearrangement a. */
  lemma PairInOther<T>(a: seq<T>, b: seq<T>, i: nat, j: nat)
    requires multiset(a) == multiset(b) && i < |b| && j < |b| && i != j
    ensures exists k, l :: 0 <= k < |a| && 0 <= l < |a| && k != l && a[k] == b[i] && a[l] == b[j]
  {
    SameMembers(a, b);
    if b[i] == b[j] {
      TwiceCounted(b, if i < j then i else j, if i < j then j else i);
      CountedTwice(a, b[i]);
    } else {
      assert b[i] in a && b[j] in a;
    }
  }

  // ---- The elements with a property ----

  function Filter<T>(s: seq<T>, p: T -> bool): seq<T> {
    if s == [] then []
    else if p(s[0]) then [s[0]] + Filter(s[1..], p)
    else Filter(s[1..], p)
  }

  ghost predicate NoneIs<T>(s: seq<T>, p: T -> bool) {
    forall j :: 0 <= j < |s| ==> !p(s[j])
  }

  /** Exactly one place has the property, and it is this one. */
  ghost predicate OnlyAt<T>(s: seq<T>, p: T -> bool, k: int) {
    0 <= k < |s| && p(s[k]) && forall j :: 0 <= j < |s| && p(s[j]) ==> j == k
  }

  lemma {:induction false} FilterMembers<T>(s: seq<T>, p: T -> bool, x: T)
    ensures x in Filter(s, p) <==> x in s && p(x)
  {
    if s != [] {
      FilterMembers(s[1..], p, x);
      assert s == [s[0]] + s[1..];
    }
  }

  lemma FilterNone<T>(s: seq<T>, p: T -> bool)
    ensures Filter(s, p) == [] <==> NoneIs(s, p)
  {
    if Filter(s, p) != [] {
      FilterMembers(s, p, Filter(s, p)[0]);
    }
    forall j | 0 <= j < |s| && p(s[j]) ensures Filter(s, p) != [] {
      FilterMembers(s, p, s[j]);
    }
  }

  lemma ShiftsBy<T>(s: seq<T>, p: T -> bool, k: int)
    requires s != [] && !p(s[0])
    ensures OnlyAt(s, p, k + 1) <==> OnlyAt(s[1..], p, k)
  {
    var rest := s[1..];
    if OnlyAt(rest, p, k) {
      forall j | 0 <= j < |s| && p(s[j]) ensures j == k + 1 { assert rest[j - 1] == s[j]; }
    }
    if OnlyAt(s, p, k + 1) {
      forall j | 0 <= j < |rest| && p(rest[j]) ensures j == k { assert rest[j] == s[j + 1]; }
    }
  }

  /** One element is left exactly when one place has the property; it is the element there. */
  lemma {:induction false} FilterOne<T>(s: seq<T>, p: T -> bool)
    ensures |Filter(s, p)| == 1 <==> exists k :: OnlyAt(s, p, k)
    ensures forall k :: OnlyAt(s, p, k) ==> Filter(s, p) == [s[k]]
  {
    if s != [] {
      var rest := s[1..];
      FilterOne(rest, p);
      FilterNone(rest, p);
      if p(s[0]) {
        forall k | OnlyAt(s, p, k) ensures k == 0 && NoneIs(rest, p) {
          forall j | 0 <= j < |rest| ensures !p(rest[j]) { assert rest[j] == s[j + 1]; }
        }
        if NoneIs(rest, p) {
          forall j | 0 < j < |s| ensures !p(s[j]) { assert rest[j - 1] == s[j]; }
          assert OnlyAt(s, p, 0);
        }
      } else {
        forall k | OnlyAt(s, p, k) ensures OnlyAt(rest, p, k - 1) && rest[k - 1] == s[k] {
          ShiftsBy(s, p, k - 1);
        }
        forall k | OnlyAt(rest, p, k) ensures OnlyAt(s, p, k + 1) {
          ShiftsBy(s, p, k);
        }
      }
    }
  }
}
