/**
 Sorting by a strict order. `Sort` stands for the library sorts of the original
 (`sort.SliceStable`, `sort.Strings`, SQL's ORDER BY); what is used about it is that
 a strictly sorted arrangement of given elements exists and is unique.
 */
module Sorting {
  import opened Common

  ghost predicate StrictlySorted<T>(s: seq<T>, less: (T, T) -> bool) {
    forall i, j :: 0 <= i < j < |s| ==> less(s[i], s[j])
  }

  /** `less` is a strict total order on the elements of `s`. */
  ghost predicate TotalOn<T(!new)>(s: seq<T>, less: (T, T) -> bool) {
    && (forall x | x in s :: !less(x, x))
    && (forall x, y | x in s && y in s && x != y :: less(x, y) || less(y, x))
    && (forall x, y, z | x in s && y in s && z in s && less(x, y) && less(y, z) :: less(x, z))
  }

  function Insert<T>(x: T, s: seq<T>, less: (T, T) -> bool): seq<T> {
    if s == [] || less(x, s[0]) then [x] + s else [s[0]] + Insert(x, s[1..], less)
  }

  function Sort<T>(s: seq<T>, less: (T, T) -> bool): seq<T> {
    if s == [] then [] else Insert(s[0], Sort(s[1..], less), less)
  }

  lemma {:induction false} InsertElements<T>(x: T, s: seq<T>, less: (T, T) -> bool)
    ensures |Insert(x, s, less)| == |s| + 1
    ensures forall y :: y in Insert(x, s, less) <==> y == x || y in s
  {
    if s == [] || less(x, s[0]) {
    } else {
      InsertElements(x, s[1..], less);
      assert s == [s[0]] + s[1..];
    }
  }

  lemma {:induction false} SortElements<T>(s: seq<T>, less: (T, T) -> bool)
    ensures |Sort(s, less)| == |s|
    ensures forall y :: y in Sort(s, less) <==> y in s
  {
    if s == [] {
    } else {
      SortElements(s[1..], less);
      InsertElements(s[0], Sort(s[1..], less), less);
      assert s == [s[0]] + s[1..];
    }
  }

  lemma {:induction false} InsertSorted<T(!new)>(x: T, s: seq<T>, less: (T, T) -> bool)
    requires StrictlySorted(s, less) && TotalOn([x] + s, less) && x !in s
    ensures StrictlySorted(Insert(x, s, less), less)
  {
    if s == [] {
    } else if less(x, s[0]) {
      forall j | 0 <= j < |s| ensures less(x, s[j]) {
        assert x in [x] + s && s[0] in [x] + s && s[j] in [x] + s;
      }
    } else {
      var rest := s[1..];
      assert forall y :: y in [x] + rest ==> y in [x] + s;
      InsertSorted(x, rest, less);
      InsertElements(x, rest, less);
      var tail := Insert(x, rest, less);
      forall j | 0 <= j < |tail| ensures less(s[0], tail[j]) {
        assert tail[j] in tail;
        assert x in [x] + s && s[0] in [x] + s;
        if tail[j] != x {
          var k :| 0 <= k < |rest| && rest[k] == tail[j];
          assert less(s[0], s[k + 1]);
        }
      }
    }
  }

  /** Sorting distinct elements gives a strictly sorted arrangement of exactly them. */
  lemma {:induction false} SortSorts<T(!new)>(s: seq<T>, less: (T, T) -> bool)
    requires TotalOn(s, less) && NoDuplicates(s)
    ensures StrictlySorted(Sort(s, less), less) && SameElements(Sort(s, less), s) && |Sort(s, less)| == |s|
  {
    SortElements(s, less);
    if s != [] {
      var rest := s[1..];
      assert s == [s[0]] + rest;
      assert forall y :: y in rest ==> y in s;
      SortSorts(rest, less);
      SortElements(rest, less);
      var sorted := Sort(rest, less);
      assert forall y :: y in [s[0]] + sorted ==> y in s;
      assert forall k :: 0 <= k < |rest| ==> rest[k] == s[k + 1] != s[0];
      InsertSorted(s[0], sorted, less);
    }
  }

  /** A strictly sorted arrangement of given elements is unique. */
  lemma {:induction false} SortedUnique<T(!new)>(a: seq<T>, b: seq<T>, less: (T, T) -> bool)
    requires StrictlySorted(a, less) && StrictlySorted(b, less)
    requires TotalOn(a, less) && SameElements(a, b)
    ensures a == b
  {
    if a == [] {
      HeadIn(b);
    } else {
      assert a[0] in a;
      var i :| 0 <= i < |b| && b[i] == a[0];
      assert b[0] in b;
      var j :| 0 <= j < |a| && a[j] == b[0];
      assert a[0] == b[0];
      SortedTails(a, b, less);
      SortedUnique(a[1..], b[1..], less);
      assert a == [a[0]] + a[1..] && b == [b[0]] + b[1..];
    }
  }

  lemma SortedTails<T(!new)>(a: seq<T>, b: seq<T>, less: (T, T) -> bool)
    requires a != [] && b != [] && a[0] == b[0]
    requires StrictlySorted(a, less) && StrictlySorted(b, less)
    requires TotalOn(a, less) && SameElements(a, b)
    ensures StrictlySorted(a[1..], less) && StrictlySorted(b[1..], less)
    ensures TotalOn(a[1..], less) && SameElements(a[1..], b[1..])
  {
    assert a[0] in a;
    assert forall x :: x in a[1..] ==> x in a;
    forall x ensures x in a[1..] <==> x in b[1..] {
      if x in a[1..] {
        var i :| 0 <= i < |a[1..]| && a[1..][i] == x;
        assert less(a[0], a[i + 1]);
        assert x in b && x != b[0];
        var j :| 0 <= j < |b| && b[j] == x;
        assert b[1..][j - 1] == x;
      }
      if x in b[1..] {
        var i :| 0 <= i < |b[1..]| && b[1..][i] == x;
        assert less(b[0], b[i + 1]);
        assert x in a && x != a[0];
        var j :| 0 <= j < |a| && a[j] == x;
        assert a[1..][j - 1] == x;
      }
    }
  }

  lemma {:induction false} InsertAgrees<T>(x: T, s: seq<T>, less: (T, T) -> bool, other: (T, T) -> bool)
    requires forall y | y in s :: less(x, y) == other(x, y)
    ensures Insert(x, s, less) == Insert(x, s, other)
  {
    if s != [] && !less(x, s[0]) {
      InsertAgrees(x, s[1..], less, other);
    }
  }

  /** Orders that agree on the elements sort them alike. */
  lemma {:induction false} SortAgrees<T(!new)>(s: seq<T>, less: (T, T) -> bool, other: (T, T) -> bool)
    requires forall x, y | x in s && y in s :: less(x, y) == other(x, y)
    ensures Sort(s, less) == Sort(s, other)
  {
    if s != [] {
      SortAgrees(s[1..], less, other);
      SortElements(s[1..], less);
      forall y | y in Sort(s[1..], less) ensures less(s[0], y) == other(s[0], y) {
        assert s[0] in s && y in s;
      }
      InsertAgrees(s[0], Sort(s[1..], less), less, other);
    }
  }

  /** Reversing a listing turns it into the listing for the reversed order. */
  lemma ReverseSorted<T>(s: seq<T>, less: (T, T) -> bool, greater: (T, T) -> bool)
    requires StrictlySorted(s, less)
    requires forall i, j | 0 <= i < |s| && 0 <= j < |s| && less(s[i], s[j]) :: greater(s[j], s[i])
    ensures StrictlySorted(ReverseSeq(s), greater)
    ensures forall x :: x in ReverseSeq(s) <==> x in s
  {
    var r := ReverseSeq(s);
    forall i, j | 0 <= i < j < |r| ensures greater(r[i], r[j]) {
      assert less(s[|s| - 1 - j], s[|s| - 1 - i]);
    }
    forall x ensures x in r <==> x in s {
      if x in s {
        var i :| 0 <= i < |s| && s[i] == x;
        assert r[|s| - 1 - i] == x;
      }
    }
  }

  function Flip<T>(less: (T, T) -> bool): (T, T) -> bool {
    (x, y) => less(y, x)
  }

  /** Sorting by an agreeing order, and reversing that, are sorting by the order and by its flip. */
  lemma SortedEitherWay<T(!new)>(s: seq<T>, less: (T, T) -> bool, other: (T, T) -> bool)
    requires forall x, y | x in s && y in s :: less(x, y) == other(x, y)
    requires TotalOn(s, other) && TotalOn(s, Flip(other)) && NoDuplicates(s)
    ensures Sort(s, less) == Sort(s, other) && ReverseSeq(Sort(s, less)) == Sort(s, Flip(other))
  {
    SortAgrees(s, less, other);
    SortSorts(s, other);
    SortSorts(s, Flip(other));
    ReverseSorted(Sort(s, other), other, Flip(other));
    SortedUnique(ReverseSeq(Sort(s, other)), Sort(s, Flip(other)), Flip(other));
  }

  // Strings in byte order. For valid UTF-8 this is the order of the characters.

  predicate LexLess(a: string, b: string) {
    if b == [] then false
    else if a == [] then true
    else if a[0] != b[0] then a[0] < b[0]
    else LexLess(a[1..], b[1..])
  }

  /** At the first position where the strings differ `a` has the smaller character, or `a` ends there. */
  predicate SmallerAt(a: string, b: string, k: nat) {
    k <= |a| && k < |b| && (forall i :: 0 <= i < k ==> a[i] == b[i]) && (k == |a| || a[k] < b[k])
  }

  lemma {:induction false} LexLessIff(a: string, b: string)
    ensures LexLess(a, b) <==> exists k: nat :: SmallerAt(a, b, k)
  {
    if b != [] && (a == [] || a[0] < b[0]) {
      assert SmallerAt(a, b, 0);
    } else if a != [] && b != [] && a[0] == b[0] {
      LexLessIff(a[1..], b[1..]);
      if k: nat :| SmallerAt(a[1..], b[1..], k) { assert SmallerAt(a, b, k + 1); }
      if k: nat :| SmallerAt(a, b, k) { assert SmallerAt(a[1..], b[1..], k - 1); }
    }
  }

  lemma {:induction false} LexTrichotomy(a: string, b: string)
    ensures !LexLess(a, a)
    ensures a != b ==> LexLess(a, b) != LexLess(b, a)
  {
    if a != [] {
      LexTrichotomy(a[1..], if b == [] then [] else b[1..]);
    }
    if a != [] && b != [] && a[0] == b[0] && a != b {
      assert a == [a[0]] + a[1..] && b == [b[0]] + b[1..];
    }
  }

  lemma {:induction false} LexTransitive(a: string, b: string, c: string)
    requires LexLess(a, b) && LexLess(b, c)
    ensures LexLess(a, c)
  {
    if a != [] && b != [] && c != [] && a[0] == b[0] && b[0] == c[0] {
      LexTransitive(a[1..], b[1..], c[1..]);
    }
  }

  lemma LexTotalOn(s: seq<string>)
    ensures TotalOn(s, LexLess)
  {
    forall x, y { LexTrichotomy(x, y); }
    forall x, y, z | LexLess(x, y) && LexLess(y, z) ensures LexLess(x, z) { LexTransitive(x, y, z); }
  }
}
