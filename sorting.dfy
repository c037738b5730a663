/** `Array.prototype.sort` with a consistent comparator, as a stable insertion
    sort over a strict weak order. The language requires the sort to be stable
    (ECMAScript 2019 and later), and `StableSortUnique` shows that there is only
    one sorted, stable rearrangement, so this definition is the engine's result
    whatever algorithm the engine uses. */
module Sorting {

  /** `less(a, b)` is "the comparator returns a negative number for (a, b)". */
  ghost predicate StrictWeakOrder<T(!new)>(less: (T, T) -> bool) {
    && (forall x :: !less(x, x))
    && (forall x, y, z :: less(x, y) && less(y, z) ==> less(x, z))
    && (forall x, y, z :: !less(x, y) && !less(y, z) ==> !less(x, z))
  }

  /** Neither element goes before the other: the comparator returns 0. */
  predicate Equiv<T>(less: (T, T) -> bool, x: T, y: T) {
    !less(x, y) && !less(y, x)
  }

  ghost predicate SortedBy<T>(s: seq<T>, less: (T, T) -> bool) {
    forall i, j :: 0 <= i < j < |s| ==> !less(s[j], s[i])
  }

  /** The elements of `s` that compare equal to `e`, in their order in `s`. */
  function Equivs<T>(s: seq<T>, e: T, less: (T, T) -> bool): (r: seq<T>)
    ensures forall x :: x in r ==> x in s && Equiv(less, x, e)
  {
    if s == [] then []
    else (if Equiv(less, s[0], e) then [s[0]] else []) + Equivs(s[1..], e, less)
  }

  /** Puts `x` in front of the first element it goes strictly before. */
  function Insert<T>(x: T, s: seq<T>, less: (T, T) -> bool): seq<T> {
    if s == [] then [x]
    else if less(x, s[0]) then [x] + s
    else [s[0]] + Insert(x, s[1..], less)
  }

  function Sort<T>(s: seq<T>, less: (T, T) -> bool): seq<T> {
    if s == [] then []
    else Insert(s[|s| - 1], Sort(s[..|s| - 1], less), less)
  }

  lemma {:induction false} InsertPermutes<T>(x: T, s: seq<T>, less: (T, T) -> bool)
    ensures multiset(Insert(x, s, less)) == multiset(s) + multiset{x}
  {
    if s != [] && !less(x, s[0]) {
      InsertPermutes(x, s[1..], less);
      assert s == [s[0]] + s[1..];
    }
  }

  /** The sort returns a permutation of its input. */
  lemma {:induction false} SortPermutes<T>(s: seq<T>, less: (T, T) -> bool)
    ensures multiset(Sort(s, less)) == multiset(s)
  {
    if s != [] {
      SortPermutes(s[..|s| - 1], less);
      InsertPermutes(s[|s| - 1], Sort(s[..|s| - 1], less), less);
      assert s == s[..|s| - 1] + [s[|s| - 1]];
    }
  }

  lemma {:induction false} InsertSorted<T(!new)>(x: T, s: seq<T>, less: (T, T) -> bool)
    requires StrictWeakOrder(less) && SortedBy(s, less)
    ensures SortedBy(Insert(x, s, less), less)
  {
    if s != [] && !less(x, s[0]) {
      InsertSorted(x, s[1..], less);
      InsertPermutes(x, s[1..], less);
      var t := Insert(x, s[1..], less);
      forall j | 0 <= j < |t| ensures !less(t[j], s[0]) {
        assert t[j] in multiset(s[1..]) + multiset{x};
      }
    }
  }

  /** The sort returns its input in comparator order. */
  lemma {:induction false} SortSorted<T(!new)>(s: seq<T>, less: (T, T) -> bool)
    requires StrictWeakOrder(less)
    ensures SortedBy(Sort(s, less), less)
  {
    if s != [] {
      SortSorted(s[..|s| - 1], less);
      InsertSorted(s[|s| - 1], Sort(s[..|s| - 1], less), less);
    }
  }

  lemma {:induction false} EquivsAppend<T>(s: seq<T>, x: T, e: T, less: (T, T) -> bool)
    ensures Equivs(s + [x], e, less) == Equivs(s, e, less) + (if Equiv(less, x, e) then [x] else [])
  {
    if s != [] {
      assert (s + [x])[1..] == s[1..] + [x];
      EquivsAppend(s[1..], x, e, less);
    }
  }

  /** In a sorted sequence, nothing after an element `y` that `x` goes before
      compares equal to `x`; so `x` lands after everything equal to it. */
  lemma {:induction false} InsertEquivs<T(!new)>(x: T, s: seq<T>, e: T, less: (T, T) -> bool)
    requires StrictWeakOrder(less) && SortedBy(s, less)
    ensures Equivs(Insert(x, s, less), e, less) == Equivs(s, e, less) + (if Equiv(less, x, e) then [x] else [])
  {
    if s == [] {
    } else if less(x, s[0]) {
      if Equiv(less, x, e) {
        forall k | 0 <= k < |s| ensures !Equiv(less, s[k], e) {
          assert !less(s[k], s[0]);
        }
        EquivsNone(s, e, less);
      }
    } else {
      InsertEquivs(x, s[1..], e, less);
    }
  }

  lemma {:induction false} EquivsNone<T>(s: seq<T>, e: T, less: (T, T) -> bool)
    requires forall k :: 0 <= k < |s| ==> !Equiv(less, s[k], e)
    ensures Equivs(s, e, less) == []
  {
    if s != [] {
      EquivsNone(s[1..], e, less);
    }
  }

  /** Stability: elements that compare equal keep their input order. */
  lemma {:induction false} SortStable<T(!new)>(s: seq<T>, e: T, less: (T, T) -> bool)
    requires StrictWeakOrder(less)
    ensures Equivs(Sort(s, less), e, less) == Equivs(s, e, less)
  {
    if s != [] {
      var init := s[..|s| - 1];
      SortStable(init, e, less);
      SortSorted(init, less);
      InsertEquivs(s[|s| - 1], Sort(init, less), e, less);
      assert s == init + [s[|s| - 1]];
      EquivsAppend(init, s[|s| - 1], e, less);
    }
  }

  lemma SortedTail<T>(s: seq<T>, less: (T, T) -> bool)
    requires s != [] && SortedBy(s, less)
    ensures SortedBy(s[1..], less)
  {
    forall i, j | 0 <= i < j < |s| - 1 ensures !less(s[1..][j], s[1..][i]) {
      assert s[1..][j] == s[j + 1] && s[1..][i] == s[i + 1];
    }
  }

  /** There is exactly one sorted sequence whose equal-comparing elements
      appear in the given order: any stable sort returns `Sort(s, less)`. */
  lemma {:induction false} StableOrderUnique<T(!new)>(a: seq<T>, b: seq<T>, less: (T, T) -> bool)
    requires StrictWeakOrder(less) && SortedBy(a, less) && SortedBy(b, less)
    requires forall e :: Equivs(a, e, less) == Equivs(b, e, less)
    ensures a == b
  {
    if a == [] {
    } else {
      var x := a[0];
      assert x in Equivs(a, x, less);
      assert x in Equivs(b, x, less);
      var p :| 0 <= p < |b| && b[p] == x;
      assert b[0] in Equivs(b, b[0], less);
      assert b[0] in Equivs(a, b[0], less);
      var q :| 0 <= q < |a| && a[q] == b[0];
      assert p == 0 || !less(b[p], b[0]);
      assert q == 0 || !less(a[q], a[0]);
      assert Equiv(less, b[0], x);
      assert Equivs(a, x, less)[0] == x;
      assert Equivs(b, x, less)[0] == b[0];
      forall e ensures Equivs(a[1..], e, less) == Equivs(b[1..], e, less) {
        var h := if Equiv(less, x, e) then [x] else [];
        assert Equivs(a, e, less) == h + Equivs(a[1..], e, less);
        assert Equivs(b, e, less) == h + Equivs(b[1..], e, less);
        assert (h + Equivs(a[1..], e, less))[|h|..] == Equivs(a[1..], e, less);
        assert (h + Equivs(b[1..], e, less))[|h|..] == Equivs(b[1..], e, less);
      }
      SortedTail(a, less);
      SortedTail(b, less);
      StableOrderUnique(a[1..], b[1..], less);
      assert a == [x] + a[1..] && b == [x] + b[1..];
    }
  }

  lemma StableSortUnique<T(!new)>(s: seq<T>, r: seq<T>, less: (T, T) -> bool)
    requires StrictWeakOrder(less) && SortedBy(r, less)
    requires forall e :: Equivs(r, e, less) == Equivs(s, e, less)
    ensures r == Sort(s, less)
  {
    SortSorted(s, less);
    forall e ensures Equivs(r, e, less) == Equivs(Sort(s, less), e, less) {
      SortStable(s, e, less);
    }
    StableOrderUnique(r, Sort(s, less), less);
  }

  /** Sorting an already sorted sequence changes nothing, so re-sorting the
      result is idempotent. */
  lemma SortIdempotent<T(!new)>(s: seq<T>, less: (T, T) -> bool)
    requires StrictWeakOrder(less)
    ensures Sort(Sort(s, less), less) == Sort(s, less)
  {
    var r := Sort(s, less);
    SortSorted(s, less);
    SortSorted(r, less);
    forall e ensures Equivs(r, e, less) == Equivs(Sort(r, less), e, less) {
      SortStable(r, e, less);
    }
    StableOrderUnique(r, Sort(r, less), less);
  }
}
