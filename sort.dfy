/** The stable sort that JavaScript's Array.prototype.sort performs, as a functional insertion sort.
    `lt(a, b)` holds when the comparator puts `a` strictly before `b` (the callback returns a negative
    number); elements for which neither holds are ties and keep their input order. */
module StableSort {

  /** The comparators the views pass are strict weak orders: irreflexive, transitive, and ties are
      transitive (stated as: if a < c, then any b is above a or below c). */
  ghost predicate StrictWeakOrder<T(!new)>(lt: (T, T) -> bool) {
    && (forall a :: !lt(a, a))
    && (forall a, b, c :: lt(a, b) && lt(b, c) ==> lt(a, c))
    && (forall a, b, c :: lt(a, c) ==> lt(a, b) || lt(b, c))
  }

  /** No element is strictly before an element to its left. */
  predicate Sorted<T>(s: seq<T>, lt: (T, T) -> bool) {
    forall i, j :: 0 <= i < j < |s| ==> !lt(s[j], s[i])
  }

  predicate Tie<T>(lt: (T, T) -> bool, a: T, b: T) {
    !lt(a, b) && !lt(b, a)
  }

  /** The elements of `s` that tie with `z`, in the order of `s`. */
  function TiesWith<T>(s: seq<T>, z: T, lt: (T, T) -> bool): seq<T> {
    if s == [] then [] else (if Tie(lt, s[0], z) then [s[0]] else []) + TiesWith(s[1..], z, lt)
  }

  /** Puts `x` in front of the first element that is not strictly before it. */
  function Insert<T>(x: T, s: seq<T>, lt: (T, T) -> bool): (r: seq<T>)
    ensures multiset(r) == multiset(s) + multiset{x}
  {
    if s == [] then [x]
    else if lt(s[0], x) then
      assert s == [s[0]] + s[1..];
      [s[0]] + Insert(x, s[1..], lt)
    else [x] + s
  }

  /** Inserting the elements from the last one to the first keeps earlier elements in front of the
      later elements they tie with. */
  function Sort<T>(s: seq<T>, lt: (T, T) -> bool): (r: seq<T>)
    ensures multiset(r) == multiset(s)
    ensures |r| == |s|
  {
    if s == [] then []
    else
      assert s == [s[0]] + s[1..];
      Insert(s[0], Sort(s[1..], lt), lt)
  }

  /** A sorted sequence stays sorted when an element no later element is strictly before goes in front. */
  lemma ConsSorted<T>(h: T, rest: seq<T>, lt: (T, T) -> bool)
    requires Sorted(rest, lt)
    requires forall k :: 0 <= k < |rest| ==> !lt(rest[k], h)
    ensures Sorted([h] + rest, lt)
  {
    var r := [h] + rest;
    forall i, j | 0 <= i < j < |r| ensures !lt(r[j], r[i]) {
      assert r[j] == rest[j - 1];
      if i > 0 {
        assert r[i] == rest[i - 1];
      }
    }
  }

  /** Under a strict weak order, no element is strictly before the first one when no element is
      strictly before its left neighbour. */
  lemma {:induction false} NeighboursChain<T(!new)>(s: seq<T>, lt: (T, T) -> bool, j: int)
    requires StrictWeakOrder(lt)
    requires forall k :: 0 <= k < |s| - 1 ==> !lt(s[k + 1], s[k])
    requires 0 <= j < |s|
    ensures !lt(s[j], s[0])
  {
    if j > 0 {
      NeighboursChain(s, lt, j - 1);
      assert !lt(s[j], s[j - 1]);
    }
  }

  /** Sortedness follows from the neighbouring pairs alone. */
  lemma {:induction false} SortedFromNeighbours<T(!new)>(s: seq<T>, lt: (T, T) -> bool)
    requires StrictWeakOrder(lt)
    requires forall k :: 0 <= k < |s| - 1 ==> !lt(s[k + 1], s[k])
    ensures Sorted(s, lt)
  {
    if s != [] {
      var t := s[1..];
      forall k | 0 <= k < |t| - 1 ensures !lt(t[k + 1], t[k]) {
        assert t[k + 1] == s[k + 2] && t[k] == s[k + 1];
      }
      SortedFromNeighbours(t, lt);
      forall k | 0 <= k < |t| ensures !lt(t[k], s[0]) {
        NeighboursChain(s, lt, k + 1);
      }
      ConsSorted(s[0], t, lt);
      assert [s[0]] + t == s;
    }
  }

  /** Every element of `Insert(x, s)` is `x` or an element of `s`. */
  lemma {:induction false} InsertFrom<T>(x: T, s: seq<T>, lt: (T, T) -> bool, k: int)
    requires 0 <= k < |Insert(x, s, lt)|
    ensures Insert(x, s, lt)[k] == x || Insert(x, s, lt)[k] in s
  {
    var r := Insert(x, s, lt);
    assert r[k] in multiset(r);
  }

  lemma {:induction false} InsertSorted<T(!new)>(x: T, s: seq<T>, lt: (T, T) -> bool)
    requires StrictWeakOrder(lt)
    requires Sorted(s, lt)
    ensures Sorted(Insert(x, s, lt), lt)
  {
    if s == [] {
    } else if lt(s[0], x) {
      var rest := Insert(x, s[1..], lt);
      SortedTail(s, lt);
      InsertSorted(x, s[1..], lt);
      forall k | 0 <= k < |rest| ensures !lt(rest[k], s[0]) {
        InsertFrom(x, s[1..], lt, k);
        if rest[k] != x {
          var j :| 0 <= j < |s[1..]| && s[1..][j] == rest[k];
          assert s[j + 1] == rest[k];
        }
      }
      ConsSorted(s[0], rest, lt);
    } else {
      forall k | 0 <= k < |s| ensures !lt(s[k], x) {
        if k > 0 {
          assert !lt(s[k], s[0]);
        }
      }
      ConsSorted(x, s, lt);
    }
  }

  /** The result of Sort is sorted. */
  lemma {:induction false} SortSorted<T(!new)>(s: seq<T>, lt: (T, T) -> bool)
    requires StrictWeakOrder(lt)
    ensures Sorted(Sort(s, lt), lt)
  {
    if s != [] {
      SortSorted(s[1..], lt);
      InsertSorted(s[0], Sort(s[1..], lt), lt);
    }
  }

  /** Sorting input that is already sorted changes nothing. */
  lemma {:induction false} SortOfSorted<T(!new)>(s: seq<T>, lt: (T, T) -> bool)
    requires StrictWeakOrder(lt)
    requires Sorted(s, lt)
    ensures Sort(s, lt) == s
  {
    if s != [] {
      SortedTail(s, lt);
      SortOfSorted(s[1..], lt);
      if |s| > 1 {
        assert !lt(s[1..][0], s[0]);
      }
      assert [s[0]] + s[1..] == s;
    }
  }

  lemma SortedTail<T>(s: seq<T>, lt: (T, T) -> bool)
    requires s != [] && Sorted(s, lt)
    ensures Sorted(s[1..], lt)
  {
    forall i, j | 0 <= i < j < |s[1..]| ensures !lt(s[1..][j], s[1..][i]) {
      assert s[1..][j] == s[j + 1] && s[1..][i] == s[i + 1];
    }
  }

  /** Under a strict weak order, an element strictly before `x` cannot tie with what `x` ties with. */
  lemma BeforeIsNoTie<T(!new)>(y: T, x: T, z: T, lt: (T, T) -> bool)
    requires StrictWeakOrder(lt)
    requires lt(y, x)
    ensures Tie(lt, x, z) ==> !Tie(lt, y, z)
  {
  }

  lemma TiesCons<T>(y: T, r: seq<T>, z: T, lt: (T, T) -> bool)
    ensures TiesWith([y] + r, z, lt) == (if Tie(lt, y, z) then [y] else []) + TiesWith(r, z, lt)
  {
    assert ([y] + r)[0] == y && ([y] + r)[1..] == r;
  }

  lemma SwapDisjoint<T>(t0: seq<T>, tx: seq<T>, tail: seq<T>)
    requires t0 == [] || tx == []
    ensures t0 + (tx + tail) == tx + (t0 + tail)
  {
    if t0 == [] {
      assert t0 + (tx + tail) == tx + tail;
      assert tx + (t0 + tail) == tx + tail;
    } else {
      assert t0 + (tx + tail) == t0 + tail;
      assert tx + (t0 + tail) == t0 + tail;
    }
  }

  lemma TiesInsertStep<T>(x: T, s: seq<T>, z: T, lt: (T, T) -> bool)
    requires s != [] && lt(s[0], x)
    requires Tie(lt, x, z) ==> !Tie(lt, s[0], z)
    requires TiesWith(Insert(x, s[1..], lt), z, lt) == TiesWith([x] + s[1..], z, lt)
    ensures TiesWith(Insert(x, s, lt), z, lt) == TiesWith([x] + s, z, lt)
  {
    var rest := Insert(x, s[1..], lt);
    var tail := TiesWith(s[1..], z, lt);
    var t0 := if Tie(lt, s[0], z) then [s[0]] else [];
    var tx := if Tie(lt, x, z) then [x] else [];
    assert Insert(x, s, lt) == [s[0]] + rest;
    TiesCons(s[0], rest, z, lt);
    TiesCons(x, s[1..], z, lt);
    assert TiesWith(s, z, lt) == t0 + tail;
    TiesCons(x, s, z, lt);
    SwapDisjoint(t0, tx, tail);
  }

  /** Inserting into sorted input places `x` in front of every element it ties with. */
  lemma {:induction false} TiesInsert<T(!new)>(x: T, s: seq<T>, z: T, lt: (T, T) -> bool)
    requires StrictWeakOrder(lt)
    requires Sorted(s, lt)
    ensures TiesWith(Insert(x, s, lt), z, lt) == TiesWith([x] + s, z, lt)
  {
    if s != [] && lt(s[0], x) {
      SortedTail(s, lt);
      TiesInsert(x, s[1..], z, lt);
      BeforeIsNoTie(s[0], x, z, lt);
      TiesInsertStep(x, s, z, lt);
    } else {
      assert Insert(x, s, lt) == [x] + s;
    }
  }

  /** Stability: the elements that tie with any `z` come out in the order they went in. */
  lemma {:induction false} SortStable<T(!new)>(s: seq<T>, z: T, lt: (T, T) -> bool)
    requires StrictWeakOrder(lt)
    ensures TiesWith(Sort(s, lt), z, lt) == TiesWith(s, z, lt)
  {
    if s != [] {
      SortStable(s[1..], z, lt);
      SortSorted(s[1..], lt);
      TiesInsert(s[0], Sort(s[1..], lt), z, lt);
      TiesCons(s[0], Sort(s[1..], lt), z, lt);
      TiesCons(s[0], s[1..], z, lt);
      assert [s[0]] + s[1..] == s;
    }
  }
}
