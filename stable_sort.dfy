/**
 * Python's `list.sort(key=..., reverse=...)` is a stable sort. It is modelled here as an insertion
 * sort over a strict weak order `before` ("a sorts before b"): the result is ordered, it is a
 * permutation of the input, and elements that are tied keep their input order.
 */
module StableSort {

  /** A strict weak order: irreflexive, transitive, and "x before z" forces any y to be after x or before z. */
  ghost predicate StrictWeakOrder<T(!new)>(before: (T, T) -> bool) {
    && (forall x :: !before(x, x))
    && (forall x, y, z :: before(x, y) && before(y, z) ==> before(x, z))
    && (forall x, y, z :: before(x, z) ==> before(x, y) || before(y, z))
  }

  /** Neither element sorts before the other. */
  predicate Tied<T>(before: (T, T) -> bool, a: T, b: T) {
    !before(a, b) && !before(b, a)
  }

  /** No element sorts before one to its left. */
  ghost predicate Ordered<T>(s: seq<T>, before: (T, T) -> bool) {
    forall i, j :: 0 <= i < j < |s| ==> !before(s[j], s[i])
  }

  /** Insert `x` in front of the first element that does not sort before it. */
  function Insert<T>(x: T, s: seq<T>, before: (T, T) -> bool): (r: seq<T>)
    ensures |r| == |s| + 1
    decreases |s|
  {
    if s == [] then [x]
    else if before(s[0], x) then [s[0]] + Insert(x, s[1..], before)
    else [x] + s
  }

  /** The stable sort: the first element is inserted into the sorted rest ahead of anything tied with it. */
  function Sort<T>(s: seq<T>, before: (T, T) -> bool): (r: seq<T>)
    ensures |r| == |s|
    decreases |s|
  {
    if s == [] then [] else Insert(s[0], Sort(s[1..], before), before)
  }

  /** The elements of `s` that are tied with `z`, in their order in `s`. */
  function TiedWith<T>(s: seq<T>, z: T, before: (T, T) -> bool): seq<T>
    decreases |s|
  {
    if s == [] then []
    else (if Tied(before, s[0], z) then [s[0]] else []) + TiedWith(s[1..], z, before)
  }

  lemma {:induction false} InsertPermutes<T>(x: T, s: seq<T>, before: (T, T) -> bool)
    ensures multiset(Insert(x, s, before)) == multiset(s) + multiset{x}
    decreases |s|
  {
    if s != [] {
      assert s == [s[0]] + s[1..];
      if before(s[0], x) {
        InsertPermutes(x, s[1..], before);
      }
    }
  }

  lemma OrderedTail<T>(s: seq<T>, before: (T, T) -> bool)
    requires s != [] && Ordered(s, before)
    ensures Ordered(s[1..], before)
  {
    forall i, j | 0 <= i < j < |s[1..]| ensures !before(s[1..][j], s[1..][i]) {
      assert s[1..][j] == s[j + 1] && s[1..][i] == s[i + 1];
    }
  }

  /** An ordered list stays ordered below a head that nothing in it sorts before. */
  lemma OrderedCons<T>(h: T, t: seq<T>, before: (T, T) -> bool)
    requires Ordered(t, before) && forall j :: 0 <= j < |t| ==> !before(t[j], h)
    ensures Ordered([h] + t, before)
  {
    var r := [h] + t;
    forall i, j | 0 <= i < j < |r| ensures !before(r[j], r[i]) {
      assert r[j] == t[j - 1];
      if i > 0 {
        assert r[i] == t[i - 1];
      }
    }
  }

  lemma {:induction false} InsertOrdered<T(!new)>(x: T, s: seq<T>, before: (T, T) -> bool)
    requires StrictWeakOrder(before) && Ordered(s, before)
    ensures Ordered(Insert(x, s, before), before)
    decreases |s|
  {
    if s != [] {
      if before(s[0], x) {
        var t := Insert(x, s[1..], before);
        OrderedTail(s, before);
        InsertOrdered(x, s[1..], before);
        InsertPermutes(x, s[1..], before);
        forall j | 0 <= j < |t| ensures !before(t[j], s[0]) {
          assert t[j] in multiset(t);
          if t[j] != x {
            assert t[j] in multiset(s[1..]);
            var k :| 0 <= k < |s[1..]| && s[1..][k] == t[j];
            assert s[k + 1] == t[j];
          }
        }
        OrderedCons(s[0], t, before);
      } else {
        forall j | 0 <= j < |s| ensures !before(s[j], x) {
          assert j == 0 || !before(s[j], s[0]);
        }
        OrderedCons(x, s, before);
      }
    }
  }

  /** The sort result is ordered and a permutation of its input. */
  lemma {:induction false} SortOrdered<T(!new)>(s: seq<T>, before: (T, T) -> bool)
    requires StrictWeakOrder(before)
    ensures Ordered(Sort(s, before), before)
    ensures multiset(Sort(s, before)) == multiset(s)
    decreases |s|
  {
    if s != [] {
      SortOrdered(s[1..], before);
      InsertOrdered(s[0], Sort(s[1..], before), before);
      InsertPermutes(s[0], Sort(s[1..], before), before);
      assert s == [s[0]] + s[1..];
    }
  }

  lemma {:induction false} InsertTied<T(!new)>(x: T, s: seq<T>, z: T, before: (T, T) -> bool)
    requires StrictWeakOrder(before)
    ensures TiedWith(Insert(x, s, before), z, before) == TiedWith([x] + s, z, before)
    decreases |s|
  {
    if s == [] {
    } else if before(s[0], x) {
      InsertTied(x, s[1..], z, before);
      assert ([x] + s)[1..] == s;
      assert ([x] + s[1..])[1..] == s[1..];
      assert (Insert(x, s, before))[1..] == Insert(x, s[1..], before);
      if Tied(before, x, z) {
        TiedAfterBefore(x, s, z, before);
      }
    } else {
    }
  }

  /** When `x` is tied with `z`, the elements `x` passes over on insertion are not. */
  lemma {:induction false} TiedAfterBefore<T(!new)>(x: T, s: seq<T>, z: T, before: (T, T) -> bool)
    requires StrictWeakOrder(before) && s != [] && before(s[0], x) && Tied(before, x, z)
    ensures !Tied(before, s[0], z)
  {
    assert before(s[0], z) || before(z, x);
  }

  /** Stability: the elements tied with any `z` appear in the sorted output in their input order. */
  lemma {:induction false} SortStable<T(!new)>(s: seq<T>, z: T, before: (T, T) -> bool)
    requires StrictWeakOrder(before)
    ensures TiedWith(Sort(s, before), z, before) == TiedWith(s, z, before)
    decreases |s|
  {
    if s != [] {
      SortStable(s[1..], z, before);
      InsertTied(s[0], Sort(s[1..], before), z, before);
      assert ([s[0]] + Sort(s[1..], before))[1..] == Sort(s[1..], before);
    }
  }

  /** A list that is already ordered is left as it is. */
  lemma {:induction false} SortOfOrdered<T(!new)>(s: seq<T>, before: (T, T) -> bool)
    requires StrictWeakOrder(before) && Ordered(s, before)
    ensures Sort(s, before) == s
    decreases |s|
  {
    if s != [] {
      OrderedTail(s, before);
      SortOfOrdered(s[1..], before);
      if |s| > 1 {
        assert !before(s[1], s[0]);
      }
    }
  }
}
