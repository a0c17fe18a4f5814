/** The semantics of `java.util.List.sort(Comparator)`: a stable sort by a
    comparator. Elements are pairs (tag, key): the comparator sees only the key,
    and the tag is carried along (for the history, the tag is the visitor object
    and the key is the snapshot of its fields). The sort is stated as a stable
    insertion sort; `StableSortIsUnique` shows that every stable sort by the same
    comparator produces the same sequence, so the choice of algorithm does not
    matter. */
module StableSorting {

  function Sgn(x: int): int { if x < 0 then -1 else if x > 0 then 1 else 0 }

  /** The contract of `java.util.Comparator.compare`: the sign is antisymmetric,
      "greater than" is transitive, and keys that compare as equal compare alike
      with every other key. (The triggers keep these facts from being used
      except where a proof asks about the sign of a comparison.) */
  ghost predicate IsComparator<K(!new)>(cmp: (K, K) -> int)
  {
    && (forall x, y {:trigger Sgn(cmp(x, y))} :: Sgn(cmp(x, y)) == -Sgn(cmp(y, x)))
    && (forall x, y, z {:trigger Sgn(cmp(x, y)), Sgn(cmp(y, z))} ::
          Sgn(cmp(x, y)) == 1 && Sgn(cmp(y, z)) == 1 ==> Sgn(cmp(x, z)) == 1)
    && (forall x, y, z {:trigger Sgn(cmp(x, y)), Sgn(cmp(x, z))} ::
          Sgn(cmp(x, y)) == 0 ==> Sgn(cmp(x, z)) == Sgn(cmp(y, z)))
  }

  lemma CmpReflexive<K(!new)>(cmp: (K, K) -> int, x: K)
    requires IsComparator(cmp)
    ensures cmp(x, x) == 0
  {
    assert Sgn(cmp(x, x)) == -Sgn(cmp(x, x));
  }

  lemma CmpFlip<K(!new)>(cmp: (K, K) -> int, x: K, y: K)
    requires IsComparator(cmp)
    ensures Sgn(cmp(y, x)) == -Sgn(cmp(x, y))
  {
    assert Sgn(cmp(x, y)) == -Sgn(cmp(y, x));
  }

  lemma CmpTransitive<K(!new)>(cmp: (K, K) -> int, x: K, y: K, z: K)
    requires IsComparator(cmp)
    requires cmp(x, y) <= 0 && cmp(y, z) <= 0
    ensures cmp(x, z) <= 0
  {
    CmpFlip(cmp, x, y);
    CmpFlip(cmp, y, z);
    CmpFlip(cmp, x, z);
    if Sgn(cmp(x, y)) == 0 {
      assert Sgn(cmp(x, z)) == Sgn(cmp(y, z));
    } else if Sgn(cmp(y, z)) == 0 {
      assert Sgn(cmp(y, x)) == Sgn(cmp(z, x));
    } else {
      assert Sgn(cmp(z, y)) == 1 && Sgn(cmp(y, x)) == 1;
      assert Sgn(cmp(z, x)) == 1;
    }
  }

  lemma CmpAntisymmetric<K(!new)>(cmp: (K, K) -> int, x: K, y: K)
    requires IsComparator(cmp)
    requires cmp(x, y) <= 0 && cmp(y, x) <= 0
    ensures cmp(x, y) == 0
  {
    CmpFlip(cmp, x, y);
  }

  lemma CmpSameClass<K(!new)>(cmp: (K, K) -> int, x: K, z: K, y: K)
    requires IsComparator(cmp)
    requires cmp(x, y) == 0 && cmp(z, y) == 0
    ensures cmp(x, z) == 0
  {
    CmpFlip(cmp, z, y);
    assert Sgn(cmp(x, y)) == 0;
    assert Sgn(cmp(x, z)) == Sgn(cmp(y, z));
  }

  /** A comparator makes "compares at most 0" a total preorder, and "compares as
      0" an equivalence. */
  lemma ComparatorIsTotalPreorder<K(!new)>(cmp: (K, K) -> int)
    requires IsComparator(cmp)
    ensures forall x :: cmp(x, x) == 0
    ensures forall x, y :: cmp(x, y) <= 0 || cmp(y, x) <= 0
    ensures forall x, y :: cmp(x, y) <= 0 && cmp(y, x) <= 0 ==> cmp(x, y) == 0
    ensures forall x, y, z :: cmp(x, y) <= 0 && cmp(y, z) <= 0 ==> cmp(x, z) <= 0
    ensures forall x, y, z :: cmp(x, y) == 0 && cmp(z, y) == 0 ==> cmp(x, z) == 0
  {
    forall x ensures cmp(x, x) == 0 {
      CmpReflexive(cmp, x);
    }
    forall x, y ensures cmp(x, y) <= 0 || cmp(y, x) <= 0 {
      CmpFlip(cmp, x, y);
    }
    forall x, y | cmp(x, y) <= 0 && cmp(y, x) <= 0 ensures cmp(x, y) == 0 {
      CmpAntisymmetric(cmp, x, y);
    }
    forall x, y, z | cmp(x, y) <= 0 && cmp(y, z) <= 0 ensures cmp(x, z) <= 0 {
      CmpTransitive(cmp, x, y, z);
    }
    forall x, y, z | cmp(x, y) == 0 && cmp(z, y) == 0 ensures cmp(x, z) == 0 {
      CmpSameClass(cmp, x, z, y);
    }
  }

  ghost predicate Sorted<T, K>(s: seq<(T, K)>, cmp: (K, K) -> int)
  {
    forall i, j :: 0 <= i < j < |s| ==> cmp(s[i].1, s[j].1) <= 0
  }

  /** The tags of a sequence of pairs, in order. */
  function Tags<T, K>(s: seq<(T, K)>): (r: seq<T>)
    ensures |r| == |s|
    ensures forall i :: 0 <= i < |s| ==> r[i] == s[i].0
  {
    if s == [] then [] else [s[0].0] + Tags(s[1..])
  }

  /** Places `x` before the first element of `s` that is not smaller than it. */
  function Insert<T, K>(x: (T, K), s: seq<(T, K)>, cmp: (K, K) -> int): (r: seq<(T, K)>)
    ensures multiset(r) == multiset(s) + multiset{x}
  {
    if s == [] || cmp(x.1, s[0].1) <= 0 then [x] + s
    else
      assert s == [s[0]] + s[1..];
      [s[0]] + Insert(x, s[1..], cmp)
  }

  /** `list.sort(cmp)`: the elements of `s`, ordered by the comparator on their
      keys, elements whose keys compare as equal keeping their order in `s`. */
  function StableSort<T, K>(s: seq<(T, K)>, cmp: (K, K) -> int): (r: seq<(T, K)>)
    ensures multiset(r) == multiset(s)
  {
    if s == [] then []
    else
      assert s == [s[0]] + s[1..];
      Insert(s[0], StableSort(s[1..], cmp), cmp)
  }

  /** The elements of `s` whose key compares as equal to `y`, in their order in `s`. */
  function Class<T, K>(s: seq<(T, K)>, y: K, cmp: (K, K) -> int): seq<(T, K)>
  {
    if s == [] then []
    else (if cmp(s[0].1, y) == 0 then [s[0]] else []) + Class(s[1..], y, cmp)
  }

  lemma {:induction false} ClassMembers<T, K>(s: seq<(T, K)>, y: K, cmp: (K, K) -> int)
    ensures forall e :: e in Class(s, y, cmp) <==> e in s && cmp(e.1, y) == 0
  {
    if s != [] {
      ClassMembers(s[1..], y, cmp);
      assert forall e :: e in s <==> e == s[0] || e in s[1..];
    }
  }

  /** A non-empty sequence has a non-empty class for the key of its head. */
  lemma ClassOfHead<T, K(!new)>(s: seq<(T, K)>, cmp: (K, K) -> int)
    requires IsComparator(cmp)
    requires s != []
    ensures Class(s, s[0].1, cmp) != []
  {
    CmpReflexive(cmp, s[0].1);
  }

  lemma SortedTail<T, K>(s: seq<(T, K)>, cmp: (K, K) -> int)
    requires s != [] && Sorted(s, cmp)
    ensures Sorted(s[1..], cmp)
  {
    forall i, j | 0 <= i < j < |s| - 1 ensures cmp(s[1..][i].1, s[1..][j].1) <= 0 {
      assert s[1..][i] == s[i + 1] && s[1..][j] == s[j + 1];
    }
  }

  lemma SortedCons<T, K>(a: (T, K), s: seq<(T, K)>, cmp: (K, K) -> int)
    requires Sorted(s, cmp)
    requires forall j :: 0 <= j < |s| ==> cmp(a.1, s[j].1) <= 0
    ensures Sorted([a] + s, cmp)
  {
    var r := [a] + s;
    forall i, j | 0 <= i < j < |r| ensures cmp(r[i].1, r[j].1) <= 0 {
      if i == 0 {
        assert r[j] == s[j - 1];
      } else {
        assert r[i] == s[i - 1] && r[j] == s[j - 1];
      }
    }
  }

  /** A lower bound of `x` and of every element of `s` bounds every element of
      `Insert(x, s, cmp)`. */
  lemma InsertLowerBound<T, K>(b: K, x: (T, K), s: seq<(T, K)>, cmp: (K, K) -> int)
    requires cmp(b, x.1) <= 0
    requires forall j :: 0 <= j < |s| ==> cmp(b, s[j].1) <= 0
    ensures forall j :: 0 <= j < |Insert(x, s, cmp)| ==> cmp(b, Insert(x, s, cmp)[j].1) <= 0
  {
    var t := Insert(x, s, cmp);
    forall j | 0 <= j < |t| ensures cmp(b, t[j].1) <= 0 {
      assert t[j] in multiset(t);
      if t[j] != x {
        assert t[j] in multiset(s);
        var k :| 0 <= k < |s| && s[k] == t[j];
      }
    }
  }

  lemma {:induction false} InsertSorted<T, K(!new)>(x: (T, K), s: seq<(T, K)>, cmp: (K, K) -> int)
    requires IsComparator(cmp)
    requires Sorted(s, cmp)
    ensures Sorted(Insert(x, s, cmp), cmp)
  {
    if s == [] || cmp(x.1, s[0].1) <= 0 {
      forall j | 0 <= j < |s| ensures cmp(x.1, s[j].1) <= 0 {
        if j > 0 { CmpTransitive(cmp, x.1, s[0].1, s[j].1); }
      }
      SortedCons(x, s, cmp);
    } else {
      var tail := s[1..];
      SortedTail(s, cmp);
      InsertSorted(x, tail, cmp);
      CmpFlip(cmp, x.1, s[0].1);
      forall j | 0 <= j < |tail| ensures cmp(s[0].1, tail[j].1) <= 0 {
        assert tail[j] == s[j + 1];
      }
      InsertLowerBound(s[0].1, x, tail, cmp);
      SortedCons(s[0], Insert(x, tail, cmp), cmp);
    }
  }

  lemma {:induction false} StableSortSorted<T, K(!new)>(s: seq<(T, K)>, cmp: (K, K) -> int)
    requires IsComparator(cmp)
    ensures Sorted(StableSort(s, cmp), cmp)
  {
    if s != [] {
      StableSortSorted(s[1..], cmp);
      InsertSorted(s[0], StableSort(s[1..], cmp), cmp);
    }
  }

  lemma ClassOfCons<T, K>(a: (T, K), s: seq<(T, K)>, y: K, cmp: (K, K) -> int)
    ensures Class([a] + s, y, cmp) == (if cmp(a.1, y) == 0 then [a] else []) + Class(s, y, cmp)
  {
    assert ([a] + s)[1..] == s;
  }

  lemma {:induction false} ClassOfInsert<T, K(!new)>(x: (T, K), s: seq<(T, K)>, y: K, cmp: (K, K) -> int)
    requires IsComparator(cmp)
    ensures Class(Insert(x, s, cmp), y, cmp) ==
            (if cmp(x.1, y) == 0 then [x] else []) + Class(s, y, cmp)
  {
    if s == [] || cmp(x.1, s[0].1) <= 0 {
      ClassOfCons(x, s, y, cmp);
    } else {
      var t := Insert(x, s[1..], cmp);
      ClassOfInsert(x, s[1..], y, cmp);
      ClassOfCons(s[0], t, y, cmp);
      ClassOfCons(s[0], s[1..], y, cmp);
      assert [s[0]] + s[1..] == s;
      // x and s[0] do not compare as equal, so at most one of them is in the
      // class of y, and moving x past s[0] leaves the class unchanged.
      if cmp(x.1, y) == 0 && cmp(s[0].1, y) == 0 {
        CmpSameClass(cmp, x.1, s[0].1, y);
      }
    }
  }

  /** Stability: for every key, the elements whose keys compare as equal to it
      appear in the sorted sequence in the order they had before the sort. */
  lemma {:induction false} StableSortIsStable<T, K(!new)>(s: seq<(T, K)>, y: K, cmp: (K, K) -> int)
    requires IsComparator(cmp)
    ensures Class(StableSort(s, cmp), y, cmp) == Class(s, y, cmp)
  {
    if s != [] {
      StableSortIsStable(s[1..], y, cmp);
      ClassOfInsert(s[0], StableSort(s[1..], cmp), y, cmp);
    }
  }

  /** Sorting a sorted sequence changes nothing. */
  lemma {:induction false} StableSortOfSorted<T, K>(s: seq<(T, K)>, cmp: (K, K) -> int)
    requires Sorted(s, cmp)
    ensures StableSort(s, cmp) == s
  {
    if s != [] {
      var tail := s[1..];
      SortedTail(s, cmp);
      StableSortOfSorted(tail, cmp);
      assert StableSort(s, cmp) == Insert(s[0], tail, cmp);
      if tail != [] {
        assert tail[0] == s[1];
        assert cmp(s[0].1, tail[0].1) <= 0;
      }
      assert Insert(s[0], tail, cmp) == [s[0]] + tail;
      assert [s[0]] + tail == s;
    }
  }

  /** Sorting twice with the same comparator is the same as sorting once. */
  lemma StableSortIdempotent<T, K(!new)>(s: seq<(T, K)>, cmp: (K, K) -> int)
    requires IsComparator(cmp)
    ensures StableSort(StableSort(s, cmp), cmp) == StableSort(s, cmp)
  {
    StableSortSorted(s, cmp);
    StableSortOfSorted(StableSort(s, cmp), cmp);
  }

  /** Two sorted sequences that agree class by class begin with the same element. */
  lemma SameHeads<T, K(!new)>(u: seq<(T, K)>, v: seq<(T, K)>, cmp: (K, K) -> int)
    requires IsComparator(cmp)
    requires u != [] && v != []
    requires Sorted(u, cmp) && Sorted(v, cmp)
    requires forall y :: Class(u, y, cmp) == Class(v, y, cmp)
    ensures u[0] == v[0]
  {
    var a, b := u[0], v[0];
    CmpReflexive(cmp, a.1);
    CmpReflexive(cmp, b.1);
    ClassMembers(u, b.1, cmp);
    ClassMembers(v, a.1, cmp);
    assert Class(u, a.1, cmp)[0] == a;
    assert a in Class(v, a.1, cmp);
    var k :| 0 <= k < |v| && v[k] == a;
    assert cmp(b.1, a.1) <= 0 by {
      if k > 0 { assert cmp(v[0].1, v[k].1) <= 0; }
    }
    assert b in Class(u, b.1, cmp) by {
      assert Class(v, b.1, cmp)[0] == b;
    }
    var m :| 0 <= m < |u| && u[m] == b;
    assert cmp(a.1, b.1) <= 0 by {
      if m > 0 { assert cmp(u[0].1, u[m].1) <= 0; }
    }
    CmpAntisymmetric(cmp, b.1, a.1);
    assert Class(v, a.1, cmp)[0] == b;
  }

  lemma ClassesOfTails<T, K>(u: seq<(T, K)>, v: seq<(T, K)>, cmp: (K, K) -> int)
    requires u != [] && v != [] && u[0] == v[0]
    requires forall y :: Class(u, y, cmp) == Class(v, y, cmp)
    ensures forall y :: Class(u[1..], y, cmp) == Class(v[1..], y, cmp)
  {
    var a := u[0];
    forall y ensures Class(u[1..], y, cmp) == Class(v[1..], y, cmp) {
      var pre := if cmp(a.1, y) == 0 then [a] else [];
      assert Class(u, y, cmp) == pre + Class(u[1..], y, cmp);
      assert Class(v, y, cmp) == pre + Class(v[1..], y, cmp);
      assert Class(u[1..], y, cmp) == Class(u, y, cmp)[|pre|..];
      assert Class(v[1..], y, cmp) == Class(v, y, cmp)[|pre|..];
    }
  }

  /** Two sorted sequences that agree, key class by key class, are equal. */
  lemma {:induction false} SortedWithSameClassesAreEqual<T, K(!new)>(u: seq<(T, K)>, v: seq<(T, K)>, cmp: (K, K) -> int)
    requires IsComparator(cmp)
    requires Sorted(u, cmp) && Sorted(v, cmp)
    requires forall y :: Class(u, y, cmp) == Class(v, y, cmp)
    ensures u == v
  {
    if u == [] && v == [] {
    } else if u == [] {
      ClassOfHead(v, cmp);
      assert false;
    } else if v == [] {
      ClassOfHead(u, cmp);
      assert false;
    } else {
      SameHeads(u, v, cmp);
      ClassesOfTails(u, v, cmp);
      SortedTail(u, cmp);
      SortedTail(v, cmp);
      SortedWithSameClassesAreEqual(u[1..], v[1..], cmp);
      assert u == [u[0]] + u[1..] && v == [v[0]] + v[1..];
    }
  }

  /** Any sorted rearrangement of `s` that keeps each key class in its original
      order is `StableSort(s, cmp)`: every stable sort agrees with this one. */
  lemma StableSortIsUnique<T, K(!new)>(s: seq<(T, K)>, r: seq<(T, K)>, cmp: (K, K) -> int)
    requires IsComparator(cmp)
    requires Sorted(r, cmp)
    requires forall y :: Class(r, y, cmp) == Class(s, y, cmp)
    ensures r == StableSort(s, cmp)
  {
    StableSortSorted(s, cmp);
    forall y ensures Class(r, y, cmp) == Class(StableSort(s, cmp), y, cmp) {
      StableSortIsStable(s, y, cmp);
    }
    SortedWithSameClassesAreEqual(r, StableSort(s, cmp), cmp);
  }

  lemma TagsOfCons<T, K>(x: (T, K), s: seq<(T, K)>)
    ensures multiset(Tags([x] + s)) == multiset{x.0} + multiset(Tags(s))
  {
    assert ([x] + s)[1..] == s;
    assert Tags([x] + s) == [x.0] + Tags(s);
  }

  /** Sorting rearranges the tags: they form the same multiset before and after. */
  lemma {:induction false} StableSortPermutesTags<T, K>(s: seq<(T, K)>, cmp: (K, K) -> int)
    ensures multiset(Tags(StableSort(s, cmp))) == multiset(Tags(s))
  {
    if s != [] {
      var t := StableSort(s[1..], cmp);
      StableSortPermutesTags(s[1..], cmp);
      InsertPermutesTags(s[0], t, cmp);
      assert StableSort(s, cmp) == Insert(s[0], t, cmp);
      assert Tags(s) == [s[0].0] + Tags(s[1..]);
    }
  }

  lemma {:induction false} InsertPermutesTags<T, K>(x: (T, K), s: seq<(T, K)>, cmp: (K, K) -> int)
    ensures multiset(Tags(Insert(x, s, cmp))) == multiset(Tags(s)) + multiset{x.0}
  {
    if s == [] || cmp(x.1, s[0].1) <= 0 {
      assert Insert(x, s, cmp) == [x] + s;
      TagsOfCons(x, s);
    } else {
      var t := Insert(x, s[1..], cmp);
      assert Insert(x, s, cmp) == [s[0]] + t;
      InsertPermutesTags(x, s[1..], cmp);
      TagsOfCons(s[0], t);
      assert Tags(s) == [s[0].0] + Tags(s[1..]);
    }
  }
}
