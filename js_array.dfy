/**
 * `Array.prototype.find` and `Array.prototype.sort` as the tournament code uses them.
 *
 * A comparator is given as `less(a, b)`: the comparison function returned a negative
 * number for `(a, b)`, so `a` must go before `b`. The sort is modelled as a stable
 * insertion sort; when the comparator is consistent (`ConsistentOn`) the result is
 * sorted, a permutation of the input, and keeps tied elements in input order, which
 * is what the language requires of every engine.
 */
module JsArray {
  import opened Wrappers

  /** The index of the first element that satisfies `p`; `find` returns that element. */
  function Find<T>(s: seq<T>, p: T -> bool): (r: Option<nat>)
    ensures r.Some? ==> r.value < |s| && p(s[r.value]) && forall j | 0 <= j < r.value :: !p(s[j])
    ensures r.None? <==> forall j | 0 <= j < |s| :: !p(s[j])
  {
    if s == [] then None
    else if p(s[0]) then Some(0)
    else
      match Find(s[1..], p)
      case None => None
      case Some(k) => Some(k + 1)
  }

  /** Puts `x` in front of the first element of `ys` that need not go before it. */
  function Insert<T>(x: T, ys: seq<T>, less: (T, T) -> bool): (r: seq<T>)
    ensures multiset(r) == multiset(ys) + multiset{x}
  {
    if ys == [] || !less(ys[0], x) then [x] + ys
    else
      assert ys == [ys[0]] + ys[1..];
      [ys[0]] + Insert(x, ys[1..], less)
  }

  /** Sorting with a comparator, as a stable insertion sort. */
  function Sort<T>(s: seq<T>, less: (T, T) -> bool): (r: seq<T>)
    ensures multiset(r) == multiset(s)
  {
    if s == [] then []
    else
      assert s == [s[0]] + s[1..];
      Insert(s[0], Sort(s[1..], less), less)
  }

  /** No element goes strictly before an element to its left. */
  ghost predicate SortedBy<T>(s: seq<T>, less: (T, T) -> bool)
  {
    forall i, j | 0 <= i < j < |s| :: !less(s[j], s[i])
  }

  /** Neither element goes strictly before the other. */
  predicate Tied<T>(a: T, b: T, less: (T, T) -> bool)
  {
    !less(a, b) && !less(b, a)
  }

  /**
   * A consistent comparator on the values in `dom`: "goes before" is asymmetric and
   * "need not go after" is transitive, so ties form equivalence classes.
   */
  ghost predicate ConsistentOn<T>(dom: seq<T>, less: (T, T) -> bool)
  {
    && (forall a, b | a in dom && b in dom :: less(a, b) ==> !less(b, a))
    && (forall a, b, c | a in dom && b in dom && c in dom :: !less(b, a) && !less(c, b) ==> !less(c, a))
  }

  /** The elements of `s` tied with `e`, in their order in `s`. */
  function TiesWith<T>(s: seq<T>, e: T, less: (T, T) -> bool): seq<T>
  {
    if s == [] then [] else (if Tied(s[0], e, less) then [s[0]] else []) + TiesWith(s[1..], e, less)
  }

  lemma {:induction false} InsertSorted<T>(x: T, ys: seq<T>, less: (T, T) -> bool, dom: seq<T>)
    requires ConsistentOn(dom, less)
    requires x in dom && forall y | y in ys :: y in dom
    requires SortedBy(ys, less)
    ensures SortedBy(Insert(x, ys, less), less)
  {
    if ys == [] {
    } else if !less(ys[0], x) {
      var r := [x] + ys;
      assert Insert(x, ys, less) == r;
      forall i, j | 0 <= i < j < |r|
        ensures !less(r[j], r[i])
      {
        if i == 0 && j > 1 {
          assert !less(ys[j - 1], ys[0]);
          assert ys[0] in dom && ys[j - 1] in dom;
        }
      }
    } else {
      var t := Insert(x, ys[1..], less);
      InsertSorted(x, ys[1..], less, dom);
      var r := [ys[0]] + t;
      assert Insert(x, ys, less) == r;
      forall i, j | 0 <= i < j < |r|
        ensures !less(r[j], r[i])
      {
        if i == 0 {
          var z := r[j];
          assert z == t[j - 1];
          assert z in multiset(t);
          if z != x {
            assert z in multiset(ys[1..]);
            var k :| 0 <= k < |ys[1..]| && ys[1..][k] == z;
            assert ys[k + 1] == z;
          } else {
            assert ys[0] in dom;
          }
        }
      }
    }
  }

  lemma {:induction false} SortSortedIn<T>(s: seq<T>, less: (T, T) -> bool, dom: seq<T>)
    requires ConsistentOn(dom, less)
    requires forall y | y in s :: y in dom
    ensures SortedBy(Sort(s, less), less)
  {
    if s != [] {
      SortSortedIn(s[1..], less, dom);
      var t := Sort(s[1..], less);
      forall y | y in t ensures y in dom {
        assert y in multiset(s[1..]);
      }
      InsertSorted(s[0], t, less, dom);
    }
  }

  /** With a consistent comparator the sort's output is sorted. */
  lemma SortSorted<T>(s: seq<T>, less: (T, T) -> bool)
    requires ConsistentOn(s, less)
    ensures SortedBy(Sort(s, less), less)
  {
    SortSortedIn(s, less, s);
  }

  /** When `y` goes strictly before `x`, at most one of them ties with `e`. */
  lemma TiedExclusive<T>(x: T, y: T, e: T, less: (T, T) -> bool, dom: seq<T>)
    requires ConsistentOn(dom, less)
    requires x in dom && y in dom && e in dom
    requires less(y, x)
    ensures Tied(x, e, less) ==> !Tied(y, e, less)
  {
  }

  lemma TiesWithCons<T>(y: T, t: seq<T>, e: T, less: (T, T) -> bool)
    ensures TiesWith([y] + t, e, less) == (if Tied(y, e, less) then [y] else []) + TiesWith(t, e, less)
  {
    assert ([y] + t)[1..] == t;
  }

  lemma InsertTies<T>(x: T, ys: seq<T>, e: T, less: (T, T) -> bool, dom: seq<T>)
    requires ConsistentOn(dom, less)
    requires x in dom && e in dom && forall y | y in ys :: y in dom
    ensures TiesWith(Insert(x, ys, less), e, less)
         == (if Tied(x, e, less) then [x] else []) + TiesWith(ys, e, less)
  {
    forall y | y in ys && less(y, x)
      ensures Tied(x, e, less) ==> !Tied(y, e, less)
    {
      TiedExclusive(x, y, e, less, dom);
    }
    InsertTiesApart(x, ys, e, less);
  }

  /**
   * Inserting `x` adds it to `e`'s ties in front of the old ones, provided nothing
   * that `x` passes is tied with `e` along with it.
   */
  lemma {:induction false} InsertTiesApart<T>(x: T, ys: seq<T>, e: T, less: (T, T) -> bool)
    requires forall y | y in ys && less(y, x) :: Tied(x, e, less) ==> !Tied(y, e, less)
    ensures TiesWith(Insert(x, ys, less), e, less)
         == (if Tied(x, e, less) then [x] else []) + TiesWith(ys, e, less)
  {
    if ys == [] || !less(ys[0], x) {
      var r := [x] + ys;
      assert r[1..] == ys;
    } else {
      var y, rest := ys[0], ys[1..];
      assert ys == [y] + rest;
      assert forall z | z in rest :: z in ys;
      InsertTiesApart(x, rest, e, less);
      var t := Insert(x, rest, less);
      assert Insert(x, ys, less) == [y] + t;
      TiesWithCons(y, t, e, less);
      TiesWithCons(y, rest, e, less);
      if Tied(x, e, less) {
        assert !Tied(y, e, less);
        assert TiesWith([y] + t, e, less) == TiesWith(t, e, less);
      } else {
        assert TiesWith(t, e, less) == TiesWith(rest, e, less);
      }
    }
  }

  lemma {:induction false} SortTiesIn<T>(s: seq<T>, e: T, less: (T, T) -> bool, dom: seq<T>)
    requires ConsistentOn(dom, less)
    requires e in dom && forall y | y in s :: y in dom
    ensures TiesWith(Sort(s, less), e, less) == TiesWith(s, e, less)
  {
    if s != [] {
      SortTiesIn(s[1..], e, less, dom);
      var t := Sort(s[1..], less);
      forall y | y in t ensures y in dom {
        assert y in multiset(s[1..]);
      }
      InsertTies(s[0], t, e, less, dom);
    }
  }

  /** The sort is stable: tied elements keep their order in the input. */
  lemma SortStable<T>(s: seq<T>, e: T, less: (T, T) -> bool)
    requires ConsistentOn(s, less)
    requires e in s
    ensures TiesWith(Sort(s, less), e, less) == TiesWith(s, e, less)
  {
    SortTiesIn(s, e, less, s);
  }

  lemma HeadsEqual<T>(r: seq<T>, t: seq<T>, less: (T, T) -> bool)
    requires SortedBy(r, less) && SortedBy(t, less)
    requires r != [] && multiset(r) == multiset(t)
    requires forall a, b | a in r && b in r :: Tied(a, b, less) ==> a == b
    ensures t != [] && r[0] == t[0]
  {
    assert r[0] in multiset(t);
    var k :| 0 <= k < |t| && t[k] == r[0];
    assert t[0] in multiset(r);
    var m :| 0 <= m < |r| && r[m] == t[0];
    if k != 0 && m != 0 {
      assert !less(t[k], t[0]) && !less(r[m], r[0]);
      assert Tied(r[0], r[m], less);
    }
  }

  lemma TailsPermuted<T>(r: seq<T>, t: seq<T>)
    requires r != [] && t != [] && r[0] == t[0] && multiset(r) == multiset(t)
    ensures multiset(r[1..]) == multiset(t[1..])
  {
    assert r == [r[0]] + r[1..] && t == [t[0]] + t[1..];
    assert multiset(r) == multiset{r[0]} + multiset(r[1..]);
    assert multiset(t) == multiset{r[0]} + multiset(t[1..]);
    assert multiset(r[1..]) == multiset(r) - multiset{r[0]};
  }

  /**
   * Two sorted arrangements of the same values are equal when the comparator ties no
   * two different values among them.
   */
  lemma {:induction false} SortedUnique<T>(r: seq<T>, t: seq<T>, less: (T, T) -> bool)
    requires SortedBy(r, less) && SortedBy(t, less)
    requires multiset(r) == multiset(t)
    requires forall a, b | a in r && b in r :: Tied(a, b, less) ==> a == b
    ensures r == t
  {
    if r == [] {
      assert |t| == |multiset(t)| == 0;
    } else {
      HeadsEqual(r, t, less);
      TailsPermuted(r, t);
      SortedUnique(r[1..], t[1..], less);
      assert r == [r[0]] + r[1..] && t == [t[0]] + t[1..];
    }
  }

  lemma TiedReflexive<T>(a: T, less: (T, T) -> bool, dom: seq<T>)
    requires ConsistentOn(dom, less) && a in dom
    ensures Tied(a, a, less)
  {
  }

  /**
   * A sorted, stable arrangement is unique: two sorted lists with the same elements
   * and the same order within every class of ties are equal. So every stable sort
   * returns what `Sort` returns.
   */
  lemma {:induction false} StableSortedUnique<T>(r: seq<T>, t: seq<T>, less: (T, T) -> bool, dom: seq<T>)
    requires ConsistentOn(dom, less)
    requires forall y | y in r :: y in dom
    requires SortedBy(r, less) && SortedBy(t, less)
    requires multiset(r) == multiset(t)
    requires forall e | e in r :: TiesWith(r, e, less) == TiesWith(t, e, less)
    ensures r == t
  {
    if r == [] {
      assert |t| == |multiset(t)| == 0;
    } else {
      var x := r[0];
      assert t != [] by {
        assert |t| == |multiset(t)| == |multiset(r)| == |r|;
      }
      var y := t[0];
      assert x in multiset(t);
      var k :| 0 <= k < |t| && t[k] == x;
      assert y in multiset(r);
      var m :| 0 <= m < |r| && r[m] == y;
      assert x in dom && y in dom;
      if k != 0 {
        assert !less(t[k], t[0]);
      }
      if m != 0 {
        assert !less(r[m], r[0]);
      }
      assert Tied(x, y, less);
      TiedReflexive(x, less, dom);
      assert x in r;
      assert TiesWith(r, x, less) == TiesWith(t, x, less);
      assert TiesWith(r, x, less) == [x] + TiesWith(r[1..], x, less);
      assert TiesWith(t, x, less) == [y] + TiesWith(t[1..], x, less);
      assert x == TiesWith(r, x, less)[0] == TiesWith(t, x, less)[0] == y;
      TailsPermuted(r, t);
      forall e | e in r[1..]
        ensures TiesWith(r[1..], e, less) == TiesWith(t[1..], e, less)
      {
        assert e in r;
        var head := if Tied(x, e, less) then [x] else [];
        assert TiesWith(r, e, less) == head + TiesWith(r[1..], e, less);
        assert TiesWith(t, e, less) == head + TiesWith(t[1..], e, less);
        assert TiesWith(r[1..], e, less) == TiesWith(r, e, less)[|head|..];
        assert TiesWith(t[1..], e, less) == TiesWith(t, e, less)[|head|..];
      }
      StableSortedUnique(r[1..], t[1..], less, dom);
      assert r == [x] + r[1..] && t == [y] + t[1..];
    }
  }
}
