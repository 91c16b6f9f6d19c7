/**
  Strict orders, the canonical listing of a finite set, and the contract of Go's
  `sort.Slice`, which several subsystems use to make a result independent of map
  iteration order.
 */
module Orders {

  /** What `sort.Slice` asks of its comparison. */
  ghost predicate StrictWeakOrder<T(!new)>(less: (T, T) -> bool) {
    && (forall x, y :: less(x, y) ==> !less(y, x))
    && (forall x, y, z :: less(x, y) && less(y, z) ==> less(x, z))
    && (forall x, y, z :: less(x, z) ==> less(x, y) || less(y, z))
  }

  ghost predicate TotalOrder<T(!new)>(less: (T, T) -> bool) {
    && StrictWeakOrder(less)
    && (forall x, y :: x == y || less(x, y) || less(y, x))
  }

  ghost predicate Ordered<T>(less: (T, T) -> bool, s: seq<T>) {
    forall i, j :: 0 <= i < j < |s| ==> !less(s[j], s[i])
  }

  ghost predicate Increasing<T>(less: (T, T) -> bool, s: seq<T>) {
    forall i, j :: 0 <= i < j < |s| ==> less(s[i], s[j])
  }

  function Elems<T>(s: seq<T>): set<T> {
    set x | x in s
  }

  ghost predicate Distinct<T>(s: seq<T>) {
    forall i, j :: 0 <= i < j < |s| ==> s[i] != s[j]
  }

  /** A strictly increasing listing is determined by the set it lists. */
  lemma {:induction false} IncreasingUnique<T(!new)>(less: (T, T) -> bool, s: seq<T>, t: seq<T>)
    requires TotalOrder(less) && Increasing(less, s) && Increasing(less, t)
    requires Elems(s) == Elems(t)
    ensures s == t
  {
    SameElemsBothEmpty(s, t);
    if s != [] {
      assert s[0] in Elems(t);
      assert t[0] in Elems(s);
      assert s[0] == t[0];
      TailElems(less, s);
      TailElems(less, t);
      IncreasingUnique(less, s[1..], t[1..]);
      assert s == [s[0]] + s[1..] && t == [t[0]] + t[1..];
    }
  }

  lemma SameElemsBothEmpty<T>(s: seq<T>, t: seq<T>)
    requires Elems(s) == Elems(t)
    ensures s == [] <==> t == []
  {
    assert s != [] ==> s[0] in Elems(s);
    assert t != [] ==> t[0] in Elems(t);
  }

  lemma TailElems<T(!new)>(less: (T, T) -> bool, s: seq<T>)
    requires TotalOrder(less) && Increasing(less, s) && s != []
    ensures Increasing(less, s[1..])
    ensures Elems(s[1..]) == Elems(s) - {s[0]}
  {
    forall x | x in Elems(s) - {s[0]} ensures x in Elems(s[1..]) {
      var i :| 0 <= i < |s| && s[i] == x;
      assert s[1..][i - 1] == x;
    }
    forall x | x in Elems(s[1..]) ensures x in Elems(s) - {s[0]} {
      var i :| 0 <= i < |s| - 1 && s[1..][i] == x;
      assert s[i + 1] == x && less(s[0], s[i + 1]);
    }
  }

  /** The strictly increasing listing of a finite set. */
  ghost function SortedOf<T(!new)>(less: (T, T) -> bool, all: set<T>): (s: seq<T>)
    requires TotalOrder(less)
    ensures Increasing(less, s) && Elems(s) == all
  {
    SortedExists(less, all);
    var s :| Increasing(less, s) && Elems(s) == all;
    s
  }

  lemma SortedOfUnique<T(!new)>(less: (T, T) -> bool, s: seq<T>)
    requires TotalOrder(less) && Increasing(less, s)
    ensures SortedOf(less, Elems(s)) == s
  {
    IncreasingUnique(less, SortedOf(less, Elems(s)), s);
  }

  lemma {:induction false} SortedExists<T(!new)>(less: (T, T) -> bool, all: set<T>)
    requires TotalOrder(less)
    ensures exists s :: Increasing(less, s) && Elems(s) == all
  {
    if all == {} {
      assert Increasing(less, []) && Elems<T>([]) == all;
    } else {
      var m := Least(less, all);
      SortedExists(less, all - {m});
      var s :| Increasing(less, s) && Elems(s) == all - {m};
      var r := [m] + s;
      forall i, j | 0 <= i < j < |r| ensures less(r[i], r[j]) {
        assert r[j] == s[j - 1] && s[j - 1] in Elems(s);
      }
      forall x ensures x in Elems(r) <==> x in all {
        assert x in r <==> x == m || x in s;
        assert x in s <==> x in Elems(s);
      }
    }
  }

  lemma {:induction false} Least<T(!new)>(less: (T, T) -> bool, all: set<T>) returns (m: T)
    requires TotalOrder(less) && all != {}
    ensures m in all && forall x :: x in all ==> x == m || less(m, x)
  {
    m :| m in all;
    if all != {m} {
      assert all - {m} != {};
      var n := Least(less, all - {m});
      if less(n, m) {
        m := n;
      }
    }
  }

  /** Go's `sort.Slice`: some ordered rearrangement, stability not promised. */
  method SortSlice<T(!new)>(s: seq<T>, less: (T, T) -> bool) returns (r: seq<T>)
    requires StrictWeakOrder(less)
    ensures Ordered(less, r) && multiset(r) == multiset(s)
  {
    r := [];
    for i := 0 to |s|
      invariant Ordered(less, r) && multiset(r) == multiset(s[..i])
    {
      var k := 0;
      while k < |r| && !less(s[i], r[k])
        invariant 0 <= k <= |r|
        invariant forall j :: 0 <= j < k ==> !less(s[i], r[j])
      {
        k := k + 1;
      }
      InsertOrdered(less, r, k, s[i]);
      InsertMultiset(r, k, s[i]);
      assert s[..i + 1] == s[..i] + [s[i]];
      r := r[..k] + [s[i]] + r[k..];
    }
    assert s[..|s|] == s;
  }

  lemma InsertMultiset<T>(r: seq<T>, k: nat, x: T)
    requires k <= |r|
    ensures multiset(r[..k] + [x] + r[k..]) == multiset(r) + multiset{x}
  {
    assert r == r[..k] + r[k..];
  }

  lemma InsertOrdered<T(!new)>(less: (T, T) -> bool, r: seq<T>, k: nat, x: T)
    requires StrictWeakOrder(less) && Ordered(less, r) && k <= |r|
    requires forall j :: 0 <= j < k ==> !less(x, r[j])
    requires k < |r| ==> less(x, r[k])
    ensures Ordered(less, r[..k] + [x] + r[k..])
  {
    var q := r[..k] + [x] + r[k..];
    forall i, j | 0 <= i < j < |q| ensures !less(q[j], q[i]) {
      if i < k && j > k {
        assert q[i] == r[i] && q[j] == r[j - 1];
      } else if i == k {
        assert q[j] == r[j - 1] && !less(r[j - 1], r[k]) by {
          assert !less(r[k], r[k]);
        }
      } else if i > k {
        assert q[i] == r[i - 1] && q[j] == r[j - 1];
      } else {
        assert q[i] == r[i];
      }
    }
  }

  /** Sorting distinct elements by a total order gives the canonical listing. */
  lemma SortedDistinct<T(!new)>(less: (T, T) -> bool, s: seq<T>, r: seq<T>)
    requires TotalOrder(less) && Distinct(s)
    requires Ordered(less, r) && multiset(r) == multiset(s)
    ensures r == SortedOf(less, Elems(s))
  {
    assert Elems(r) == Elems(s) by {
      forall x ensures x in r <==> x in s {
        assert x in r <==> x in multiset(r);
        assert x in s <==> x in multiset(s);
      }
    }
    forall i, j | 0 <= i < j < |r| ensures less(r[i], r[j]) {
      if r[i] == r[j] {
        TwiceInMultiset(r, i, j);
        DistinctMultiplicity(s, r[i]);
      }
    }
    SortedOfUnique(less, r);
  }

  lemma TwiceInMultiset<T>(r: seq<T>, i: nat, j: nat)
    requires i < j < |r| && r[i] == r[j]
    ensures multiset(r)[r[i]] >= 2
  {
    assert r == r[..j] + [r[j]] + r[j + 1..];
    assert r[i] in r[..j];
  }

  lemma {:induction false} DistinctMultiplicity<T>(s: seq<T>, x: T)
    requires Distinct(s)
    ensures multiset(s)[x] <= 1
  {
    if s != [] {
      var n := |s| - 1;
      DistinctMultiplicity(s[..n], x);
      assert s == s[..n] + [s[n]];
      assert x == s[n] ==> x !in s[..n];
    }
  }
}
