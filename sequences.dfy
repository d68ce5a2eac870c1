/** Generic sequence operations standing in for a DataFrame's boolean-mask
    selection (Filter), sort_values (SortBy, a stable insertion sort on an
    integer key) and tail(n) (Tail). */
module Sequences {

  /** The elements of `s` that satisfy `p`, in their original order. */
  function Filter<T(!new)>(s: seq<T>, p: T -> bool): (r: seq<T>)
    ensures |r| <= |s|
    ensures forall x :: x in r <==> x in s && p(x)
    ensures forall i :: 0 <= i < |r| ==> p(r[i])
  {
    if s == [] then []
    else if p(s[0]) then [s[0]] + Filter(s[1..], p)
    else Filter(s[1..], p)
  }

  /** Membership in a selection, as one equivalence. */
  lemma InFilter<T(!new)>(s: seq<T>, p: T -> bool, x: T)
    ensures x in Filter(s, p) <==> x in s && p(x)
  {
    var r := Filter(s, p);
    if x in r {
      var i :| 0 <= i < |r| && r[i] == x;
    }
    if x in s && p(x) {
      var i :| 0 <= i < |s| && s[i] == x;
    }
  }

  /** Selection distributes over concatenation: it keeps the original order. */
  lemma {:induction false} FilterAppend<T(!new)>(a: seq<T>, b: seq<T>, p: T -> bool)
    ensures Filter(a + b, p) == Filter(a, p) + Filter(b, p)
  {
    if a == [] {
      assert a + b == b;
    } else {
      assert (a + b)[1..] == a[1..] + b;
      FilterAppend(a[1..], b, p);
    }
  }

  lemma {:induction false} FilterAll<T(!new)>(s: seq<T>, p: T -> bool)
    requires forall x :: x in s ==> p(x)
    ensures Filter(s, p) == s
  {
    if s != [] {
      FilterAll(s[1..], p);
    }
  }

  lemma {:induction false} FilterNone<T(!new)>(s: seq<T>, p: T -> bool)
    requires forall i :: 0 <= i < |s| ==> !p(s[i])
    ensures Filter(s, p) == []
  {
    if s != [] {
      assert forall i :: 0 <= i < |s[1..]| ==> s[1..][i] == s[i + 1];
      FilterNone(s[1..], p);
    }
  }

  /** Two successive selections are one selection by the conjunction. */
  lemma {:induction false} FilterFilter<T(!new)>(s: seq<T>, p: T -> bool, q: T -> bool, both: T -> bool)
    requires forall x :: both(x) == (p(x) && q(x))
    ensures Filter(Filter(s, p), q) == Filter(s, both)
  {
    if s != [] {
      FilterFilter(s[1..], p, q, both);
    }
  }

  /** The last selected element is the last element of `s` that satisfies `p`. */
  lemma {:induction false} FilterLast<T(!new)>(s: seq<T>, p: T -> bool) returns (k: nat)
    requires Filter(s, p) != []
    ensures k < |s| && p(s[k]) && s[k] == Filter(s, p)[|Filter(s, p)| - 1]
    ensures forall j :: k < j < |s| ==> !p(s[j])
  {
    var rest := Filter(s[1..], p);
    if rest == [] {
      k := 0;
      forall j | 0 < j < |s| ensures !p(s[j]) {
        assert s[j] == s[1..][j - 1];
      }
    } else {
      var k' := FilterLast(s[1..], p);
      k := k' + 1;
      assert s[k] == s[1..][k'];
      forall j | k < j < |s| ensures !p(s[j]) {
        assert s[j] == s[1..][j - 1];
      }
    }
  }

  /** A selected element sits in the selection at its rank: the number of
      selected elements before it. */
  lemma RankInFilter<T(!new)>(s: seq<T>, p: T -> bool, j: int)
    requires 0 <= j < |s| && p(s[j])
    ensures |Filter(s[..j], p)| < |Filter(s, p)|
    ensures Filter(s, p)[|Filter(s[..j], p)|] == s[j]
  {
    assert s == (s[..j] + [s[j]]) + s[j + 1..];
    FilterAppend(s[..j] + [s[j]], s[j + 1..], p);
    FilterAppend(s[..j], [s[j]], p);
    assert Filter([s[j]], p) == [s[j]] by {
      assert [s[j]][1..] == [];
    }
  }

  /** Relates a selection over `a` to one over `s` when `a` is `s` annotated
      element by element and every selected element of `a` is read off `h`
      at its rank among the selected elements of `s`. */
  lemma {:induction false} FilterPointwise<T(!new), U(!new)>(s: seq<T>, a: seq<U>, p: T -> bool, q: U -> bool, h: seq<U>)
    requires |a| == |s|
    requires forall i :: 0 <= i < |s| ==> q(a[i]) == p(s[i])
    requires |h| == |Filter(s, p)|
    requires forall i {:trigger a[i]} :: 0 <= i < |s| && p(s[i]) ==> |Filter(s[..i], p)| < |h| && a[i] == h[|Filter(s[..i], p)|]
    ensures Filter(a, q) == h
  {
    if s == [] {
      assert |h| == 0;
    } else {
      var h' := if p(s[0]) then h[1..] else h;
      PointwiseTail(s, a, p, q, h, h');
      FilterPointwise(s[1..], a[1..], p, q, h');
      assert q(a[0]) == p(s[0]);
      if p(s[0]) {
        assert Filter(s[..0], p) == [] by {
          assert s[..0] == [];
        }
        assert |Filter(s[..0], p)| < |h| && a[0] == h[|Filter(s[..0], p)|];
      }
      PointwiseHead(a, q, h, h');
    }
  }

  /** The last step of FilterPointwise: the head of `a` is selected exactly
      when it is the head of `h`. */
  lemma PointwiseHead<U(!new)>(a: seq<U>, q: U -> bool, h: seq<U>, h': seq<U>)
    requires a != [] && Filter(a[1..], q) == h'
    requires q(a[0]) ==> h != [] && a[0] == h[0] && h' == h[1..]
    requires !q(a[0]) ==> h' == h
    ensures Filter(a, q) == h
  {
    if q(a[0]) {
      assert h == [h[0]] + h[1..];
    }
  }

  /** The hypotheses of FilterPointwise carry over to the tails. */
  lemma PointwiseTail<T(!new), U>(s: seq<T>, a: seq<U>, p: T -> bool, q: U -> bool, h: seq<U>, h': seq<U>)
    requires s != [] && |a| == |s|
    requires forall i :: 0 <= i < |s| ==> q(a[i]) == p(s[i])
    requires |h| == |Filter(s, p)|
    requires forall i {:trigger a[i]} :: 0 <= i < |s| && p(s[i]) ==> |Filter(s[..i], p)| < |h| && a[i] == h[|Filter(s[..i], p)|]
    requires h' == if p(s[0]) then h[1..] else h
    ensures forall i :: 0 <= i < |s[1..]| ==> q(a[1..][i]) == p(s[1..][i])
    ensures |h'| == |Filter(s[1..], p)|
    ensures forall i {:trigger a[1..][i]} :: 0 <= i < |s[1..]| && p(s[1..][i]) ==>
      |Filter(s[1..][..i], p)| < |h'| && a[1..][i] == h'[|Filter(s[1..][..i], p)|]
  {
    var s', a' := s[1..], a[1..];
    forall i | 0 <= i < |s'| ensures q(a'[i]) == p(s'[i]) {
      assert s'[i] == s[i + 1] && a'[i] == a[i + 1];
    }
    forall i | 0 <= i < |s'| && p(s'[i])
      ensures |Filter(s'[..i], p)| < |h'| && a'[i] == h'[|Filter(s'[..i], p)|]
    {
      FilterPrefixStep(s, p, i);
      assert s'[i] == s[i + 1] && a'[i] == a[i + 1];
    }
  }

  /** The selection of a prefix of length i + 1, through the selection of
      the tail's prefix of length i. */
  lemma FilterPrefixStep<T(!new)>(s: seq<T>, p: T -> bool, i: int)
    requires 0 <= i < |s| - 1
    ensures |Filter(s[..i + 1], p)| == |Filter(s[1..][..i], p)| + (if p(s[0]) then 1 else 0)
  {
    assert s[..i + 1][0] == s[0];
    assert s[..i + 1][1..] == s[1..][..i];
  }

  /** `s` is ordered by `key`, smallest first. */
  ghost predicate SortedBy<T>(s: seq<T>, key: T -> int)
  {
    forall i, j :: 0 <= i < j < |s| ==> key(s[i]) <= key(s[j])
  }

  /** Inserts `x` before the first element whose key is not smaller. */
  function InsertBy<T>(x: T, s: seq<T>, key: T -> int): (r: seq<T>)
    ensures multiset(r) == multiset(s) + multiset{x}
    ensures SortedBy(s, key) ==> SortedBy(r, key)
  {
    if s == [] || key(x) <= key(s[0]) then
      assert SortedBy(s, key) ==> SortedBy([x] + s, key) by {
        if SortedBy(s, key) {
          forall k | 0 <= k < |s| ensures key(x) <= key(s[k]) {
            assert key(s[0]) <= key(s[k]);
          }
          SortedCons(x, s, key);
        }
      }
      [x] + s
    else
      var rest := InsertBy(x, s[1..], key);
      assert s == [s[0]] + s[1..];
      assert multiset([s[0]] + rest) == multiset(s) + multiset{x};
      assert SortedBy(s, key) ==> SortedBy([s[0]] + rest, key) by {
        if SortedBy(s, key) {
          InsertBySorted(x, s, key, rest);
        }
      }
      [s[0]] + rest
  }

  lemma InsertBySorted<T>(x: T, s: seq<T>, key: T -> int, rest: seq<T>)
    requires SortedBy(s, key) && s != [] && key(s[0]) < key(x)
    requires SortedBy(s[1..], key) ==> SortedBy(rest, key)
    requires multiset(rest) == multiset(s[1..]) + multiset{x}
    ensures SortedBy([s[0]] + rest, key)
  {
    SortedTail(s, key);
    forall k | 0 <= k < |rest| ensures key(s[0]) <= key(rest[k]) {
      assert rest[k] in multiset(rest);
      if rest[k] != x {
        assert rest[k] in multiset(s[1..]);
        var m :| 0 <= m < |s[1..]| && s[1..][m] == rest[k];
        assert s[m + 1] == rest[k];
      }
    }
    SortedCons(s[0], rest, key);
  }

  /** A stable sort by `key`, standing for DataFrame.sort_values. */
  function SortBy<T>(s: seq<T>, key: T -> int): (r: seq<T>)
    ensures SortedBy(r, key)
    ensures multiset(r) == multiset(s)
    ensures |r| == |s|
  {
    if s == [] then []
    else
      assert s == [s[0]] + s[1..];
      InsertBy(s[0], SortBy(s[1..], key), key)
  }

  lemma SortedTail<T>(s: seq<T>, key: T -> int)
    requires SortedBy(s, key) && s != []
    ensures SortedBy(s[1..], key)
  {
    forall i, j | 0 <= i < j < |s[1..]| ensures key(s[1..][i]) <= key(s[1..][j]) {
      assert s[1..][i] == s[i + 1] && s[1..][j] == s[j + 1];
    }
  }

  lemma SortedCons<T>(x: T, f: seq<T>, key: T -> int)
    requires SortedBy(f, key)
    requires forall k :: 0 <= k < |f| ==> key(x) <= key(f[k])
    ensures SortedBy([x] + f, key)
  {
    var r := [x] + f;
    forall i, j | 0 <= i < j < |r| ensures key(r[i]) <= key(r[j]) {
      assert r[j] == f[j - 1];
      if 0 < i {
        assert r[i] == f[i - 1];
      }
    }
  }

  lemma SortedSuffix<T>(s: seq<T>, key: T -> int, k: int)
    requires SortedBy(s, key) && 0 <= k <= |s|
    ensures SortedBy(s[k..], key)
  {
    forall i, j | 0 <= i < j < |s[k..]| ensures key(s[k..][i]) <= key(s[k..][j]) {
      assert s[k..][i] == s[k + i] && s[k..][j] == s[k + j];
    }
  }

  /** The tail of a sorted sequence is sorted, holds elements of it, and no
      element before it has a larger key. */
  lemma TailOfSorted<T>(s: seq<T>, key: T -> int, n: nat)
    requires SortedBy(s, key)
    ensures SortedBy(Tail(s, n), key)
    ensures forall x :: x in Tail(s, n) ==> x in s
    ensures forall i, j :: 0 <= i < |s| - |Tail(s, n)| <= j < |s| ==> key(s[i]) <= key(s[j])
  {
    var w := Tail(s, n);
    var m := |s| - |w|;
    assert w == s[m..];
    SortedSuffix(s, key, m);
    forall x | x in w ensures x in s {
      var k :| 0 <= k < |w| && w[k] == x;
      assert s[m + k] == x;
    }
    forall i, j | 0 <= i < m <= j < |s| ensures key(s[i]) <= key(s[j]) {
      assert i < j;
    }
  }

  lemma {:induction false} FilterSorted<T(!new)>(s: seq<T>, key: T -> int, p: T -> bool)
    requires SortedBy(s, key)
    ensures SortedBy(Filter(s, p), key)
  {
    if s != [] {
      var s' := s[1..];
      SortedTail(s, key);
      FilterSorted(s', key, p);
      var f := Filter(s', p);
      if p(s[0]) {
        forall k | 0 <= k < |f| ensures key(s[0]) <= key(f[k]) {
          assert f[k] in f;
          var j :| 0 <= j < |s'| && s'[j] == f[k];
          assert s[j + 1] == f[k];
        }
        SortedCons(s[0], f, key);
      }
    }
  }

  lemma {:induction false} FilterInsertBy<T(!new)>(x: T, s: seq<T>, key: T -> int, p: T -> bool)
    requires SortedBy(s, key)
    ensures Filter(InsertBy(x, s, key), p) == if p(x) then InsertBy(x, Filter(s, p), key) else Filter(s, p)
  {
    if s == [] || key(x) <= key(s[0]) {
      FilterInsertFront(x, s, key, p);
    } else {
      var rest := InsertBy(x, s[1..], key);
      SortedTail(s, key);
      FilterInsertBy(x, s[1..], key, p);
      FilterInsertBehind(x, s, key, p, rest);
    }
  }

  /** FilterInsertBy when `x` goes in front. */
  lemma FilterInsertFront<T(!new)>(x: T, s: seq<T>, key: T -> int, p: T -> bool)
    requires SortedBy(s, key) && (s == [] || key(x) <= key(s[0]))
    ensures Filter(InsertBy(x, s, key), p) == if p(x) then InsertBy(x, Filter(s, p), key) else Filter(s, p)
  {
    var f := Filter(s, p);
    assert InsertBy(x, s, key) == [x] + s;
    assert Filter([x] + s, p) == if p(x) then [x] + f else f by {
      assert ([x] + s)[0] == x;
      assert ([x] + s)[1..] == s;
    }
    if p(x) {
      InsertInFrontOfSelection(x, s, key, p);
    }
  }

  lemma InsertInFrontOfSelection<T(!new)>(x: T, s: seq<T>, key: T -> int, p: T -> bool)
    requires SortedBy(s, key) && (s == [] || key(x) <= key(s[0]))
    ensures InsertBy(x, Filter(s, p), key) == [x] + Filter(s, p)
  {
    var f := Filter(s, p);
    if f != [] {
      assert f[0] in s;
      var j :| 0 <= j < |s| && s[j] == f[0];
      if 0 < j {
        assert key(s[0]) <= key(s[j]);
      }
    }
  }

  /** FilterInsertBy when `x` goes behind the head, given the claim for the tail. */
  lemma FilterInsertBehind<T(!new)>(x: T, s: seq<T>, key: T -> int, p: T -> bool, rest: seq<T>)
    requires s != [] && key(s[0]) < key(x) && rest == InsertBy(x, s[1..], key)
    requires Filter(rest, p) == if p(x) then InsertBy(x, Filter(s[1..], p), key) else Filter(s[1..], p)
    ensures Filter(InsertBy(x, s, key), p) == if p(x) then InsertBy(x, Filter(s, p), key) else Filter(s, p)
  {
    var f := Filter(s[1..], p);
    assert InsertBy(x, s, key) == [s[0]] + rest;
    assert ([s[0]] + rest)[1..] == rest;
    if p(s[0]) {
      assert Filter(s, p) == [s[0]] + f;
      assert Filter([s[0]] + rest, p) == [s[0]] + Filter(rest, p);
      if p(x) {
        assert ([s[0]] + f)[1..] == f;
        assert InsertBy(x, [s[0]] + f, key) == [s[0]] + InsertBy(x, f, key);
      }
    } else {
      assert Filter(s, p) == f;
      assert Filter([s[0]] + rest, p) == Filter(rest, p);
    }
  }

  /** Sorting and selecting commute, because the sort is stable. */
  lemma {:induction false} FilterSortBy<T(!new)>(s: seq<T>, key: T -> int, p: T -> bool)
    ensures Filter(SortBy(s, key), p) == SortBy(Filter(s, p), key)
  {
    if s != [] {
      FilterSortBy(s[1..], key, p);
      FilterInsertBy(s[0], SortBy(s[1..], key), key, p);
    }
  }

  /** A multiset with two copies of a value comes from two positions. */
  lemma {:induction false} TwoCopies<T>(s: seq<T>, v: T)
    requires multiset(s)[v] >= 2
    ensures exists i, j :: 0 <= i < j < |s| && s[i] == v && s[j] == v
  {
    assert s == [s[0]] + s[1..];
    if s[0] == v {
      assert v in multiset(s[1..]);
      var j :| 0 <= j < |s[1..]| && s[1..][j] == v;
      assert s[j + 1] == v;
    } else {
      TwoCopies(s[1..], v);
      var i, j :| 0 <= i < j < |s[1..]| && s[1..][i] == v && s[1..][j] == v;
      assert s[i + 1] == v && s[j + 1] == v;
    }
  }

  lemma CopiesAt<T>(s: seq<T>, i: int, j: int)
    requires 0 <= i < j < |s| && s[i] == s[j]
    ensures multiset(s)[s[i]] >= 2
  {
    assert s == s[..i] + [s[i]] + s[i + 1..j] + [s[j]] + s[j + 1..];
  }

  /** If `f` tells apart the elements of `s` position by position, it tells
      apart the elements of any permutation of `s`. */
  lemma DistinctByPermutation<T, K>(s: seq<T>, t: seq<T>, f: T -> K)
    requires multiset(s) == multiset(t)
    requires forall i, j :: 0 <= i < j < |s| ==> f(s[i]) != f(s[j])
    ensures forall i, j :: 0 <= i < j < |t| ==> f(t[i]) != f(t[j])
  {
    forall i, j | 0 <= i < j < |t| ensures f(t[i]) != f(t[j]) {
      if t[i] == t[j] {
        CopiesAt(t, i, j);
        TwoCopies(s, t[i]);
      } else {
        assert t[i] in multiset(s) && t[j] in multiset(s);
        var p :| 0 <= p < |s| && s[p] == t[i];
        var q :| 0 <= q < |s| && s[q] == t[j];
        assert p != q;
      }
    }
  }

  /** The last `n` elements of `s` (all of `s` when it is shorter), as tail(n). */
  function Tail<T>(s: seq<T>, n: nat): (r: seq<T>)
    ensures |r| == if |s| < n then |s| else n
    ensures r == s[|s| - |r|..]
  {
    if |s| <= n then s else s[|s| - n..]
  }
}
