/** `Array.prototype.sort` (stable), `filter` and the order facts used with them. */
module Sorting {

  /** `le` is a total preorder of the elements satisfying `ok`. */
  ghost predicate Preorder<T(!new)>(le: (T, T) -> bool, ok: T -> bool) {
    && (forall a, b :: ok(a) && ok(b) ==> le(a, b) || le(b, a))
    && (forall a, b, c :: ok(a) && ok(b) && ok(c) && le(a, b) && le(b, c) ==> le(a, c))
  }

  predicate All<T>(s: seq<T>, ok: T -> bool) { forall i :: 0 <= i < |s| ==> ok(s[i]) }

  predicate Distinct<T(==)>(s: seq<T>) { forall i, j :: 0 <= i < j < |s| ==> s[i] != s[j] }

  predicate SortedBy<T>(s: seq<T>, le: (T, T) -> bool) {
    forall i, j :: 0 <= i < j < |s| ==> le(s[i], s[j])
  }

  /** Inserts `x` before the first element it may precede. */
  function Insert<T>(x: T, s: seq<T>, le: (T, T) -> bool): seq<T> {
    if s == [] || le(x, s[0]) then [x] + s else [s[0]] + Insert(x, s[1..], le)
  }

  function Sort<T>(s: seq<T>, le: (T, T) -> bool): seq<T> {
    if s == [] then [] else Insert(s[0], Sort(s[1..], le), le)
  }

  lemma {:induction false} InsertKeeps<T>(x: T, s: seq<T>, le: (T, T) -> bool)
    ensures multiset(Insert(x, s, le)) == multiset{x} + multiset(s)
  {
    if s != [] && !le(x, s[0]) {
      InsertKeeps(x, s[1..], le);
      assert s == [s[0]] + s[1..];
    }
  }

  lemma {:induction false} InsertSorts<T(!new)>(x: T, s: seq<T>, le: (T, T) -> bool, ok: T -> bool)
    requires Preorder(le, ok) && ok(x) && All(s, ok) && SortedBy(s, le)
    ensures SortedBy(Insert(x, s, le), le) && All(Insert(x, s, le), ok)
  {
    if s != [] && !le(x, s[0]) {
      InsertSorts(x, s[1..], le, ok);
      InsertKeeps(x, s[1..], le);
      var t := Insert(x, s[1..], le);
      forall j | 0 <= j < |t| ensures le(s[0], t[j]) {
        assert t[j] in multiset(t);
      }
    }
  }

  lemma {:induction false} SortKeeps<T>(s: seq<T>, le: (T, T) -> bool)
    ensures multiset(Sort(s, le)) == multiset(s) && |Sort(s, le)| == |s|
  {
    if s != [] {
      SortKeeps(s[1..], le);
      InsertKeeps(s[0], Sort(s[1..], le), le);
      assert s == [s[0]] + s[1..];
    }
    assert |multiset(Sort(s, le))| == |multiset(s)|;
  }

  /** Sorting permutes, and orders by a preorder of the elements. */
  lemma {:induction false} SortSorts<T(!new)>(s: seq<T>, le: (T, T) -> bool, ok: T -> bool)
    requires Preorder(le, ok) && All(s, ok)
    ensures SortedBy(Sort(s, le), le) && All(Sort(s, le), ok)
    ensures multiset(Sort(s, le)) == multiset(s) && |Sort(s, le)| == |s|
  {
    SortKeeps(s, le);
    if s != [] {
      SortSorts(s[1..], le, ok);
      InsertSorts(s[0], Sort(s[1..], le), le, ok);
    }
  }

  lemma SameMembers<T>(s: seq<T>, t: seq<T>)
    requires multiset(s) == multiset(t)
    ensures forall x :: x in s <==> x in t
  {
    forall x ensures x in s <==> x in t {
      assert x in s <==> x in multiset(s);
      assert x in t <==> x in multiset(t);
    }
  }

  lemma LeastFirst<T>(s: seq<T>, x: T, le: (T, T) -> bool)
    requires SortedBy(s, le) && x in s
    ensures x == s[0] || le(s[0], x)
  {
    var i :| 0 <= i < |s| && s[i] == x;
  }

  lemma TailMultiset<T>(s: seq<T>)
    requires s != []
    ensures multiset(s[1..]) == multiset(s) - multiset{s[0]}
  {
    assert s == [s[0]] + s[1..];
  }

  /** Dropping an element both have keeps two arrangements alike. */
  lemma DropBoth<T>(s: seq<T>, t: seq<T>, i: nat)
    requires s != [] && multiset(s) == multiset(t) && i < |t| && t[i] == s[0]
    ensures multiset(t[..i] + t[i + 1..]) == multiset(s[1..])
  {
    TailMultiset(s);
    assert t == t[..i] + [s[0]] + t[i + 1..];
    assert multiset(t) == multiset(t[..i] + t[i + 1..]) + multiset{s[0]};
  }

  /** Splits `t` around an occurrence of the first element of `s`. */
  lemma AroundHead<T>(s: seq<T>, t: seq<T>) returns (a: seq<T>, b: seq<T>)
    requires s != [] && multiset(s) == multiset(t)
    ensures t == a + [s[0]] + b && multiset(a + b) == multiset(s[1..]) && |a + b| < |t|
  {
    SameMembers(s, t);
    assert s[0] in t;
    var i :| 0 <= i < |t| && t[i] == s[0];
    a, b := t[..i], t[i + 1..];
    DropBoth(s, t, i);
  }

  /** A sorted arrangement of a multiset is unique when ties are equal. */
  lemma {:induction false} SortedUnique<T(!new)>(s: seq<T>, t: seq<T>, le: (T, T) -> bool)
    requires SortedBy(s, le) && SortedBy(t, le)
    requires forall a, b :: le(a, b) && le(b, a) ==> a == b
    requires multiset(s) == multiset(t)
    ensures s == t
  {
    assert |s| == |multiset(s)| == |multiset(t)| == |t|;
    if s != [] {
      SameMembers(s, t);
      assert s[0] in t && t[0] in s;
      LeastFirst(s, t[0], le);
      LeastFirst(t, s[0], le);
      TailMultiset(s);
      TailMultiset(t);
      SortedUnique(s[1..], t[1..], le);
      assert s == [s[0]] + s[1..] && t == [t[0]] + t[1..];
    }
  }

  /** `s.filter(keep)`. */
  function Filter<T>(s: seq<T>, keep: T -> bool): seq<T> {
    if s == [] then [] else (if keep(s[0]) then [s[0]] else []) + Filter(s[1..], keep)
  }

  lemma {:induction false} FilterMember<T>(s: seq<T>, keep: T -> bool, x: T)
    ensures x in Filter(s, keep) <==> x in s && keep(x)
  {
    if s != [] {
      FilterMember(s[1..], keep, x);
      assert s == [s[0]] + s[1..];
    }
  }

  lemma {:induction false} FilterCounts<T>(s: seq<T>, keep: T -> bool, x: T)
    ensures multiset(Filter(s, keep))[x] == if keep(x) then multiset(s)[x] else 0
  {
    if s != [] {
      FilterCounts(s[1..], keep, x);
      assert s == [s[0]] + s[1..];
      assert multiset(s)[x] == multiset(s[1..])[x] + if s[0] == x then 1 else 0;
    }
  }

  lemma {:induction false} SameFilter<T(!new)>(s: seq<T>, f: T -> bool, g: T -> bool)
    requires forall x :: f(x) == g(x)
    ensures Filter(s, f) == Filter(s, g)
  {
    if s != [] { SameFilter(s[1..], f, g); }
  }

  /** An element of a filtered tail stands somewhere after the head. */
  lemma FilterTail<T>(s: seq<T>, keep: T -> bool, j: nat) returns (k: nat)
    requires s != [] && j < |Filter(s[1..], keep)|
    ensures 0 < k < |s| && s[k] == Filter(s[1..], keep)[j]
  {
    var x := Filter(s[1..], keep)[j];
    FilterMember(s[1..], keep, x);
    var i :| 0 <= i < |s[1..]| && s[1..][i] == x;
    k := i + 1;
  }

  lemma {:induction false} FilterSorted<T>(s: seq<T>, keep: T -> bool, le: (T, T) -> bool)
    requires SortedBy(s, le)
    ensures SortedBy(Filter(s, keep), le)
  {
    if s != [] {
      FilterSorted(s[1..], keep, le);
      var t := Filter(s[1..], keep);
      forall j | 0 <= j < |t| ensures le(s[0], t[j]) {
        var k := FilterTail(s, keep, j);
      }
    }
  }

  lemma {:induction false} FilterDistinct<T>(s: seq<T>, keep: T -> bool)
    requires Distinct(s)
    ensures Distinct(Filter(s, keep))
  {
    if s != [] {
      FilterDistinct(s[1..], keep);
      var t := Filter(s[1..], keep);
      forall j | 0 <= j < |t| ensures s[0] != t[j] {
        var k := FilterTail(s, keep, j);
      }
    }
  }

  lemma {:induction false} DistinctCountsOnce<T>(s: seq<T>, x: T)
    requires Distinct(s)
    ensures multiset(s)[x] <= 1
  {
    if s != [] {
      assert s == [s[0]] + s[1..];
      DistinctCountsOnce(s[1..], x);
      assert s[0] !in s[1..];
    }
  }

  /** A permutation of distinct elements is distinct. */
  lemma PermutedDistinct<T>(s: seq<T>, t: seq<T>)
    requires multiset(s) == multiset(t) && Distinct(s)
    ensures Distinct(t)
  {
    forall i, j | 0 <= i < j < |t| ensures t[i] != t[j] {
      if t[i] == t[j] {
        assert t == t[..i] + [t[i]] + t[i + 1..j] + [t[j]] + t[j + 1..];
        assert multiset(t)[t[i]] >= 2;
        DistinctCountsOnce(s, t[i]);
      }
    }
  }

  /** As many members as positions. */
  lemma {:induction false} DistinctSize<T>(s: seq<T>)
    requires Distinct(s)
    ensures |Members(s)| == |s|
  {
    if s != [] {
      var front := s[..|s| - 1];
      DistinctSize(front);
      assert s == front + [s[|s| - 1]];
      assert Members(s) == Members(front) + {s[|s| - 1]};
    }
  }

  function Members<T>(s: seq<T>): set<T> { set x | x in s }

  lemma SubsetSize<T>(a: set<T>, b: set<T>)
    requires a <= b
    ensures |a| <= |b|
  {
    assert b == a + (b - a);
  }
}
