/** Key-ordered sorting and selection, as Python's `sorted`, `list.sort` and `min` use them. */
module Sorting {

  /** A reflexive, transitive order in which any two values are comparable. */
  ghost predicate TotalPreorder<T(!new)>(leq: (T, T) -> bool) {
    && (forall x, y :: leq(x, y) || leq(y, x))
    && (forall x, y, z :: leq(x, y) && leq(y, z) ==> leq(x, z))
  }

  ghost predicate SortedBy<T>(s: seq<T>, leq: (T, T) -> bool) {
    forall i, j :: 0 <= i < j < |s| ==> leq(s[i], s[j])
  }

  /** Lexicographic order, as Python compares strings and tuples, by the rank of each element. */
  function LexLeq<T>(a: seq<T>, b: seq<T>, rank: T -> int): bool {
    a == [] || (b != [] && (rank(a[0]) < rank(b[0]) || (rank(a[0]) == rank(b[0]) && LexLeq(a[1..], b[1..], rank))))
  }

  lemma {:induction false} LexTotal<T(!new)>(a: seq<T>, b: seq<T>, rank: T -> int)
    requires forall x, y :: rank(x) == rank(y) ==> x == y
    ensures LexLeq(a, b, rank) || LexLeq(b, a, rank)
    ensures LexLeq(a, b, rank) && LexLeq(b, a, rank) ==> a == b
  {
    if a != [] && b != [] && a[0] == b[0] {
      LexTotal(a[1..], b[1..], rank);
      assert a == [a[0]] + a[1..] && b == [b[0]] + b[1..];
    }
  }

  lemma {:induction false} LexTransitive<T>(a: seq<T>, b: seq<T>, c: seq<T>, rank: T -> int)
    requires LexLeq(a, b, rank) && LexLeq(b, c, rank)
    ensures LexLeq(a, c, rank)
  {
    if a != [] && rank(a[0]) == rank(b[0]) == rank(c[0]) {
      LexTransitive(a[1..], b[1..], c[1..], rank);
    }
  }

  /** Up to `k` the two agree; there `b` goes on and `a` ends or is smaller. */
  ghost predicate SmallerAt<T(!new)>(a: seq<T>, b: seq<T>, less: (T, T) -> bool, k: nat) {
    k <= |a| && k < |b| && a[..k] == b[..k] && (k < |a| ==> less(a[k], b[k]))
  }

  /** Lexicographic order is decided at the first place where two sequences differ. */
  lemma {:induction false} LexDecided<T(!new)>(a: seq<T>, b: seq<T>, rank: T -> int, less: (T, T) -> bool)
    requires forall x, y :: (rank(x) == rank(y) ==> x == y) && (rank(x) < rank(y) <==> less(x, y))
    ensures LexLeq(a, b, rank) <==> a == b || exists k: nat :: SmallerAt(a, b, less, k)
  {
    if a == [] {
      assert b == [] || SmallerAt(a, b, less, 0);
    } else if b != [] {
      LexDecided(a[1..], b[1..], rank, less);
      assert a == [a[0]] + a[1..] && b == [b[0]] + b[1..];
      forall k: nat | SmallerAt(a, b, less, k) && k > 0 ensures a[0] == b[0] { SameHead(a, b, less, k); }
      if rank(a[0]) < rank(b[0]) {
        assert SmallerAt(a, b, less, 0);
      } else if a[0] == b[0] {
        if k: nat :| SmallerAt(a[1..], b[1..], less, k) {
          assert a[..k + 1] == [a[0]] + a[1..][..k] && b[..k + 1] == [b[0]] + b[1..][..k];
          assert SmallerAt(a, b, less, k + 1);
        }
        if k: nat :| SmallerAt(a, b, less, k) {
          assert k > 0 && a[1..][..k - 1] == a[..k][1..] && b[1..][..k - 1] == b[..k][1..];
          assert SmallerAt(a[1..], b[1..], less, k - 1);
        }
      }
    }
  }

  lemma SameHead<T(!new)>(a: seq<T>, b: seq<T>, less: (T, T) -> bool, k: nat)
    requires SmallerAt(a, b, less, k) && k > 0
    ensures a != [] && b != [] && a[0] == b[0]
  {
    assert a[..k][0] == b[..k][0];
  }

  function InsertBy<T>(x: T, s: seq<T>, leq: (T, T) -> bool): seq<T> {
    if s == [] then [x]
    else if leq(x, s[0]) then [x] + s
    else [s[0]] + InsertBy(x, s[1..], leq)
  }

  function SortBy<T>(s: seq<T>, leq: (T, T) -> bool): seq<T> {
    if s == [] then [] else InsertBy(s[0], SortBy(s[1..], leq), leq)
  }

  lemma {:induction false} InsertPermutes<T>(x: T, s: seq<T>, leq: (T, T) -> bool)
    ensures multiset(InsertBy(x, s, leq)) == multiset{x} + multiset(s)
  {
    if s != [] && !leq(x, s[0]) {
      InsertPermutes(x, s[1..], leq);
      assert s == [s[0]] + s[1..];
    }
  }

  lemma {:induction false} SortPermutes<T>(s: seq<T>, leq: (T, T) -> bool)
    ensures multiset(SortBy(s, leq)) == multiset(s)
    ensures |SortBy(s, leq)| == |s|
    ensures forall x :: x in SortBy(s, leq) <==> x in s
  {
    if s != [] {
      SortPermutes(s[1..], leq);
      InsertPermutes(s[0], SortBy(s[1..], leq), leq);
      assert s == [s[0]] + s[1..];
    }
    SameElements(SortBy(s, leq), s);
  }

  lemma SameElements<T>(a: seq<T>, b: seq<T>)
    requires multiset(a) == multiset(b)
    ensures |a| == |b|
    ensures forall x :: x in a <==> x in b
  {
    assert |a| == |multiset(a)| && |b| == |multiset(b)|;
    forall x ensures x in a <==> x in b {
      assert x in a <==> x in multiset(a);
      assert x in b <==> x in multiset(b);
    }
  }

  lemma {:induction false} InsertSorted<T(!new)>(x: T, s: seq<T>, leq: (T, T) -> bool)
    requires TotalPreorder(leq) && SortedBy(s, leq)
    ensures SortedBy(InsertBy(x, s, leq), leq)
  {
    if s != [] && !leq(x, s[0]) {
      var rest := InsertBy(x, s[1..], leq);
      InsertSorted(x, s[1..], leq);
      InsertPermutes(x, s[1..], leq);
      forall j | 0 <= j < |rest| ensures leq(s[0], rest[j]) {
        assert rest[j] in multiset(rest);
        assert rest[j] == x || rest[j] in s[1..];
      }
    }
  }

  lemma {:induction false} SortSorted<T(!new)>(s: seq<T>, leq: (T, T) -> bool)
    requires TotalPreorder(leq)
    ensures SortedBy(SortBy(s, leq), leq)
  {
    if s != [] {
      SortSorted(s[1..], leq);
      InsertSorted(s[0], SortBy(s[1..], leq), leq);
    }
  }

  lemma HeadsAgree<T(!new)>(a: seq<T>, b: seq<T>, leq: (T, T) -> bool)
    requires TotalPreorder(leq) && SortedBy(a, leq) && SortedBy(b, leq)
    requires a != [] && b != [] && a[0] in b && b[0] in a
    requires forall x, y :: x in a && y in a && leq(x, y) && leq(y, x) ==> x == y
    ensures a[0] == b[0]
  {
    var i :| 0 <= i < |a| && a[i] == b[0];
    var j :| 0 <= j < |b| && b[j] == a[0];
    assert leq(a[0], a[0]);
    assert leq(a[0], a[i]) && leq(b[0], b[j]);
  }

  lemma DropHead<T>(a: seq<T>)
    requires a != []
    ensures multiset(a[1..]) == multiset(a) - multiset{a[0]}
  {
    assert a == [a[0]] + a[1..];
  }

  lemma MultisetRemove<T>(b: seq<T>, i: nat)
    requires i < |b|
    ensures multiset(b[..i] + b[i + 1..]) == multiset(b) - multiset{b[i]}
  {
    assert b == b[..i] + [b[i]] + b[i + 1..];
  }

  /** Two sorted arrangements of the same elements agree when the key tells the elements apart. */
  lemma {:induction false} SortedUnique<T(!new)>(a: seq<T>, b: seq<T>, leq: (T, T) -> bool)
    requires TotalPreorder(leq) && SortedBy(a, leq) && SortedBy(b, leq)
    requires multiset(a) == multiset(b)
    requires forall x, y :: x in a && y in a && leq(x, y) && leq(y, x) ==> x == y
    ensures a == b
  {
    SameElements(a, b);
    if a != [] {
      HeadsAgree(a, b, leq);
      DropHead(a);
      DropHead(b);
      assert forall x :: x in a[1..] ==> x in a;
      SortedUnique(a[1..], b[1..], leq);
    }
  }

  /** Sorting forgets the listing order. */
  lemma SortOrderIndependent<T(!new)>(a: seq<T>, b: seq<T>, leq: (T, T) -> bool)
    requires TotalPreorder(leq)
    requires multiset(a) == multiset(b)
    requires forall x, y :: x in a && y in a && leq(x, y) && leq(y, x) ==> x == y
    ensures SortBy(a, leq) == SortBy(b, leq)
  {
    SortPermutes(a, leq);
    SortPermutes(b, leq);
    SortSorted(a, leq);
    SortSorted(b, leq);
    SortedUnique(SortBy(a, leq), SortBy(b, leq), leq);
  }

  // ---------------------------------------------------------------- one function on every element

  function MapBy<T, U>(s: seq<T>, f: T -> U): (r: seq<U>)
    ensures |r| == |s| && forall i :: 0 <= i < |r| ==> r[i] == f(s[i])
  {
    seq(|s|, i requires 0 <= i < |s| => f(s[i]))
  }

  lemma MapRemoves<T, U>(s: seq<T>, k: nat, f: T -> U)
    requires k < |s|
    ensures multiset(MapBy(s, f)) == multiset(MapBy(s[..k] + s[k + 1..], f)) + multiset{f(s[k])}
  {
    assert MapBy(s[..k] + s[k + 1..], f) == MapBy(s, f)[..k] + MapBy(s, f)[k + 1..];
    MultisetRemove(MapBy(s, f), k);
  }

  lemma MapHead<T, U>(s: seq<T>, f: T -> U)
    requires s != []
    ensures multiset(MapBy(s, f)) == multiset(MapBy(s[1..], f)) + multiset{f(s[0])}
  {
    assert MapBy(s, f)[1..] == MapBy(s[1..], f);
    DropHead(MapBy(s, f));
  }

  lemma RemoveHead<T>(a: seq<T>, b: seq<T>) returns (k: nat)
    requires multiset(a) == multiset(b) && a != []
    ensures k < |b| && b[k] == a[0] && multiset(a[1..]) == multiset(b[..k] + b[k + 1..])
  {
    SameElements(a, b);
    assert a[0] in b;
    k :| 0 <= k < |b| && b[k] == a[0];
    DropHead(a);
    MultisetRemove(b, k);
  }

  lemma {:induction false} MapPermutes<T, U>(a: seq<T>, b: seq<T>, f: T -> U)
    requires multiset(a) == multiset(b)
    ensures multiset(MapBy(a, f)) == multiset(MapBy(b, f))
    decreases |a|
  {
    SameElements(a, b);
    if a != [] {
      var k := RemoveHead(a, b);
      MapPermutes(a[1..], b[..k] + b[k + 1..], f);
      MapHead(a, f);
      MapRemoves(b, k, f);
    } else {
      assert b == [];
    }
  }

  lemma MapCons<T, U>(x: T, s: seq<T>, f: T -> U)
    ensures MapBy([x] + s, f) == [f(x)] + MapBy(s, f)
  {}

  lemma {:induction false} InsertMaps<T, U>(x: T, s: seq<T>, leq: (T, T) -> bool, leq': (U, U) -> bool, f: T -> U)
    requires forall y :: y in s ==> leq'(f(x), f(y)) == leq(x, y)
    ensures InsertBy(f(x), MapBy(s, f), leq') == MapBy(InsertBy(x, s, leq), f)
  {
    hide MapBy;
    if s == [] {
      MapCons(x, [], f);
    } else {
      var head, rest := s[0], s[1..];
      assert s == [head] + rest && head in s;
      MapCons(head, rest, f);
      if leq(x, head) {
        MapCons(x, s, f);
      } else {
        assert forall y :: y in rest ==> y in s;
        InsertMaps(x, rest, leq, leq', f);
        assert MapBy(s, f)[1..] == MapBy(rest, f);
        MapCons(head, InsertBy(x, rest, leq), f);
      }
    }
  }

  /** Sorting by a key, before or after a function that keeps the key. */
  lemma {:induction false} SortMaps<T, U>(s: seq<T>, leq: (T, T) -> bool, leq': (U, U) -> bool, f: T -> U)
    requires forall x, y :: x in s && y in s ==> leq'(f(x), f(y)) == leq(x, y)
    ensures SortBy(MapBy(s, f), leq') == MapBy(SortBy(s, leq), f)
  {
    if s != [] {
      assert MapBy(s, f)[1..] == MapBy(s[1..], f);
      SortMaps(s[1..], leq, leq', f);
      var rest := SortBy(s[1..], leq);
      SortPermutes(s[1..], leq);
      forall y | y in rest ensures leq'(f(s[0]), f(y)) == leq(s[0], y) {
        assert y in multiset(rest);
        assert y in s[1..] && s == [s[0]] + s[1..];
      }
      InsertMaps(s[0], rest, leq, leq', f);
    }
  }

  // ---------------------------------------------------------------- lists without repeated keys

  ghost predicate DistinctBy<T, K>(s: seq<T>, key: T -> K) { forall i, j :: 0 <= i < j < |s| ==> key(s[i]) != key(s[j]) }

  ghost function Keys<T, K>(s: seq<T>, key: T -> K): set<K> { set x | x in s :: key(x) }

  lemma KeysAppend<T, K>(s: seq<T>, x: T, key: T -> K)
    ensures Keys(s + [x], key) == Keys(s, key) + {key(x)}
    ensures DistinctBy(s + [x], key) <==> DistinctBy(s, key) && key(x) !in Keys(s, key)
  {
    var more, n := s + [x], |s|;
    assert forall y :: y in more <==> y in s || y == x;
    assert more[n] == x && forall i :: 0 <= i < n ==> more[i] == s[i] && s[i] in s;
  }

  /** No key repeats exactly when there are as many keys as elements. */
  lemma {:induction false} DistinctIffCounted<T, K>(s: seq<T>, key: T -> K)
    ensures |Keys(s, key)| <= |s|
    ensures DistinctBy(s, key) <==> |Keys(s, key)| == |s|
  {
    if s == [] {
      assert Keys(s, key) == {};
    } else {
      var n := |s| - 1;
      assert s == s[..n] + [s[n]];
      KeysAppend(s[..n], s[n], key);
      DistinctIffCounted(s[..n], key);
    }
  }

  lemma DistinctPermutes<T, K>(a: seq<T>, b: seq<T>, key: T -> K)
    requires multiset(a) == multiset(b)
    ensures DistinctBy(a, key) <==> DistinctBy(b, key)
  {
    SameElements(a, b);
    DistinctIffCounted(a, key);
    DistinctIffCounted(b, key);
    assert Keys(a, key) == Keys(b, key);
  }

  lemma DistinctTellsApart<T, K>(s: seq<T>, key: T -> K)
    requires DistinctBy(s, key)
    ensures forall x, y :: x in s && y in s && key(x) == key(y) ==> x == y
  {}

  // ---------------------------------------------------------------- the least element

  /** The first element with the least key. */
  function MinBy<T>(s: seq<T>, leq: (T, T) -> bool): T
    requires s != []
  {
    if |s| == 1 then s[0]
    else
      var rest := MinBy(s[1..], leq);
      if leq(s[0], rest) then s[0] else rest
  }

  lemma {:induction false} MinByLeast<T(!new)>(s: seq<T>, leq: (T, T) -> bool)
    requires s != [] && TotalPreorder(leq)
    ensures MinBy(s, leq) in s
    ensures forall x :: x in s ==> leq(MinBy(s, leq), x)
  {
    if |s| > 1 {
      MinByLeast(s[1..], leq);
    }
    forall x | x in s ensures leq(MinBy(s, leq), x) {
      assert x == s[0] || x in s[1..];
      assert leq(s[0], s[0]);
    }
  }
}
