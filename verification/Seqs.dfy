/** Filtering and stable sorting of sequences, as `Array.prototype.filter` and `sort` do them. */
module Seqs {

  function Filter<T>(s: seq<T>, keep: T -> bool): seq<T> {
    if s == [] then []
    else if keep(s[0]) then [s[0]] + Filter(s[1..], keep)
    else Filter(s[1..], keep)
  }

  lemma {:induction false} FilterMembers<T>(s: seq<T>, keep: T -> bool)
    ensures forall x | x in Filter(s, keep) :: x in s && keep(x)
    ensures forall x | x in s && keep(x) :: x in Filter(s, keep)
  {
    if s != [] {
      FilterMembers(s[1..], keep);
    }
  }

  lemma {:induction false} FilterConcat<T>(a: seq<T>, b: seq<T>, keep: T -> bool)
    ensures Filter(a + b, keep) == Filter(a, keep) + Filter(b, keep)
  {
    if a == [] {
      assert a + b == b;
    } else {
      assert (a + b)[1..] == a[1..] + b;
      FilterConcat(a[1..], b, keep);
    }
  }

  /** Filtering one element more. */
  lemma FilterStep<T>(s: seq<T>, i: nat, keep: T -> bool)
    requires i < |s|
    ensures Filter(s[..i + 1], keep) == if keep(s[i]) then Filter(s[..i], keep) + [s[i]] else Filter(s[..i], keep)
  {
    assert s[..i + 1] == s[..i] + [s[i]];
    FilterConcat(s[..i], [s[i]], keep);
  }

  lemma {:induction false} FilterAll<T>(s: seq<T>, keep: T -> bool)
    requires forall x :: x in s ==> keep(x)
    ensures Filter(s, keep) == s
  {
    if s != [] {
      FilterAll(s[1..], keep);
    }
  }

  lemma {:induction false} FilterCommutes<T>(s: seq<T>, p: T -> bool, q: T -> bool)
    ensures Filter(Filter(s, p), q) == Filter(Filter(s, q), p)
  {
    if s != [] {
      FilterCommutes(s[1..], p, q);
      assert p(s[0]) ==> Filter(s, p)[1..] == Filter(s[1..], p);
      assert q(s[0]) ==> Filter(s, q)[1..] == Filter(s[1..], q);
    }
  }

  /** Predicates that agree on the elements select the same subsequence. */
  lemma {:induction false} FilterSame<T>(s: seq<T>, p: T -> bool, q: T -> bool)
    requires forall x :: x in s ==> p(x) == q(x)
    ensures Filter(s, p) == Filter(s, q)
  {
    if s != [] {
      FilterSame(s[1..], p, q);
    }
  }

  /** A filter and its complement lose nothing and duplicate nothing. */
  lemma {:induction false} FilterPartition<T>(s: seq<T>, p: T -> bool)
    ensures multiset(Filter(s, p)) + multiset(Filter(s, x => !p(x))) == multiset(s)
  {
    if s != [] {
      FilterPartition(s[1..], p);
      assert s == [s[0]] + s[1..];
    }
  }

  lemma MultisetCancel<T>(p: multiset<T>, q: multiset<T>, x: T)
    ensures p + multiset{x} <= q + multiset{x} ==> p <= q
    ensures p + multiset{x} == q + multiset{x} ==> p == q
  {
    if p + multiset{x} == q + multiset{x} {
      assert p + multiset{x} - multiset{x} == p;
      assert q + multiset{x} - multiset{x} == q;
    }
    if p + multiset{x} <= q + multiset{x} {
      forall y ensures p[y] <= q[y] {
        assert (p + multiset{x})[y] <= (q + multiset{x})[y];
      }
    }
  }

  /** The last element of `a` can be taken out of `b`, and the rests are related as before. */
  lemma TakeOut<T>(a: seq<T>, b: seq<T>) returns (pre: seq<T>, post: seq<T>)
    requires a != [] && multiset(a) <= multiset(b)
    ensures b == pre + [a[|a| - 1]] + post
    ensures multiset(a[..|a| - 1]) <= multiset(pre + post)
    ensures multiset(a) == multiset(b) ==> multiset(a[..|a| - 1]) == multiset(pre + post)
  {
    var x := a[|a| - 1];
    assert a == a[..|a| - 1] + [x];
    assert x in multiset(a);
    var j :| 0 <= j < |b| && b[j] == x;
    pre, post := b[..j], b[j + 1..];
    assert b == pre + [x] + post;
    assert multiset(b) == multiset(pre + post) + multiset{x};
    MultisetCancel(multiset(a[..|a| - 1]), multiset(pre + post), x);
  }

  // ----- Stable sorting -----

  function Insert<T>(x: T, sorted: seq<T>, rank: T -> int): seq<T> {
    if sorted == [] || rank(x) <= rank(sorted[0]) then [x] + sorted
    else [sorted[0]] + Insert(x, sorted[1..], rank)
  }

  /** Sorts by rising rank; elements of one rank keep their order. */
  function StableSort<T>(s: seq<T>, rank: T -> int): seq<T> {
    if s == [] then [] else Insert(s[0], StableSort(s[1..], rank), rank)
  }

  lemma {:induction false} InsertIsPermutation<T>(x: T, sorted: seq<T>, rank: T -> int)
    ensures multiset(Insert(x, sorted, rank)) == multiset{x} + multiset(sorted)
  {
    if sorted != [] && rank(x) > rank(sorted[0]) {
      InsertIsPermutation(x, sorted[1..], rank);
      assert sorted == [sorted[0]] + sorted[1..];
    }
  }

  lemma {:induction false} SortIsPermutation<T>(s: seq<T>, rank: T -> int)
    ensures multiset(StableSort(s, rank)) == multiset(s)
  {
    if s != [] {
      SortIsPermutation(s[1..], rank);
      InsertIsPermutation(s[0], StableSort(s[1..], rank), rank);
      assert s == [s[0]] + s[1..];
    }
  }

  function OfRank<T>(rank: T -> int, r: int): T -> bool {
    x => rank(x) == r
  }

  lemma {:induction false} InsertIsStable<T>(x: T, sorted: seq<T>, rank: T -> int, r: int)
    ensures Filter(Insert(x, sorted, rank), OfRank(rank, r)) == Filter([x] + sorted, OfRank(rank, r))
  {
    if sorted != [] && rank(x) > rank(sorted[0]) {
      InsertIsStable(x, sorted[1..], rank, r);
      var tail := Insert(x, sorted[1..], rank);
      assert ([sorted[0]] + tail)[1..] == tail;
      assert ([x] + sorted[1..])[1..] == sorted[1..] && ([x] + sorted)[1..] == sorted;
    }
  }

  lemma {:induction false} SortIsStable<T>(s: seq<T>, rank: T -> int, r: int)
    ensures Filter(StableSort(s, rank), OfRank(rank, r)) == Filter(s, OfRank(rank, r))
  {
    if s != [] {
      var rest := StableSort(s[1..], rank);
      SortIsStable(s[1..], rank, r);
      InsertIsStable(s[0], rest, rank, r);
      assert ([s[0]] + rest)[1..] == rest;
    }
  }

  predicate Sorted<T>(s: seq<T>, rank: T -> int) {
    forall i, j | 0 <= i < j < |s| :: rank(s[i]) <= rank(s[j])
  }

  lemma {:induction false} InsertIsSorted<T>(x: T, sorted: seq<T>, rank: T -> int)
    requires Sorted(sorted, rank)
    ensures Sorted(Insert(x, sorted, rank), rank)
  {
    if sorted != [] && rank(x) > rank(sorted[0]) {
      var tail := Insert(x, sorted[1..], rank);
      InsertIsSorted(x, sorted[1..], rank);
      InsertIsPermutation(x, sorted[1..], rank);
      forall y | y in tail ensures rank(sorted[0]) <= rank(y) {
        assert y in multiset(tail);
      }
      SortedCons(sorted[0], tail, rank);
    }
  }

  lemma SortedCons<T>(x: T, tail: seq<T>, rank: T -> int)
    requires Sorted(tail, rank) && forall y | y in tail :: rank(x) <= rank(y)
    ensures Sorted([x] + tail, rank)
  {
  }

  lemma {:induction false} SortIsSorted<T>(s: seq<T>, rank: T -> int)
    ensures Sorted(StableSort(s, rank), rank)
  {
    if s != [] {
      SortIsSorted(s[1..], rank);
      InsertIsSorted(s[0], StableSort(s[1..], rank), rank);
    }
  }

  /** `t` has the elements of each rank in the order of `s`. */
  ghost predicate KeepsRanks<T(!new)>(s: seq<T>, t: seq<T>, rank: T -> int) {
    forall r :: Filter(t, OfRank(rank, r)) == Filter(s, OfRank(rank, r))
  }

  lemma HeadRank<T(!new)>(s: seq<T>, t: seq<T>, rank: T -> int)
    requires s != [] && Sorted(t, rank) && KeepsRanks(s, t, rank)
    ensures t != [] && rank(t[0]) <= rank(s[0])
  {
    var same := OfRank(rank, rank(s[0]));
    FilterMembers(s, same);
    FilterMembers(t, same);
    assert s[0] in Filter(s, same) && s[0] in t;
  }

  /** Two sorted sequences with the same order within each rank are equal. */
  lemma {:induction false} SortedIsUnique<T(!new)>(s: seq<T>, t: seq<T>, rank: T -> int)
    requires Sorted(s, rank) && Sorted(t, rank) && KeepsRanks(s, t, rank)
    ensures s == t
    decreases s
  {
    if s == [] && t != [] {
      HeadRank(t, s, rank);
    } else if s != [] {
      HeadRank(s, t, rank);
      HeadRank(t, s, rank);
      var same := OfRank(rank, rank(s[0]));
      assert s[0] == Filter(s, same)[0] == Filter(t, same)[0] == t[0];
      forall r ensures Filter(t[1..], OfRank(rank, r)) == Filter(s[1..], OfRank(rank, r)) {
        assert rank(s[0]) == r ==> Filter(s[1..], OfRank(rank, r)) == Filter(s, OfRank(rank, r))[1..];
        assert rank(s[0]) == r ==> Filter(t[1..], OfRank(rank, r)) == Filter(t, OfRank(rank, r))[1..];
        assert Filter(t, OfRank(rank, r)) == Filter(s, OfRank(rank, r));
      }
      SortedIsUnique(s[1..], t[1..], rank);
    }
  }

  /** So being sorted and stable determines the result: it is what any stable sort by rank gives. */
  lemma SortIsTheStableSort<T(!new)>(s: seq<T>, t: seq<T>, rank: T -> int)
    ensures t == StableSort(s, rank) <==> Sorted(t, rank) && KeepsRanks(s, t, rank)
  {
    var u := StableSort(s, rank);
    SortIsSorted(s, rank);
    forall r ensures Filter(u, OfRank(rank, r)) == Filter(s, OfRank(rank, r)) {
      SortIsStable(s, rank, r);
    }
    if Sorted(t, rank) && KeepsRanks(s, t, rank) {
      assert KeepsRanks(u, t, rank);
      SortedIsUnique(u, t, rank);
    }
  }

  /** The head of the sorted sequence is the first element of the least rank. */
  lemma {:induction false} SortHead<T>(s: seq<T>, rank: T -> int) returns (k: nat)
    requires s != []
    ensures k < |s| && StableSort(s, rank) != [] && StableSort(s, rank)[0] == s[k]
    ensures forall i | 0 <= i < |s| :: rank(s[k]) <= rank(s[i])
    ensures forall i | 0 <= i < k :: rank(s[k]) < rank(s[i])
  {
    if |s| == 1 {
      k := 0;
    } else {
      var j := SortHead(s[1..], rank);
      k := if rank(s[0]) <= rank(s[1..][j]) then 0 else j + 1;
    }
  }

  // ----- Sorting by one property -----

  /** What has the property sorts before what has not. */
  function FirstRank<T>(first: T -> bool): T -> int {
    x => if first(x) then 0 else 1
  }

  function Not<T>(p: T -> bool): T -> bool {
    x => !p(x)
  }

  lemma {:induction false} InsertLater<T>(x: T, yes: seq<T>, no: seq<T>, first: T -> bool)
    requires !first(x) && (forall e | e in yes :: first(e)) && (forall e | e in no :: !first(e))
    ensures Insert(x, yes + no, FirstRank(first)) == yes + ([x] + no)
  {
    var whole := yes + no;
    if yes == [] {
      assert whole == no;
    } else {
      assert whole[0] == yes[0] && whole[1..] == yes[1..] + no;
      InsertLater(x, yes[1..], no, first);
      assert [yes[0]] + (yes[1..] + ([x] + no)) == yes + ([x] + no);
    }
  }

  /** The stable sort by one property is the stable partition. */
  lemma {:induction false} SortIsPartition<T>(s: seq<T>, first: T -> bool)
    ensures StableSort(s, FirstRank(first)) == Filter(s, first) + Filter(s, Not(first))
  {
    if s != [] {
      SortIsPartition(s[1..], first);
      FilterMembers(s[1..], first);
      FilterMembers(s[1..], Not(first));
      if !first(s[0]) {
        InsertLater(s[0], Filter(s[1..], first), Filter(s[1..], Not(first)), first);
      }
    }
  }

  /** An appended element without the property stays last. */
  lemma SortAppended<T>(s: seq<T>, x: T, first: T -> bool)
    requires !first(x)
    ensures StableSort(s + [x], FirstRank(first)) == Filter(s, first) + Filter(s, Not(first)) + [x]
  {
    SortIsPartition(s + [x], first);
    FilterConcat(s, [x], first);
    FilterConcat(s, [x], Not(first));
    var none: seq<T> := [];
    assert [x][1..] == none;
    assert Filter([x], first) == none && Filter([x], Not(first)) == [x];
  }
}
