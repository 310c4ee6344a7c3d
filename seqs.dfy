/**
 * Sequence helpers shared by every stage of the workforce pipeline:
 * an Option type for nullable cells, boolean-mask selection (`Where`),
 * sums and a descending sort.
 */
module Seqs {

  datatype Option<+T> = None | Some(value: T)

  /** `a` is `b` with some elements left out and the rest kept in order. */
  predicate IsSubseq<T(==)>(a: seq<T>, b: seq<T>)
    decreases |b|
  {
    if b == [] then a == []
    else (a != [] && a[0] == b[0] && IsSubseq(a[1..], b[1..])) || IsSubseq(a, b[1..])
  }

  /** The conjunction of two row predicates, as one mask. */
  function Both<T>(p: T -> bool, q: T -> bool): T -> bool
  {
    x => p(x) && q(x)
  }

  /** The negation of a row predicate. */
  function Not<T>(p: T -> bool): T -> bool
  {
    x => !p(x)
  }

  /** Boolean-mask selection `frame[mask]`: the elements satisfying `p`, in order. */
  function Where<T(==)>(s: seq<T>, p: T -> bool): (r: seq<T>)
    ensures |r| <= |s|
    ensures IsSubseq(r, s)
    ensures forall x :: x in r ==> x in s && p(x)
    ensures forall x :: x in s && p(x) ==> x in r
  {
    if s == [] then []
    else if p(s[0]) then [s[0]] + Where(s[1..], p)
    else Where(s[1..], p)
  }

  /** Applying two masks one after the other is applying their conjunction. */
  lemma {:induction false} WhereWhere<T>(s: seq<T>, p: T -> bool, q: T -> bool)
    ensures Where(Where(s, p), q) == Where(s, Both(p, q))
  {
    if s != [] {
      WhereWhere(s[1..], p, q);
    }
  }

  /** Two masks that agree on every element select the same rows. */
  lemma {:induction false} WhereExt<T>(s: seq<T>, p: T -> bool, q: T -> bool)
    requires forall x :: x in s ==> p(x) == q(x)
    ensures Where(s, p) == Where(s, q)
  {
    if s != [] {
      WhereExt(s[1..], p, q);
    }
  }

  /** A mask that holds of every element keeps the sequence as it is. */
  lemma {:induction false} WhereAll<T>(s: seq<T>, p: T -> bool)
    requires forall x :: x in s ==> p(x)
    ensures Where(s, p) == s
  {
    if s != [] {
      WhereAll(s[1..], p);
    }
  }

  /** A mask and its negation split a sequence: every element lands on exactly one side. */
  lemma {:induction false} WherePartition<T>(s: seq<T>, p: T -> bool)
    ensures |Where(s, p)| + |Where(s, Not(p))| == |s|
    ensures multiset(Where(s, p)) + multiset(Where(s, Not(p))) == multiset(s)
  {
    if s != [] {
      WherePartition(s[1..], p);
      assert s == [s[0]] + s[1..];
    }
  }

  /** No two elements of `s` share a key. */
  predicate DistinctBy<T, K(==)>(s: seq<T>, key: T -> K)
  {
    forall i, j :: 0 <= i < j < |s| ==> key(s[i]) != key(s[j])
  }

  /** Selection keeps distinctness, since it only leaves elements out. */
  lemma {:induction false} WhereDistinct<T, K>(s: seq<T>, p: T -> bool, key: T -> K)
    requires DistinctBy(s, key)
    ensures DistinctBy(Where(s, p), key)
  {
    if s != [] {
      WhereDistinct(s[1..], p, key);
      var r := Where(s, p);
      if p(s[0]) {
        forall i, j | 0 <= i < j < |r| ensures key(r[i]) != key(r[j]) {
          if i == 0 {
            assert r[j] in s[1..];
            var k :| 0 <= k < |s[1..]| && s[1..][k] == r[j];
            assert s[k + 1] == r[j];
          }
        }
      }
    }
  }

  /** The blocks one after the other. */
  function Flatten<T>(blocks: seq<seq<T>>): seq<T>
  {
    if blocks == [] then [] else blocks[0] + Flatten(blocks[1..])
  }

  /** Every block has length `n`. */
  predicate Uniform<T>(blocks: seq<seq<T>>, n: nat)
  {
    forall k :: 0 <= k < |blocks| ==> |blocks[k]| == n
  }

  /** Blocks of length `n` flatten to `n` elements per block. */
  lemma {:induction false} FlattenLength<T>(blocks: seq<seq<T>>, n: nat)
    requires Uniform(blocks, n)
    ensures |Flatten(blocks)| == |blocks| * n
  {
    if blocks != [] {
      FlattenLength(blocks[1..], n);
      assert |blocks| * n == n + (|blocks| - 1) * n;
    }
  }

  /** Element `i` of block `j` sits at position `j * n + i` of the flattened blocks. */
  lemma {:induction false} FlattenAt<T>(blocks: seq<seq<T>>, n: nat, i: nat, j: nat)
    requires Uniform(blocks, n)
    requires i < n && j < |blocks|
    ensures j * n + i < |Flatten(blocks)| && Flatten(blocks)[j * n + i] == blocks[j][i]
  {
    FlattenLength(blocks, n);
    var tail := Flatten(blocks[1..]);
    assert Flatten(blocks) == blocks[0] + tail;
    if j > 0 {
      FlattenAt(blocks[1..], n, i, j - 1);
      assert j * n + i == n + ((j - 1) * n + i);
    }
  }

  /** Every element of the flattened blocks comes from one of the blocks. */
  lemma {:induction false} FlattenMember<T>(blocks: seq<seq<T>>, x: T)
    requires x in Flatten(blocks)
    ensures exists k :: 0 <= k < |blocks| && x in blocks[k]
  {
    if x !in blocks[0] {
      FlattenMember(blocks[1..], x);
      var k :| 0 <= k < |blocks[1..]| && x in blocks[1..][k];
      assert x in blocks[k + 1];
    }
  }

  /** The sum of `f` over the elements of `s`. */
  function SumOf<T>(s: seq<T>, f: T -> real): real
  {
    if s == [] then 0.0 else f(s[0]) + SumOf(s[1..], f)
  }

  /** Selecting with a mask no element passes gives nothing. */
  lemma {:induction false} WhereNone<T>(s: seq<T>, p: T -> bool)
    requires forall x :: x in s ==> !p(x)
    ensures Where(s, p) == []
  {
    if s != [] {
      WhereNone(s[1..], p);
    }
  }

  /** A real as its own value, to sum a column of reals with `SumOf`. */
  function Itself(v: real): real
  {
    v
  }

  /** `s` is in non-increasing order of `rank`. */
  predicate SortedDesc<T>(s: seq<T>, rank: T -> real)
  {
    forall i, j :: 0 <= i < j < |s| ==> rank(s[i]) >= rank(s[j])
  }

  /** Inserts `x` before the first element of `s` ranked no higher than `x`. */
  function Insert<T(==)>(x: T, s: seq<T>, rank: T -> real): (r: seq<T>)
    ensures multiset(r) == multiset(s) + multiset{x}
    ensures r[0] == x || (s != [] && r[0] == s[0])
  {
    if s == [] || rank(x) >= rank(s[0]) then [x] + s
    else
      assert s == [s[0]] + s[1..];
      [s[0]] + Insert(x, s[1..], rank)
  }

  /** Inserting into a non-increasing sequence keeps it non-increasing. */
  lemma {:induction false} InsertSorted<T>(x: T, s: seq<T>, rank: T -> real)
    requires SortedDesc(s, rank)
    ensures SortedDesc(Insert(x, s, rank), rank)
  {
    if s != [] && rank(x) < rank(s[0]) {
      InsertSorted(x, s[1..], rank);
      var t := Insert(x, s[1..], rank);
      var r := Insert(x, s, rank);
      assert r == [s[0]] + t;
      forall j | 0 < j < |r| ensures rank(r[0]) >= rank(r[j]) {
        assert r[j] in multiset(t);
        if r[j] != x {
          assert r[j] in multiset(s[1..]);
          var k :| 0 <= k < |s[1..]| && s[1..][k] == r[j];
          assert s[k + 1] == r[j];
        }
      }
    }
  }

  /** `sort_values(ascending=False)`: a permutation of `s` in non-increasing order of `rank`. */
  function SortDesc<T(==)>(s: seq<T>, rank: T -> real): (r: seq<T>)
    ensures SortedDesc(r, rank)
    ensures multiset(r) == multiset(s)
  {
    if s == [] then []
    else
      assert s == [s[0]] + s[1..];
      var t := SortDesc(s[1..], rank);
      InsertSorted(s[0], t, rank);
      Insert(s[0], t, rank)
  }

  /** Sorting does not change the sum of any column. */
  lemma {:induction false} SortKeepsSum<T>(s: seq<T>, rank: T -> real, f: T -> real)
    ensures SumOf(SortDesc(s, rank), f) == SumOf(s, f)
  {
    if s != [] {
      SortKeepsSum(s[1..], rank, f);
      InsertSum(s[0], SortDesc(s[1..], rank), rank, f);
    }
  }

  lemma {:induction false} InsertSum<T>(x: T, s: seq<T>, rank: T -> real, f: T -> real)
    requires SortedDesc(s, rank)
    ensures SumOf(Insert(x, s, rank), f) == f(x) + SumOf(s, f)
  {
    if s != [] && rank(x) < rank(s[0]) {
      InsertSum(x, s[1..], rank, f);
    }
  }

  /** Sorting keeps distinct keys distinct. */
  lemma {:induction false} SortKeepsDistinct<T, K>(s: seq<T>, rank: T -> real, key: T -> K)
    requires DistinctBy(s, key)
    ensures DistinctBy(SortDesc(s, rank), key)
  {
    if s != [] {
      SortKeepsDistinct(s[1..], rank, key);
      var t := SortDesc(s[1..], rank);
      forall y | y in t ensures key(y) != key(s[0]) {
        assert y in multiset(t);
        var k :| 0 <= k < |s[1..]| && s[1..][k] == y;
        assert s[k + 1] == y;
      }
      InsertDistinct(s[0], t, rank, key);
    }
  }

  lemma {:induction false} InsertDistinct<T, K>(x: T, s: seq<T>, rank: T -> real, key: T -> K)
    requires SortedDesc(s, rank) && DistinctBy(s, key)
    requires forall y :: y in s ==> key(y) != key(x)
    ensures DistinctBy(Insert(x, s, rank), key)
  {
    var r := Insert(x, s, rank);
    if s != [] && rank(x) < rank(s[0]) {
      InsertDistinct(x, s[1..], rank, key);
      var t := Insert(x, s[1..], rank);
      assert r == [s[0]] + t;
      forall j | 0 < j < |r| ensures key(r[0]) != key(r[j]) {
        assert r[j] in multiset(t);
        assert r[j] == x || r[j] in multiset(s[1..]);
        if r[j] != x {
          var k :| 0 <= k < |s[1..]| && s[1..][k] == r[j];
          assert s[k + 1] == r[j];
        }
      }
    } else {
      assert r == [x] + s;
    }
  }
}
