/** Sequence helpers shared by the Python and the JavaScript parts of the model:
    counting, first-occurrence deduplication (a JavaScript `Set`, the key order of
    a dictionary), filtering (`Array.prototype.filter`) and subsequences. */
module Seqs {

  predicate Distinct<T(==,!new)>(s: seq<T>) {
    forall i, j :: 0 <= i < j < |s| ==> s[i] != s[j]
  }

  /** Number of occurrences of `x` in `s`. */
  function Count<T(==,!new)>(s: seq<T>, x: T): (n: nat)
    ensures n <= |s|
    ensures n == 0 <==> x !in s
  {
    if s == [] then 0
    else
      assert s == s[..|s| - 1] + [s[|s| - 1]];
      Count(s[..|s| - 1], x) + (if s[|s| - 1] == x then 1 else 0)
  }

  lemma CountSnoc<T(!new)>(s: seq<T>, x: T, y: T)
    ensures Count(s + [x], y) == Count(s, y) + (if x == y then 1 else 0)
  {
    assert (s + [x])[..|s|] == s;
  }

  /** An element occurs once in a sequence without duplicates. */
  lemma {:induction false} CountDistinct<T(!new)>(s: seq<T>, x: T)
    requires Distinct(s) && x in s
    ensures Count(s, x) == 1
  {
    var p := s[..|s| - 1];
    assert s == p + [s[|s| - 1]];
    if s[|s| - 1] == x {
      assert x !in p;
    } else {
      CountDistinct(p, x);
    }
  }

  /** Sum over the keys `ks` of the number of occurrences of each key in `s`. */
  function TotalCount<T(==,!new)>(ks: seq<T>, s: seq<T>): nat
  {
    if ks == [] then 0 else TotalCount(ks[..|ks| - 1], s) + Count(s, ks[|ks| - 1])
  }

  lemma {:induction false} TotalCountSnoc<T(!new)>(ks: seq<T>, s: seq<T>, x: T)
    ensures TotalCount(ks, s + [x]) == TotalCount(ks, s) + Count(ks, x)
  {
    if ks != [] {
      var p, k := ks[..|ks| - 1], ks[|ks| - 1];
      TotalCountSnoc(p, s, x);
      CountSnoc(s, x, k);
      assert ks == p + [k];
      CountSnoc(p, k, x);
    }
  }

  /** Counting every element of `s` under a list of distinct keys that covers `s`
      accounts for every element exactly once. */
  lemma {:induction false} TotalCountCovers<T(!new)>(ks: seq<T>, s: seq<T>)
    requires Distinct(ks)
    requires forall x :: x in s ==> x in ks
    ensures TotalCount(ks, s) == |s|
  {
    if s == [] {
      TotalCountEmpty(ks);
    } else {
      var p, x := s[..|s| - 1], s[|s| - 1];
      assert s == p + [x];
      TotalCountCovers(ks, p);
      TotalCountSnoc(ks, p, x);
      CountDistinct(ks, x);
    }
  }

  /** Counting under distinct keys counts each element at most once, and counts them
      all only when every element is a key. */
  lemma {:induction false} TotalCountAtMost<T(!new)>(ks: seq<T>, s: seq<T>)
    requires Distinct(ks)
    ensures TotalCount(ks, s) <= |s|
    ensures TotalCount(ks, s) == |s| ==> forall x :: x in s ==> x in ks
  {
    if s == [] {
      TotalCountEmpty(ks);
    } else {
      var p, x := s[..|s| - 1], s[|s| - 1];
      assert s == p + [x];
      TotalCountAtMost(ks, p);
      TotalCountSnoc(ks, p, x);
      if x in ks {
        CountDistinct(ks, x);
      }
    }
  }

  lemma {:induction false} TotalCountEmpty<T(!new)>(ks: seq<T>)
    ensures TotalCount(ks, []) == 0
  {
    if ks != [] {
      TotalCountEmpty(ks[..|ks| - 1]);
    }
  }

  /** Number of elements of `s` that satisfy `p`. */
  function CountIf<T>(s: seq<T>, p: T -> bool): nat {
    if s == [] then 0 else CountIf(s[..|s| - 1], p) + (if p(s[|s| - 1]) then 1 else 0)
  }

  /** Sum over the keys `ks` that satisfy `p` of the number of occurrences of each
      key in `s`. */
  function CountUnder<T(==,!new)>(ks: seq<T>, s: seq<T>, p: T -> bool): nat {
    if ks == [] then 0
    else CountUnder(ks[..|ks| - 1], s, p) + (if p(ks[|ks| - 1]) then Count(s, ks[|ks| - 1]) else 0)
  }

  lemma {:induction false} CountUnderSnoc<T(!new)>(ks: seq<T>, s: seq<T>, x: T, p: T -> bool)
    ensures CountUnder(ks, s + [x], p) == CountUnder(ks, s, p) + (if p(x) then Count(ks, x) else 0)
  {
    if ks != [] {
      var q, k := ks[..|ks| - 1], ks[|ks| - 1];
      CountUnderSnoc(q, s, x, p);
      CountSnoc(s, x, k);
      assert ks == q + [k];
      CountSnoc(q, k, x);
    }
  }

  lemma {:induction false} CountUnderEmpty<T(!new)>(ks: seq<T>, p: T -> bool)
    ensures CountUnder(ks, [], p) == 0
  {
    if ks != [] {
      CountUnderEmpty(ks[..|ks| - 1], p);
    }
  }

  /** Counting the elements of `s` under a list of distinct keys that covers `s`,
      keeping only the keys that satisfy `p`, counts the elements that satisfy `p`. */
  lemma {:induction false} CountUnderCovers<T(!new)>(ks: seq<T>, s: seq<T>, p: T -> bool)
    requires Distinct(ks)
    requires forall x :: x in s ==> x in ks
    ensures CountUnder(ks, s, p) == CountIf(s, p)
  {
    if s == [] {
      CountUnderEmpty(ks, p);
    } else {
      var q, x := s[..|s| - 1], s[|s| - 1];
      assert s == q + [x];
      CountUnderCovers(ks, q, p);
      CountUnderSnoc(ks, q, x, p);
      CountDistinct(ks, x);
    }
  }

  /** `acc` followed by the elements of `s` that are not yet present, in the order
      of their first occurrence. */
  function AppendNew<T(==,!new)>(acc: seq<T>, s: seq<T>): (r: seq<T>)
    ensures acc <= r
    ensures forall x :: x in r <==> x in acc || x in s
    ensures Distinct(acc) ==> Distinct(r)
    ensures |r| <= |acc| + |s|
  {
    if s == [] then acc
    else
      var a := AppendNew(acc, s[..|s| - 1]);
      assert s == s[..|s| - 1] + [s[|s| - 1]];
      if s[|s| - 1] in a then a else a + [s[|s| - 1]]
  }

  /** The distinct elements of `s` in first-occurrence order. */
  function Dedup<T(==,!new)>(s: seq<T>): (r: seq<T>)
    ensures Distinct(r)
    ensures forall x :: x in r <==> x in s
    ensures |r| <= |s|
  {
    AppendNew([], s)
  }

  /** Deduplicating one more element adds it at the end when it is new. */
  lemma DedupSnoc<T(!new)>(s: seq<T>, x: T)
    ensures Dedup(s + [x]) == if x in Dedup(s) then Dedup(s) else Dedup(s) + [x]
  {
    assert (s + [x])[..|s|] == s;
  }

  /** The position of the first occurrence of `x` in `s`. */
  function FirstIndex<T(==,!new)>(s: seq<T>, x: T): (i: nat)
    requires x in s
    ensures i < |s| && s[i] == x && x !in s[..i]
  {
    if s[0] == x then 0
    else
      var j := FirstIndex(s[1..], x);
      assert s[..j + 1] == [s[0]] + s[1..][..j];
      j + 1
  }

  lemma {:induction false} FirstIndexSnoc<T(!new)>(s: seq<T>, x: T, y: T)
    requires y in s
    ensures FirstIndex(s + [x], y) == FirstIndex(s, y)
  {
    if s[0] != y {
      assert (s + [x])[1..] == s[1..] + [x];
      FirstIndexSnoc(s[1..], x, y);
    }
  }

  lemma FirstIndexLast<T(!new)>(s: seq<T>, x: T)
    requires x !in s
    ensures FirstIndex(s + [x], x) == |s|
  {
  }

  /** `Dedup` lists elements in the order in which they first occur in the input. */
  lemma {:induction false} DedupFirstOccurrenceOrder<T(!new)>(s: seq<T>)
    ensures forall i, j :: 0 <= i < j < |Dedup(s)| ==>
      FirstIndex(s, Dedup(s)[i]) < FirstIndex(s, Dedup(s)[j])
  {
    if s != [] {
      var p, x := s[..|s| - 1], s[|s| - 1];
      assert s == p + [x];
      DedupFirstOccurrenceOrder(p);
      var d := Dedup(p);
      assert Dedup(s) == if x in d then d else d + [x];
      forall i, j | 0 <= i < j < |Dedup(s)|
        ensures FirstIndex(s, Dedup(s)[i]) < FirstIndex(s, Dedup(s)[j])
      {
        assert Dedup(s)[i] == d[i];
        FirstIndexSnoc(p, x, d[i]);
        if j < |d| {
          FirstIndexSnoc(p, x, d[j]);
        } else {
          FirstIndexLast(p, x);
        }
      }
    }
  }

  /** The elements of `s` that satisfy `p`, in order (`s.filter(p)`). */
  function Keep<T(!new)>(s: seq<T>, p: T -> bool): (r: seq<T>)
    ensures |r| <= |s|
    ensures forall x :: x in r <==> x in s && p(x)
  {
    if s == [] then []
    else
      assert s == [s[0]] + s[1..];
      (if p(s[0]) then [s[0]] else []) + Keep(s[1..], p)
  }

  lemma {:induction false} CountAppend<T(!new)>(a: seq<T>, b: seq<T>, x: T)
    ensures Count(a + b, x) == Count(a, x) + Count(b, x)
    decreases |b|
  {
    if b != [] {
      var c, y := b[..|b| - 1], b[|b| - 1];
      assert b == c + [y];
      assert a + b == (a + c) + [y];
      CountAppend(a, c, x);
      CountSnoc(a + c, y, x);
      CountSnoc(c, y, x);
    } else {
      assert a + b == a;
    }
  }

  /** Filtering keeps every occurrence of what it keeps, duplicates included. */
  lemma {:induction false} KeepCount<T(!new)>(s: seq<T>, p: T -> bool)
    ensures forall x :: Count(Keep(s, p), x) == if p(x) then Count(s, x) else 0
  {
    if s != [] {
      KeepCount(s[1..], p);
      var h := if p(s[0]) then [s[0]] else [];
      assert Keep(s, p) == h + Keep(s[1..], p);
      assert s == [s[0]] + s[1..];
      forall x ensures Count(Keep(s, p), x) == if p(x) then Count(s, x) else 0 {
        CountAppend(h, Keep(s[1..], p), x);
        CountAppend([s[0]], s[1..], x);
        CountSnoc([], s[0], x);
        assert [] + [s[0]] == [s[0]];
      }
    }
  }

  /** Filtering a sequence without duplicates leaves none. */
  lemma {:induction false} KeepDistinct<T(!new)>(s: seq<T>, p: T -> bool)
    requires Distinct(s)
    ensures Distinct(Keep(s, p))
  {
    if s != [] {
      assert s == [s[0]] + s[1..];
      KeepDistinct(s[1..], p);
      assert s[0] !in s[1..];
    }
  }

  /** `a` is obtained from `b` by deleting elements (order preserved). */
  predicate IsSubseq<T(==,!new)>(a: seq<T>, b: seq<T>)
    decreases |b|
  {
    if a == [] then true
    else if b == [] then false
    else if a[0] == b[0] then IsSubseq(a[1..], b[1..])
    else IsSubseq(a, b[1..])
  }

  lemma {:induction false} SubseqSelf<T(!new)>(s: seq<T>)
    ensures IsSubseq(s, s)
  {
    if s != [] {
      SubseqSelf(s[1..]);
    }
  }

  /** A subsequence of `b` is a subsequence of `b` with one more element in front. */
  lemma {:induction false} SubseqCons<T(!new)>(a: seq<T>, b: seq<T>, x: T)
    requires IsSubseq(a, b)
    ensures IsSubseq(a, [x] + b)
    decreases |b|, 1
  {
    assert ([x] + b)[1..] == b;
    if a != [] && a[0] == x {
      SubseqTail(a, b);
    }
  }

  lemma {:induction false} SubseqTail<T(!new)>(a: seq<T>, b: seq<T>)
    requires a != [] && IsSubseq(a, b)
    ensures IsSubseq(a[1..], b)
    decreases |b|, 0
  {
    assert [b[0]] + b[1..] == b;
    if a[0] != b[0] {
      SubseqTail(a, b[1..]);
    }
    SubseqCons(a[1..], b[1..], b[0]);
  }

  /** Filtering keeps the order of what it keeps. */
  lemma {:induction false} KeepIsSubseq<T(!new)>(s: seq<T>, p: T -> bool)
    ensures IsSubseq(Keep(s, p), s)
  {
    if s != [] {
      KeepIsSubseq(s[1..], p);
      if p(s[0]) {
        assert Keep(s, p) == [s[0]] + Keep(s[1..], p);
        assert Keep(s, p)[1..] == Keep(s[1..], p);
      } else {
        assert Keep(s, p) == Keep(s[1..], p);
        SubseqCons(Keep(s[1..], p), s[1..], s[0]);
        assert [s[0]] + s[1..] == s;
      }
    }
  }

  /** Two filters in a row are one filter by the conjunction `pq` of their predicates. */
  lemma {:induction false} KeepKeep<T(!new)>(s: seq<T>, p: T -> bool, q: T -> bool, pq: T -> bool)
    requires forall x :: pq(x) == (p(x) && q(x))
    ensures Keep(Keep(s, p), q) == Keep(s, pq)
  {
    if s != [] {
      KeepKeep(s[1..], p, q, pq);
      var k := Keep(s, p);
      if p(s[0]) {
        assert k == [s[0]] + Keep(s[1..], p);
        assert k[0] == s[0] && k[1..] == Keep(s[1..], p);
      } else {
        assert k == Keep(s[1..], p);
      }
    }
  }

  /** A filter whose predicate holds everywhere keeps everything. */
  lemma {:induction false} KeepAll<T(!new)>(s: seq<T>, p: T -> bool)
    requires forall i :: 0 <= i < |s| ==> p(s[i])
    ensures Keep(s, p) == s
  {
    if s != [] {
      KeepAll(s[1..], p);
    }
  }

  /** A filter whose predicate holds nowhere keeps nothing. */
  lemma {:induction false} KeepNone<T(!new)>(s: seq<T>, p: T -> bool)
    requires forall i :: 0 <= i < |s| ==> !p(s[i])
    ensures Keep(s, p) == []
  {
    if s != [] {
      assert !p(s[0]);
      KeepNone(s[1..], p);
    }
  }

  function Sum(xs: seq<nat>): nat
  {
    if xs == [] then 0 else Sum(xs[..|xs| - 1]) + xs[|xs| - 1]
  }
}
