/** The two array combinators the library's list code is built from,
    `Array.prototype.filter` and `Array.prototype.map`, as functions on
    sequences, with the facts about them that the rest of the model uses. */
module Seqs {

  /** `s.filter(p)`: the elements of `s` that satisfy `p`, in their original order. */
  function Filter<T>(p: T -> bool, s: seq<T>): (r: seq<T>)
    ensures |r| <= |s|
    ensures forall i :: 0 <= i < |r| ==> r[i] in s && p(r[i])
    ensures forall i :: 0 <= i < |s| && p(s[i]) ==> s[i] in r
    decreases |s|
  {
    if s == [] then [] else (if p(s[0]) then [s[0]] else []) + Filter(p, s[1..])
  }

  /** `s.map(f)`: one result per element, position by position. */
  function Map<T, U>(f: T -> U, s: seq<T>): (r: seq<U>)
    ensures |r| == |s|
    ensures forall i :: 0 <= i < |s| ==> r[i] == f(s[i])
    decreases |s|
  {
    if s == [] then [] else [f(s[0])] + Map(f, s[1..])
  }

  /** `idx` lists, in strictly increasing order, the positions of `s` that
      `r` is made of: `r` is an order-preserving subsequence of `s`. */
  ghost predicate Embedding<T>(r: seq<T>, s: seq<T>, idx: seq<int>)
  {
    && |idx| == |r|
    && (forall k :: 0 <= k < |idx| ==> 0 <= idx[k] < |s| && r[k] == s[idx[k]])
    && (forall k, l :: 0 <= k < l < |idx| ==> idx[k] < idx[l])
  }

  /** The filtered sequence is exactly the elements of `s` at the positions
      that satisfy `p`, in order: nothing added, repeated or reordered. */
  lemma {:induction false} FilterEmbeds<T>(p: T -> bool, s: seq<T>) returns (idx: seq<int>)
    ensures Embedding(Filter(p, s), s, idx)
    ensures forall j :: 0 <= j < |s| ==> (p(s[j]) <==> j in idx)
    decreases |s|
  {
    if s == [] {
      return [];
    }
    var rest := FilterEmbeds(p, s[1..]);
    var shifted := Shifted(rest);
    ShiftedEmbeds(Filter(p, s[1..]), s, rest);
    if p(s[0]) {
      idx := [0] + shifted;
      assert Filter(p, s) == [s[0]] + Filter(p, s[1..]);
    } else {
      idx := shifted;
      assert Filter(p, s) == Filter(p, s[1..]);
    }
    forall j | 0 <= j < |s|
      ensures p(s[j]) <==> j in idx
    {
      if j > 0 {
        assert s[j] == s[1..][j - 1];
        ShiftedMember(rest, j);
      } else {
        assert 0 !in shifted;
      }
    }
  }

  /** Every position moved one step to the right. */
  ghost function Shifted(idx: seq<int>): (r: seq<int>)
    ensures |r| == |idx|
    ensures forall k :: 0 <= k < |r| ==> r[k] == idx[k] + 1
  {
    seq(|idx|, k requires 0 <= k < |idx| => idx[k] + 1)
  }

  lemma {:induction false} ShiftedMember(idx: seq<int>, j: int)
    ensures j in Shifted(idx) <==> j - 1 in idx
  {
    var sh := Shifted(idx);
    if j - 1 in idx {
      var k :| 0 <= k < |idx| && idx[k] == j - 1;
      assert sh[k] == j;
    }
    if j in sh {
      var k :| 0 <= k < |sh| && sh[k] == j;
      assert idx[k] == j - 1;
    }
  }

  /** An embedding of `r` into the tail of `s` shifts to an embedding into `s`,
      and can be extended by the head of `s`. */
  lemma {:induction false} ShiftedEmbeds<T>(r: seq<T>, s: seq<T>, idx: seq<int>)
    requires s != []
    requires Embedding(r, s[1..], idx)
    ensures Embedding(r, s, Shifted(idx))
    ensures Embedding([s[0]] + r, s, [0] + Shifted(idx))
  {
    ShiftedInto(r, s, idx);
    ExtendedByHead(r, s, Shifted(idx));
  }

  lemma {:induction false} ShiftedInto<T>(r: seq<T>, s: seq<T>, idx: seq<int>)
    requires s != []
    requires Embedding(r, s[1..], idx)
    ensures Embedding(r, s, Shifted(idx))
    ensures forall k :: 0 <= k < |Shifted(idx)| ==> Shifted(idx)[k] >= 1
  {
    var sh := Shifted(idx);
    forall k | 0 <= k < |sh|
      ensures 0 <= sh[k] < |s| && r[k] == s[sh[k]]
    {
      assert s[1..][idx[k]] == s[idx[k] + 1];
    }
  }

  lemma {:induction false} ExtendedByHead<T>(r: seq<T>, s: seq<T>, sh: seq<int>)
    requires s != []
    requires Embedding(r, s, sh)
    requires forall k :: 0 <= k < |sh| ==> sh[k] >= 1
    ensures Embedding([s[0]] + r, s, [0] + sh)
  {
    var ext := [0] + sh;
    forall k | 0 <= k < |ext|
      ensures 0 <= ext[k] < |s| && ([s[0]] + r)[k] == s[ext[k]]
    {
      if k > 0 {
        assert ext[k] == sh[k - 1];
      }
    }
    forall k, l | 0 <= k < l < |ext|
      ensures ext[k] < ext[l]
    {
      assert ext[l] == sh[l - 1];
      if k > 0 {
        assert ext[k] == sh[k - 1];
      }
    }
  }

  /** Filtering keeps every copy of an element that passes and drops every
      copy of one that fails. */
  lemma {:induction false} FilterCount<T>(p: T -> bool, s: seq<T>, x: T)
    ensures multiset(Filter(p, s))[x] == if p(x) then multiset(s)[x] else 0
    decreases |s|
  {
    if s != [] {
      assert s == [s[0]] + s[1..];
      FilterCount(p, s[1..], x);
    }
  }

  lemma {:induction false} FilterAppend<T>(p: T -> bool, a: seq<T>, b: seq<T>)
    ensures Filter(p, a + b) == Filter(p, a) + Filter(p, b)
    decreases |a|
  {
    if a == [] {
      assert a + b == b;
    } else {
      assert (a + b)[0] == a[0] && (a + b)[1..] == a[1..] + b;
      FilterAppend(p, a[1..], b);
    }
  }

  /** A filter that every element passes changes nothing. */
  lemma {:induction false} FilterAllPass<T>(p: T -> bool, s: seq<T>)
    requires forall x :: x in s ==> p(x)
    ensures Filter(p, s) == s
    decreases |s|
  {
    if s != [] {
      FilterAllPass(p, s[1..]);
    }
  }

  /** A filter that no element passes leaves nothing. */
  lemma {:induction false} FilterNonePass<T>(p: T -> bool, s: seq<T>)
    requires forall x :: x in s ==> !p(x)
    ensures Filter(p, s) == []
    decreases |s|
  {
    if s != [] {
      FilterNonePass(p, s[1..]);
    }
  }

  /** Filters that agree on the elements of `s` give the same result. */
  lemma {:induction false} FilterCongruent<T>(p: T -> bool, q: T -> bool, s: seq<T>)
    requires forall x :: x in s ==> p(x) == q(x)
    ensures Filter(p, s) == Filter(q, s)
    decreases |s|
  {
    if s != [] {
      FilterCongruent(p, q, s[1..]);
    }
  }

  /** Two filters in a row are one filter by the conjunction. */
  lemma {:induction false} FilterFuse<T>(p: T -> bool, q: T -> bool, s: seq<T>)
    ensures Filter(p, Filter(q, s)) == Filter(x => q(x) && p(x), s)
    decreases |s|
  {
    if s != [] {
      FilterFuse(p, q, s[1..]);
      var head := if q(s[0]) then [s[0]] else [];
      FilterAppend(p, head, Filter(q, s[1..]));
    }
  }

  /** Three filters in a row are one filter by any predicate that agrees
      with their conjunction on the elements of `s`. */
  lemma {:induction false} FilterThree<T>(p: T -> bool, q: T -> bool, r: T -> bool, all: T -> bool, s: seq<T>)
    requires forall x :: x in s ==> (p(x) && q(x) && r(x)) == all(x)
    ensures Filter(r, Filter(q, Filter(p, s))) == Filter(all, s)
    decreases |s|
  {
    if s != [] {
      FilterThree(p, q, r, all, s[1..]);
      var hp := if p(s[0]) then [s[0]] else [];
      FilterAppend(q, hp, Filter(p, s[1..]));
      var hq := Filter(q, hp);
      FilterAppend(r, hq, Filter(q, Filter(p, s[1..])));
    }
  }

  /** The order in which two filters are applied does not matter. */
  lemma {:induction false} FilterCommute<T>(p: T -> bool, q: T -> bool, s: seq<T>)
    ensures Filter(p, Filter(q, s)) == Filter(q, Filter(p, s))
  {
    FilterFuse(p, q, s);
    FilterFuse(q, p, s);
    FilterCongruent(x => q(x) && p(x), x => p(x) && q(x), s);
  }

  /** Filtering twice by the same predicate is filtering once. */
  lemma {:induction false} FilterIdempotent<T>(p: T -> bool, s: seq<T>)
    ensures Filter(p, Filter(p, s)) == Filter(p, s)
  {
    FilterAllPass(p, Filter(p, s));
  }
}
