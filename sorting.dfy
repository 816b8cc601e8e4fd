/** A stable sort by an integer key, largest key first: the order
    `Array.prototype.sort` produces with the comparator
    `(a, b) => key(b) - key(a)`. */
module Sorting {
  import opened Seqs

  /** Sorted by that comparator: keys never increase. */
  ghost predicate Descending<T>(key: T -> int, s: seq<T>)
  {
    forall i, j :: 0 <= i < j < |s| ==> key(s[i]) >= key(s[j])
  }

  /** Puts `x` in front of the first element whose key is not larger. */
  function Insert<T>(key: T -> int, x: T, s: seq<T>): (r: seq<T>)
    ensures |r| == |s| + 1
    ensures multiset(r) == multiset(s) + multiset{x}
    decreases |s|
  {
    if s == [] || key(x) >= key(s[0]) then [x] + s
    else
      assert s == [s[0]] + s[1..];
      [s[0]] + Insert(key, x, s[1..])
  }

  /** ECMAScript requires `Array.prototype.sort` to be stable, and a stable
      sort by a consistent comparator has exactly one possible result
      (`StableSortUnique`): the one this insertion sort computes. */
  function SortDescending<T>(key: T -> int, s: seq<T>): (r: seq<T>)
    ensures |r| == |s|
    ensures multiset(r) == multiset(s)
    ensures Descending(key, r)
    decreases |s|
  {
    if s == [] then []
    else
      assert s == [s[0]] + s[1..];
      InsertKeepsOrder(key, s[0], SortDescending(key, s[1..]));
      Insert(key, s[0], SortDescending(key, s[1..]))
  }

  /** The elements whose key is `t`. */
  function KeyIs<T>(key: T -> int, t: int): T -> bool
  {
    x => key(x) == t
  }

  lemma {:induction false} TailDescending<T>(key: T -> int, s: seq<T>)
    requires s != [] && Descending(key, s)
    ensures Descending(key, s[1..])
  {
    var tail := s[1..];
    forall i, j | 0 <= i < j < |tail|
      ensures key(tail[i]) >= key(tail[j])
    {
      assert tail[i] == s[i + 1] && tail[j] == s[j + 1];
    }
  }

  lemma {:induction false} KeyFilterUnfold<T>(key: T -> int, s: seq<T>, t: int)
    requires s != []
    ensures Filter(KeyIs(key, t), s) == (if key(s[0]) == t then [s[0]] else []) + Filter(KeyIs(key, t), s[1..])
  {
  }

  /** Inserting into a sorted sequence keeps it sorted. */
  lemma {:induction false} InsertKeepsOrder<T>(key: T -> int, x: T, s: seq<T>)
    requires Descending(key, s)
    ensures Descending(key, Insert(key, x, s))
    decreases |s|
  {
    if s != [] && key(x) < key(s[0]) {
      var tail := s[1..];
      TailDescending(key, s);
      InsertKeepsOrder(key, x, tail);
      var rest := Insert(key, x, tail);
      forall k | 0 <= k < |rest|
        ensures key(s[0]) >= key(rest[k])
      {
        assert rest[k] in multiset(rest);
        if rest[k] != x {
          assert rest[k] in tail;
        }
      }
      var r := [s[0]] + rest;
      assert r == Insert(key, x, s);
      forall i, j | 0 <= i < j < |r|
        ensures key(r[i]) >= key(r[j])
      {
        assert r[j] == rest[j - 1];
        if i > 0 {
          assert r[i] == rest[i - 1];
        }
      }
    }
  }

  /** Inserting `x` adds it in front of every element with the same key. */
  lemma {:induction false} InsertStable<T>(key: T -> int, x: T, s: seq<T>, t: int)
    ensures Filter(KeyIs(key, t), Insert(key, x, s))
            == (if key(x) == t then [x] else []) + Filter(KeyIs(key, t), s)
    decreases |s|
  {
    var p := KeyIs(key, t);
    var hx := if key(x) == t then [x] else [];
    if s == [] || key(x) >= key(s[0]) {
      FilterAppend(p, [x], s);
      KeyFilterSingle(key, x, t);
    } else {
      var h0 := if key(s[0]) == t then [s[0]] else [];
      var rest := Insert(key, x, s[1..]);
      assert Insert(key, x, s) == [s[0]] + rest;
      FilterAppend(p, [s[0]], rest);
      KeyFilterSingle(key, s[0], t);
      InsertStable(key, x, s[1..], t);
      KeyFilterUnfold(key, s, t);
      SwapHeads(h0, hx, Filter(p, s[1..]));
    }
  }

  lemma {:induction false} KeyFilterSingle<T>(key: T -> int, x: T, t: int)
    ensures Filter(KeyIs(key, t), [x]) == if key(x) == t then [x] else []
  {
    KeyFilterUnfold(key, [x], t);
    assert [x][1..] == [];
  }

  /** Two prefixes of which one is empty can be swapped. */
  lemma SwapHeads<T>(a: seq<T>, b: seq<T>, c: seq<T>)
    requires a == [] || b == []
    ensures a + (b + c) == b + (a + c)
  {
    if a == [] {
      assert a + (b + c) == b + c;
      assert a + c == c;
    } else {
      assert b + c == c;
      assert b + (a + c) == a + c;
    }
  }

  /** Stability: elements with equal keys keep their relative order. */
  lemma {:induction false} SortStable<T>(key: T -> int, s: seq<T>, t: int)
    ensures Filter(KeyIs(key, t), SortDescending(key, s)) == Filter(KeyIs(key, t), s)
    decreases |s|
  {
    if s != [] {
      SortStable(key, s[1..], t);
      InsertStable(key, s[0], SortDescending(key, s[1..]), t);
      KeyFilterUnfold(key, s, t);
    }
  }

  /** Being sorted and having the same elements in the same order for each
      key determine a sequence: every stable sort agrees with
      `SortDescending`. */
  lemma {:induction false} StableSortUnique<T>(key: T -> int, a: seq<T>, b: seq<T>)
    requires Descending(key, a) && Descending(key, b)
    requires forall t :: Filter(KeyIs(key, t), a) == Filter(KeyIs(key, t), b)
    ensures a == b
    decreases |a|
  {
    if a == [] || b == [] {
      EmptyAgrees(key, a, b);
    } else {
      HeadsAgree(key, a, b);
      TailsAgreeEverywhere(key, a, b);
      TailDescending(key, a);
      TailDescending(key, b);
      StableSortUnique(key, a[1..], b[1..]);
      SameHeadSameTail(a, b);
    }
  }

  lemma {:induction false} EmptyAgrees<T>(key: T -> int, a: seq<T>, b: seq<T>)
    requires a == [] || b == []
    requires forall t :: Filter(KeyIs(key, t), a) == Filter(KeyIs(key, t), b)
    ensures a == b
  {
    if a != [] {
      KeyFilterNonEmpty(key, a);
    }
    if b != [] {
      KeyFilterNonEmpty(key, b);
    }
  }

  lemma SameHeadSameTail<T>(a: seq<T>, b: seq<T>)
    requires a != [] && b != [] && a[0] == b[0] && a[1..] == b[1..]
    ensures a == b
  {
    assert a == [a[0]] + a[1..] && b == [b[0]] + b[1..];
  }

  lemma {:induction false} HeadsAgree<T>(key: T -> int, a: seq<T>, b: seq<T>)
    requires a != [] && b != [] && Descending(key, a) && Descending(key, b)
    requires forall t :: Filter(KeyIs(key, t), a) == Filter(KeyIs(key, t), b)
    ensures a[0] == b[0]
  {
    assert Filter(KeyIs(key, key(a[0])), a) == Filter(KeyIs(key, key(a[0])), b);
    assert Filter(KeyIs(key, key(b[0])), b) == Filter(KeyIs(key, key(b[0])), a);
    LeaderAtLeast(key, a, b);
    LeaderAtLeast(key, b, a);
    var t := key(a[0]);
    KeyFilterUnfold(key, a, t);
    KeyFilterUnfold(key, b, t);
    assert Filter(KeyIs(key, t), a)[0] == a[0];
    assert Filter(KeyIs(key, t), b)[0] == b[0];
  }

  lemma {:induction false} TailsAgreeEverywhere<T>(key: T -> int, a: seq<T>, b: seq<T>)
    requires a != [] && b != [] && a[0] == b[0]
    requires forall t :: Filter(KeyIs(key, t), a) == Filter(KeyIs(key, t), b)
    ensures forall t :: Filter(KeyIs(key, t), a[1..]) == Filter(KeyIs(key, t), b[1..])
  {
    forall t
      ensures Filter(KeyIs(key, t), a[1..]) == Filter(KeyIs(key, t), b[1..])
    {
      TailsAgree(key, a, b, t);
    }
  }

  lemma {:induction false} TailsAgree<T>(key: T -> int, a: seq<T>, b: seq<T>, t: int)
    requires a != [] && b != [] && a[0] == b[0]
    requires Filter(KeyIs(key, t), a) == Filter(KeyIs(key, t), b)
    ensures Filter(KeyIs(key, t), a[1..]) == Filter(KeyIs(key, t), b[1..])
  {
    KeyFilterUnfold(key, a, t);
    KeyFilterUnfold(key, b, t);
    var fa, fb := Filter(KeyIs(key, t), a[1..]), Filter(KeyIs(key, t), b[1..]);
    if key(a[0]) == t {
      assert [a[0]] + fa == [b[0]] + fb;
      assert fa == ([a[0]] + fa)[1..];
      assert fb == ([b[0]] + fb)[1..];
    } else {
      assert [] + fa == fa && [] + fb == fb;
    }
  }

  lemma {:induction false} KeyFilterNonEmpty<T>(key: T -> int, s: seq<T>)
    requires s != []
    ensures Filter(KeyIs(key, key(s[0])), s) != []
  {
    KeyFilterUnfold(key, s, key(s[0]));
  }

  /** If `a` and `b` agree on the elements keyed like `a`'s head and `b` is
      sorted, `b`'s head has at least that key. */
  lemma {:induction false} LeaderAtLeast<T>(key: T -> int, a: seq<T>, b: seq<T>)
    requires a != [] && b != [] && Descending(key, b)
    requires Filter(KeyIs(key, key(a[0])), a) == Filter(KeyIs(key, key(a[0])), b)
    ensures key(a[0]) <= key(b[0])
  {
    var p := KeyIs(key, key(a[0]));
    assert a[0] in Filter(p, a);
    var fb := Filter(p, b);
    var k :| 0 <= k < |fb| && fb[k] == a[0];
    assert fb[k] in b;
    var j :| 0 <= j < |b| && b[j] == a[0];
    if j > 0 {
      assert key(b[0]) >= key(b[j]);
    }
  }

  /** Where an inserted element lands in a sorted sequence: after exactly
      the elements with a larger key. */
  lemma {:induction false} InsertPosition<T>(key: T -> int, x: T, s: seq<T>) returns (k: int)
    ensures 0 <= k < |Insert(key, x, s)| && Insert(key, x, s)[k] == x
    ensures forall j :: 0 <= j < k ==> key(Insert(key, x, s)[j]) > key(x)
    ensures Descending(key, s) ==> forall j :: k < j < |Insert(key, x, s)| ==> key(Insert(key, x, s)[j]) <= key(x)
    decreases |s|
  {
    if s == [] || key(x) >= key(s[0]) {
      k := 0;
    } else {
      var k' := InsertPosition(key, x, s[1..]);
      k := k' + 1;
    }
  }
}
