/** Sequence operations the portal uses through JavaScript's array methods:
    `filter`, `find` and a stable `sort` with a descending numeric comparator. */
module Seqs {
  import opened Wrappers

  /** `r` can be obtained from `s` by deleting elements (order is kept). */
  ghost predicate IsSubseq<T>(r: seq<T>, s: seq<T>)
    decreases |s|
  {
    |r| == 0 ||
    (|s| > 0 && ((r[0] == s[0] && IsSubseq(r[1..], s[1..])) || IsSubseq(r, s[1..])))
  }

  /** `Array.prototype.filter`: the elements of `s` that satisfy `p`, in their
      original order, each as often as it occurs in `s`. */
  function Filter<T(!new)>(s: seq<T>, p: T -> bool): (r: seq<T>)
    ensures |r| <= |s|
    ensures forall x :: x in r <==> x in s && p(x)
    ensures forall x :: multiset(r)[x] == if p(x) then multiset(s)[x] else 0
    decreases |s|
  {
    if |s| == 0 then []
    else
      assert s == [s[0]] + s[1..];
      var rest := Filter(s[1..], p);
      if p(s[0]) then
        assert ([s[0]] + rest)[1..] == rest;
        [s[0]] + rest
      else
        rest
  }

  /** One step of `Filter`: the head is kept iff it satisfies `p`. */
  lemma FilterCons<T(!new)>(s: seq<T>, p: T -> bool)
    requires |s| > 0
    ensures Filter(s, p) == (if p(s[0]) then [s[0]] else []) + Filter(s[1..], p)
  {
  }

  /** `Filter` deletes elements and never reorders the ones it keeps. */
  lemma {:induction false} FilterKeepsOrder<T(!new)>(s: seq<T>, p: T -> bool)
    ensures IsSubseq(Filter(s, p), s)
    decreases |s|
  {
    if |s| > 0 {
      FilterKeepsOrder(s[1..], p);
      FilterCons(s, p);
      var rest := Filter(s[1..], p);
      if p(s[0]) {
        assert ([s[0]] + rest)[1..] == rest;
      }
    }
  }

  /** Two filters in a row keep what their conjunction keeps, in the same order. */
  lemma {:induction false} FilterFilter<T(!new)>(s: seq<T>, p: T -> bool, q: T -> bool, r: T -> bool)
    requires forall x :: r(x) == (p(x) && q(x))
    ensures Filter(Filter(s, p), q) == Filter(s, r)
    decreases |s|
  {
    if |s| > 0 {
      FilterFilter(s[1..], p, q, r);
      FilterCons(s, p);
      FilterCons(s, r);
      var rest := Filter(s[1..], p);
      if p(s[0]) {
        FilterCons([s[0]] + rest, q);
        assert ([s[0]] + rest)[1..] == rest;
      } else {
        assert Filter(s, p) == rest;
      }
    }
  }

  /** `array.map(x => p(x) ? f(x) : x)`: rewrites the elements that satisfy
      `p` and keeps every other element, position by position. */
  function MapWhere<T>(s: seq<T>, p: T -> bool, f: T -> T): (r: seq<T>)
    ensures |r| == |s|
    ensures forall i :: 0 <= i < |s| && p(s[i]) ==> r[i] == f(s[i])
    ensures forall i :: 0 <= i < |s| && !p(s[i]) ==> r[i] == s[i]
    decreases |s|
  {
    if |s| == 0 then []
    else
      var rest := MapWhere(s[1..], p, f);
      var r := [if p(s[0]) then f(s[0]) else s[0]] + rest;
      assert forall i :: 1 <= i < |s| ==> r[i] == rest[i - 1] && s[i] == s[1..][i - 1];
      r
  }

  /** One step of filtering and then mapping. */
  lemma MapFilterCons<T(!new), U>(s: seq<T>, p: T -> bool, f: T -> U)
    requires |s| > 0
    ensures MapSeq(Filter(s, p), f) == (if p(s[0]) then [f(s[0])] else []) + MapSeq(Filter(s[1..], p), f)
  {
    var head: seq<T> := if p(s[0]) then [s[0]] else [];
    var tail := Filter(s[1..], p);
    FilterCons(s, p);
    MapSeqConcat(head, tail, f);
    var headRows := MapSeq(head, f);
    if p(s[0]) {
      assert |headRows| == 1 && headRows[0] == f(s[0]);
      assert headRows == [f(s[0])];
    } else {
      assert headRows == [];
    }
  }

  /** A position at which an element occurs. */
  lemma PositionOf<T>(x: T, s: seq<T>) returns (i: nat)
    requires x in s
    ensures i < |s| && s[i] == x
  {
    i :| 0 <= i < |s| && s[i] == x;
  }

  /** `array.map(f)`. */
  function MapSeq<T, U>(s: seq<T>, f: T -> U): (r: seq<U>)
    ensures |r| == |s|
    ensures forall i :: 0 <= i < |s| ==> r[i] == f(s[i])
  {
    seq(|s|, i requires 0 <= i < |s| => f(s[i]))
  }

  lemma MapSeqConcat<T, U>(a: seq<T>, b: seq<T>, f: T -> U)
    ensures MapSeq(a + b, f) == MapSeq(a, f) + MapSeq(b, f)
  {
    var l := MapSeq(a + b, f);
    var r := MapSeq(a, f) + MapSeq(b, f);
    forall i | 0 <= i < |l| ensures l[i] == r[i] {
      if i < |a| { assert (a + b)[i] == a[i]; } else { assert (a + b)[i] == b[i - |a|]; }
    }
  }

  /** `i` is the position of the first element of `s` that satisfies `p`. */
  ghost predicate IsFirstMatch<T>(s: seq<T>, p: T -> bool, i: int)
  {
    0 <= i < |s| && p(s[i]) && forall j :: 0 <= j < i ==> !p(s[j])
  }

  /** `Array.prototype.find`, returning the position of the element found. */
  function FirstIndex<T>(s: seq<T>, p: T -> bool): (r: Option<nat>)
    ensures r.Some? ==> IsFirstMatch(s, p, r.value)
    ensures r.None? <==> forall i :: 0 <= i < |s| ==> !p(s[i])
    decreases |s|
  {
    if |s| == 0 then None
    else if p(s[0]) then Some(0)
    else
      match FirstIndex(s[1..], p)
      case None => None
      case Some(k) =>
        assert forall j :: 1 <= j < k + 1 ==> s[j] == s[1..][j - 1];
        Some(k + 1)
  }

  /** Every element is at least as large as every later one, under `key`. */
  ghost predicate SortedDesc<T>(s: seq<T>, key: T -> int)
  {
    forall i, j :: 0 <= i < j < |s| ==> key(s[i]) >= key(s[j])
  }

  /** The elements of `s` whose key is `k`, in their order in `s`. Comparing
      these runs before and after sorting states stability. */
  function KeyRun<T>(s: seq<T>, key: T -> int, k: int): seq<T>
    decreases |s|
  {
    if |s| == 0 then []
    else (if key(s[0]) == k then [s[0]] else []) + KeyRun(s[1..], key, k)
  }

  /** Inserts `x` in front of the first element whose key is not larger. */
  function InsertDesc<T>(x: T, s: seq<T>, key: T -> int): (r: seq<T>)
    ensures |r| == |s| + 1
    ensures multiset(r) == multiset(s) + multiset{x}
    ensures r[0] == x || (|s| > 0 && r[0] == s[0])
    decreases |s|
  {
    if |s| == 0 || key(x) >= key(s[0]) then [x] + s
    else
      assert s == [s[0]] + s[1..];
      [s[0]] + InsertDesc(x, s[1..], key)
  }

  /** Inserting into a sorted sequence keeps it sorted. */
  lemma {:induction false} InsertDescSorted<T>(x: T, s: seq<T>, key: T -> int)
    requires SortedDesc(s, key)
    ensures SortedDesc(InsertDesc(x, s, key), key)
    decreases |s|
  {
    if |s| > 0 && key(x) < key(s[0]) {
      var tail := s[1..];
      InsertDescSorted(x, tail, key);
      var rest := InsertDesc(x, tail, key);
      var r := [s[0]] + rest;
      assert InsertDesc(x, s, key) == r;
      forall i, j | 0 <= i < j < |r| ensures key(r[i]) >= key(r[j]) {
        if i == 0 {
          assert r[j] == rest[j - 1];
          if j > 1 { assert key(rest[0]) >= key(rest[j - 1]); }
        } else {
          assert r[i] == rest[i - 1] && r[j] == rest[j - 1];
        }
      }
    }
  }

  /** A stable sort into descending key order: the model of
      `array.sort((a, b) => key(b) - key(a))`. */
  function SortDesc<T>(s: seq<T>, key: T -> int): (r: seq<T>)
    ensures |r| == |s|
    ensures multiset(r) == multiset(s)
    ensures SortedDesc(r, key)
    decreases |s|
  {
    if |s| == 0 then []
    else
      assert s == [s[0]] + s[1..];
      var sortedTail := SortDesc(s[1..], key);
      InsertDescSorted(s[0], sortedTail, key);
      InsertDesc(s[0], sortedTail, key)
  }

  lemma {:induction false} KeyRunConcat<T>(a: seq<T>, b: seq<T>, key: T -> int, k: int)
    ensures KeyRun(a + b, key, k) == KeyRun(a, key, k) + KeyRun(b, key, k)
    decreases |a|
  {
    if |a| == 0 {
      assert a + b == b;
    } else {
      var ab := a + b;
      assert ab[0] == a[0];
      assert ab[1..] == a[1..] + b;
      var head := if key(a[0]) == k then [a[0]] else [];
      assert KeyRun(ab, key, k) == head + KeyRun(a[1..] + b, key, k);
      assert KeyRun(a, key, k) == head + KeyRun(a[1..], key, k);
      KeyRunConcat(a[1..], b, key, k);
      SeqConcatAssoc(head, KeyRun(a[1..], key, k), KeyRun(b, key, k));
    }
  }

  lemma SeqConcatAssoc<T>(x: seq<T>, y: seq<T>, z: seq<T>)
    ensures x + (y + z) == (x + y) + z
  {
  }

  /** `x` goes in front when its key is not smaller than the first one. */
  lemma InsertDescFront<T>(x: T, s: seq<T>, key: T -> int)
    requires |s| == 0 || key(x) >= key(s[0])
    ensures InsertDesc(x, s, key) == [x] + s
  {
  }

  /** Otherwise the first element stays in front and `x` goes into the rest. */
  lemma InsertDescBehind<T>(x: T, s: seq<T>, key: T -> int)
    requires |s| > 0 && key(x) < key(s[0])
    ensures InsertDesc(x, s, key) == [s[0]] + InsertDesc(x, s[1..], key)
  {
  }

  /** The run of a one-element sequence. */
  lemma KeyRunSingle<T>(x: T, key: T -> int, k: int)
    ensures KeyRun([x], key, k) == if key(x) == k then [x] else []
  {
    assert [x][1..] == [];
  }

  /** The step of the stability proof behind the first element: `x` has a
      smaller key than `s0`, so at most one of the two runs gains an element. */
  lemma RunBehindHead<T>(x: T, s0: T, tail: seq<T>, rest: seq<T>, key: T -> int, k: int)
    requires key(x) < key(s0)
    requires KeyRun(rest, key, k) == (if key(x) == k then [x] else []) + KeyRun(tail, key, k)
    ensures KeyRun([s0] + rest, key, k) == (if key(x) == k then [x] else []) + KeyRun([s0] + tail, key, k)
  {
    KeyRunSingle(s0, key, k);
    KeyRunConcat([s0], rest, key, k);
    KeyRunConcat([s0], tail, key, k);
    var runTail := KeyRun(tail, key, k);
    if key(s0) == k {
      assert KeyRun(rest, key, k) == runTail;
    } else {
      assert KeyRun([s0] + rest, key, k) == KeyRun(rest, key, k);
      assert KeyRun([s0] + tail, key, k) == runTail;
    }
  }

  /** Inserting `x` places it before every element that has its key. */
  lemma {:induction false} InsertDescStable<T>(x: T, s: seq<T>, key: T -> int, k: int)
    ensures KeyRun(InsertDesc(x, s, key), key, k)
         == (if key(x) == k then [x] else []) + KeyRun(s, key, k)
    decreases |s|
  {
    if |s| == 0 || key(x) >= key(s[0]) {
      InsertDescFront(x, s, key);
      KeyRunSingle(x, key, k);
      KeyRunConcat([x], s, key, k);
    } else {
      InsertDescBehind(x, s, key);
      assert s == [s[0]] + s[1..];
      InsertDescStable(x, s[1..], key, k);
      RunBehindHead(x, s[0], s[1..], InsertDesc(x, s[1..], key), key, k);
    }
  }

  /** Stability: elements with equal keys keep their relative order. */
  lemma {:induction false} SortDescStable<T>(s: seq<T>, key: T -> int, k: int)
    ensures KeyRun(SortDesc(s, key), key, k) == KeyRun(s, key, k)
    decreases |s|
  {
    if |s| > 0 {
      SortDescStable(s[1..], key, k);
      InsertDescStable(s[0], SortDesc(s[1..], key), key, k);
    }
  }
}
