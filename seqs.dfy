/**
 * Sequence operations the screens use on JavaScript arrays: `filter`,
 * `[...new Set(xs)]`, `splice(start, 1)` on a copy, and assignment at an
 * index on a copy.
 */
module Seqs {

  /** `s.filter(p)`. */
  function Filter<T>(s: seq<T>, p: T -> bool): (r: seq<T>)
    ensures |r| <= |s|
    ensures forall x :: x in r ==> x in s && p(x)
    decreases |s|
  {
    if s == [] then [] else (if p(s[0]) then [s[0]] else []) + Filter(s[1..], p)
  }

  /** Each value is kept as often as it occurs if it passes the test, and
      dropped entirely otherwise. */
  lemma {:induction false} FilterCount<T>(s: seq<T>, p: T -> bool, x: T)
    ensures multiset(Filter(s, p))[x] == if p(x) then multiset(s)[x] else 0
    decreases |s|
  {
    if s != [] {
      assert s == [s[0]] + s[1..];
      FilterCount(s[1..], p, x);
    }
  }

  /** A value that passes the test and occurs in `s` is kept. */
  lemma FilterKeeps<T>(s: seq<T>, p: T -> bool, x: T)
    requires x in s && p(x)
    ensures x in Filter(s, p)
  {
    FilterCount(s, p, x);
  }

  /** `r` is `s` with some elements left out and the rest in their order
      (checked greedily from the left). */
  ghost predicate SubsequenceOf<T>(r: seq<T>, s: seq<T>)
    decreases |s|
  {
    r == [] || (s != [] && if r[0] == s[0] then SubsequenceOf(r[1..], s[1..]) else SubsequenceOf(r, s[1..]))
  }

  /** The kept elements stay in their original order. */
  lemma {:induction false} FilterIsSubsequence<T>(s: seq<T>, p: T -> bool)
    ensures SubsequenceOf(Filter(s, p), s)
    decreases |s|
  {
    if s != [] {
      var r := Filter(s, p);
      FilterIsSubsequence(s[1..], p);
      if p(s[0]) {
        assert r[0] == s[0] && r[1..] == Filter(s[1..], p);
      } else {
        assert r == Filter(s[1..], p);
        assert r != [] ==> r[0] in r && r[0] != s[0];
      }
    }
  }

  /** Concatenation regroups freely. */
  lemma Assoc<T>(a: seq<T>, b: seq<T>, c: seq<T>)
    ensures (a + b) + c == a + (b + c)
  {
  }

  /** Filtering a concatenation filters each part. */
  lemma {:induction false} FilterAppend<T>(a: seq<T>, b: seq<T>, p: T -> bool)
    ensures Filter(a + b, p) == Filter(a, p) + Filter(b, p)
    decreases |a|
  {
    if a != [] {
      assert (a + b)[0] == a[0];
      assert (a + b)[1..] == a[1..] + b;
      var h := if p(a[0]) then [a[0]] else [];
      FilterAppend(a[1..], b, p);
      var fa, fb := Filter(a[1..], p), Filter(b, p);
      assert Filter(a + b, p) == h + (fa + fb);
      assert Filter(a, p) == h + fa;
      assert h + (fa + fb) == (h + fa) + fb;
    } else {
      assert a + b == b;
    }
  }

  /** A test every element passes keeps the whole sequence. */
  lemma {:induction false} FilterAll<T>(s: seq<T>, p: T -> bool)
    requires forall k :: 0 <= k < |s| ==> p(s[k])
    ensures Filter(s, p) == s
    decreases |s|
  {
    if s != [] {
      FilterAll(s[1..], p);
    }
  }

  /** No value occurs twice. */
  predicate NoDup<T(==)>(s: seq<T>) {
    forall i, j :: 0 <= i < j < |s| ==> s[i] != s[j]
  }

  /** Appending a value that is absent keeps a duplicate-free sequence free of
      duplicates. */
  lemma NoDupAppend<T>(s: seq<T>, x: T)
    requires NoDup(s) && x !in s
    ensures NoDup(s + [x])
  {
    forall i, j | 0 <= i < j < |s| + 1
      ensures (s + [x])[i] != (s + [x])[j]
    {
      if j == |s| {
        assert s[i] in s;
      }
    }
  }

  /** A filter of a duplicate-free sequence is duplicate-free. */
  lemma {:induction false} FilterNoDup<T>(s: seq<T>, p: T -> bool)
    requires NoDup(s)
    ensures NoDup(Filter(s, p))
    decreases |s|
  {
    if s != [] {
      var tail := s[1..];
      assert NoDup(tail) by {
        forall i, j | 0 <= i < j < |tail| ensures tail[i] != tail[j] {
          assert tail[i] == s[i + 1] && tail[j] == s[j + 1];
        }
      }
      assert s[0] !in tail by {
        forall k | 0 <= k < |tail| ensures tail[k] != s[0] {
          assert tail[k] == s[k + 1];
        }
      }
      FilterNoDup(tail, p);
      var rest := Filter(tail, p);
      if p(s[0]) {
        var r := [s[0]] + rest;
        forall i, j | 0 <= i < j < |r| ensures r[i] != r[j] {
          if i == 0 {
            assert r[j] == rest[j - 1] && rest[j - 1] in rest;
          } else {
            assert r[i] == rest[i - 1] && r[j] == rest[j - 1];
          }
        }
      }
    }
  }

  lemma NoDupCount<T>(s: seq<T>, x: T)
    requires NoDup(s)
    ensures multiset(s)[x] <= 1
  {
    if s != [] {
      assert s == [s[0]] + s[1..];
      assert NoDup(s[1..]);
      NoDupCount(s[1..], x);
      if s[0] == x {
        assert x !in s[1..];
      }
    }
  }

  /** The test "different from `x`", as in `filter(t => t !== x)`. */
  function Other<T(==)>(x: T): T -> bool {
    t => t != x
  }

  /** The test "not among `prefix`". */
  function Absent<T(==)>(prefix: seq<T>): T -> bool {
    x => x !in prefix
  }

  /** Insertion into a JavaScript `Set` that already holds `seen`, one value
      at a time: a value joins the end unless it is already there. */
  function DedupAfter<T(==)>(seen: seq<T>, s: seq<T>): (r: seq<T>)
    decreases |s|
  {
    if s == [] then seen
    else DedupAfter(if s[0] in seen then seen else seen + [s[0]], s[1..])
  }

  /** `[...new Set(s)]`: the first occurrence of each value, in order. */
  function Dedup<T(==)>(s: seq<T>): seq<T> {
    DedupAfter([], s)
  }

  /** The accumulated prefix is kept, nothing is duplicated, and exactly the
      values of both inputs appear. */
  lemma {:induction false} DedupAfterSpec<T>(seen: seq<T>, s: seq<T>)
    requires NoDup(seen)
    ensures seen <= DedupAfter(seen, s)
    ensures NoDup(DedupAfter(seen, s))
    ensures forall x :: x in DedupAfter(seen, s) <==> x in seen || x in s
    decreases |s|
  {
    if s != [] {
      var next := if s[0] in seen then seen else seen + [s[0]];
      if s[0] !in seen {
        NoDupAppend(seen, s[0]);
      }
      DedupAfterSpec(next, s[1..]);
      assert forall x :: x in s <==> x == s[0] || x in s[1..];
    }
  }

  /** Inserting `a` and then `b` is inserting `a + b`. */
  lemma {:induction false} DedupAfterAppend<T>(seen: seq<T>, a: seq<T>, b: seq<T>)
    ensures DedupAfter(seen, a + b) == DedupAfter(DedupAfter(seen, a), b)
    decreases |a|
  {
    if a != [] {
      var next := if a[0] in seen then seen else seen + [a[0]];
      assert (a + b)[0] == a[0];
      assert (a + b)[1..] == a[1..] + b;
      assert DedupAfter(seen, a + b) == DedupAfter(next, a[1..] + b);
      assert DedupAfter(seen, a) == DedupAfter(next, a[1..]);
      DedupAfterAppend(next, a[1..], b);
    } else {
      assert a + b == b;
    }
  }

  /** Inserting values that are all new appends them unchanged. */
  lemma {:induction false} DedupAfterFresh<T>(seen: seq<T>, s: seq<T>)
    requires NoDup(seen + s)
    ensures DedupAfter(seen, s) == seen + s
    decreases |s|
  {
    if s != [] {
      forall i | 0 <= i < |seen| ensures seen[i] != s[0] {
        assert (seen + s)[i] == seen[i] && (seen + s)[|seen|] == s[0];
      }
      assert seen + s == (seen + [s[0]]) + s[1..];
      DedupAfterFresh(seen + [s[0]], s[1..]);
    }
  }

  /** What the insertions add after `prefix + seen` is what they add after
      `seen` once the values already in `prefix` are filtered out. */
  lemma {:induction false} DedupAfterSplit<T>(prefix: seq<T>, seen: seq<T>, s: seq<T>)
    ensures DedupAfter(prefix + seen, s) == prefix + DedupAfter(seen, Filter(s, Absent(prefix)))
    decreases |s|
  {
    var p := Absent(prefix);
    if s != [] {
      var f := Filter(s, p);
      DedupAfterSplit(prefix, seen, s[1..]);
      if s[0] in prefix {
        assert s[0] in prefix + seen;
        assert f == Filter(s[1..], p);
      } else if s[0] in seen {
        assert s[0] in prefix + seen;
        assert f == [s[0]] + Filter(s[1..], p);
        assert DedupAfter(seen, f) == DedupAfter(seen, Filter(s[1..], p));
      } else {
        assert s[0] !in prefix + seen;
        assert prefix + seen + [s[0]] == prefix + (seen + [s[0]]);
        DedupAfterSplit(prefix, seen + [s[0]], s[1..]);
        assert f == [s[0]] + Filter(s[1..], p);
        assert DedupAfter(seen, f) == DedupAfter(seen + [s[0]], Filter(s[1..], p));
      }
    }
  }

  /** Deduplicating a duplicate-free `prefix` followed by `s` keeps `prefix`
      and adds the first occurrence of each value of `s` not in it; the result
      has no duplicates and holds exactly the values of both. */
  lemma DedupPrefix<T>(prefix: seq<T>, s: seq<T>)
    requires NoDup(prefix)
    ensures Dedup(prefix + s) == prefix + Dedup(Filter(s, Absent(prefix)))
    ensures NoDup(Dedup(prefix + s))
    ensures forall x :: x in Dedup(prefix + s) <==> x in prefix || x in s
  {
    DedupAfterAppend([], prefix, s);
    assert [] + prefix == prefix;
    DedupAfterFresh([], prefix);
    assert prefix + [] == prefix;
    DedupAfterSplit(prefix, [], s);
    DedupAfterSpec([], prefix + s);
  }

  /** The index at which `splice(index, 1)` starts on an array of length
      `len`: a negative index counts from the end, and both ends clamp. */
  function SpliceStart(len: nat, index: int): (k: nat)
    ensures k <= len
  {
    if index < 0 then (if len + index < 0 then 0 else len + index)
    else if index > len then len
    else index
  }

  /** The array left by `copy.splice(index, 1)`. */
  function Spliced<T>(s: seq<T>, index: int): seq<T> {
    var k := SpliceStart(|s|, index);
    if k < |s| then s[..k] + s[k + 1..] else s
  }

  /** Splicing at a valid index removes exactly that element and keeps the
      others in order; an index past the end removes nothing. */
  lemma SplicedAt<T>(s: seq<T>, i: nat)
    ensures i < |s| ==>
              && |Spliced(s, i)| == |s| - 1
              && (forall j :: 0 <= j < i ==> Spliced(s, i)[j] == s[j])
              && (forall j :: i <= j < |s| - 1 ==> Spliced(s, i)[j] == s[j + 1])
              && multiset(Spliced(s, i)) + multiset{s[i]} == multiset(s)
    ensures i >= |s| ==> Spliced(s, i) == s
  {
    if i < |s| {
      assert s == s[..i] + [s[i]] + s[i + 1..];
    }
  }

  /** `const a = [...s]; a.splice(index, 1)`: copy the array, shift the tail
      left over the removed slot, and drop the last slot. */
  method SpliceOne<T>(s: seq<T>, index: int) returns (r: seq<T>)
    ensures r == Spliced(s, index)
  {
    var k := SpliceStart(|s|, index);
    var a := new T[|s|](i requires 0 <= i < |s| => s[i]);
    if k < a.Length {
      var j := k;
      while j < a.Length - 1
        invariant k <= j <= a.Length - 1
        invariant forall m :: 0 <= m < k ==> a[m] == s[m]
        invariant forall m :: k <= m < j ==> a[m] == s[m + 1]
        invariant forall m :: j <= m < a.Length ==> a[m] == s[m]
      {
        a[j] := a[j + 1];
        j := j + 1;
      }
      r := a[..a.Length - 1];
      assert r == s[..k] + s[k + 1..];
    } else {
      r := a[..];
      assert r == s;
    }
  }

  /** `const a = [...s]; a[index] = value`: the copy differs from `s` at
      `index` only. */
  method AssignAt<T>(s: seq<T>, index: nat, value: T) returns (r: seq<T>)
    requires index < |s|
    ensures |r| == |s| && r[index] == value
    ensures forall j :: 0 <= j < |s| && j != index ==> r[j] == s[j]
  {
    var a := new T[|s|](i requires 0 <= i < |s| => s[i]);
    a[index] := value;
    r := a[..];
  }
}
