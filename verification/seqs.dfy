/** Sequence helpers shared by the cache and list transforms: `Array.prototype.filter`,
    `Array.prototype.flat` and `Array.prototype.slice(0, n)`. */
module Seqs {

  /** The elements of `s` that satisfy `keep`, in their original order. */
  function Filter<T>(s: seq<T>, keep: T -> bool): (r: seq<T>)
    ensures |r| <= |s|
    ensures forall i :: 0 <= i < |r| ==> keep(r[i])
    ensures forall x :: x in r ==> x in s
    ensures forall x :: x in s && keep(x) ==> x in r
  {
    if |s| == 0 then [] else (if keep(s[0]) then [s[0]] else []) + Filter(s[1..], keep)
  }

  /** Filtering distributes over concatenation, so relative order is kept. */
  lemma {:induction false} FilterAppend<T>(a: seq<T>, b: seq<T>, keep: T -> bool)
    ensures Filter(a + b, keep) == Filter(a, keep) + Filter(b, keep)
    decreases |a|
  {
    if |a| == 0 {
      assert a + b == b;
    } else {
      assert (a + b)[0] == a[0];
      assert (a + b)[1..] == a[1..] + b;
      FilterAppend(a[1..], b, keep);
    }
  }

  /** Each element survives filtering exactly as often as it occurs, when kept. */
  lemma {:induction false} FilterMultiset<T>(s: seq<T>, keep: T -> bool)
    ensures forall x :: multiset(Filter(s, keep))[x] == if keep(x) then multiset(s)[x] else 0
    decreases |s|
  {
    if |s| > 0 {
      FilterMultiset(s[1..], keep);
      assert s == [s[0]] + s[1..];
      assert multiset(s) == multiset([s[0]]) + multiset(s[1..]);
    }
  }

  /** Nothing is removed when every element is kept. */
  lemma {:induction false} FilterKeepsAll<T>(s: seq<T>, keep: T -> bool)
    requires forall i :: 0 <= i < |s| ==> keep(s[i])
    ensures Filter(s, keep) == s
    decreases |s|
  {
    if |s| > 0 {
      FilterKeepsAll(s[1..], keep);
      assert s == [s[0]] + s[1..];
    }
  }

  /** A single rejected element filters to nothing. */
  lemma FilterRejectsOne<T>(x: T, keep: T -> bool)
    requires !keep(x)
    ensures Filter([x], keep) == []
  {
    assert [x][1..] == [];
  }

  /** Filtering out a single rejected element between kept ones closes the gap. */
  lemma FilterDropsOne<T>(front: seq<T>, x: T, back: seq<T>, keep: T -> bool)
    requires forall i :: 0 <= i < |front| ==> keep(front[i])
    requires forall i :: 0 <= i < |back| ==> keep(back[i])
    requires !keep(x)
    ensures Filter(front + [x] + back, keep) == front + back
  {
    var tail := [x] + back;
    assert front + [x] + back == front + tail;
    FilterAppend(front, tail, keep);
    FilterAppend([x], back, keep);
    FilterRejectsOne(x, keep);
    FilterKeepsAll(front, keep);
    FilterKeepsAll(back, keep);
    assert Filter(tail, keep) == back;
  }

  /** The first `n` elements, or all of them when there are fewer (`slice(0, n)`). */
  function Take<T>(s: seq<T>, n: nat): (r: seq<T>)
    ensures |r| == if |s| < n then |s| else n
    ensures forall i :: 0 <= i < |r| ==> r[i] == s[i]
  {
    if |s| <= n then s else s[..n]
  }

  /** In-order concatenation of pages (`Array.prototype.flat` on an array of arrays). */
  function Flatten<T>(pages: seq<seq<T>>): seq<T>
  {
    if |pages| == 0 then [] else pages[0] + Flatten(pages[1..])
  }

  /** Flattening distributes over concatenation of page lists. */
  lemma {:induction false} FlattenAppend<T>(a: seq<seq<T>>, b: seq<seq<T>>)
    ensures Flatten(a + b) == Flatten(a) + Flatten(b)
    decreases |a|
  {
    if |a| == 0 {
      assert a + b == b;
    } else {
      assert (a + b)[0] == a[0];
      assert (a + b)[1..] == a[1..] + b;
      FlattenAppend(a[1..], b);
    }
  }
}
