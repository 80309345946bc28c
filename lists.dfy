/** The array operations the components build their state from:
    `filter`, `map` that replaces matching elements, and `list[0] ?? null`. */
module Lists {
  import opened Options

  /** `xs.filter(p)`. */
  function Filter<T(==,!new)>(xs: seq<T>, p: T -> bool): (r: seq<T>)
    ensures |r| <= |xs|
    ensures forall x :: x in r <==> x in xs && p(x)
    ensures forall i :: 0 <= i < |r| ==> p(r[i])
    ensures forall x :: multiset(r)[x] == if p(x) then multiset(xs)[x] else 0
  {
    if xs == [] then []
    else
      assert xs == [xs[0]] + xs[1..];
      if p(xs[0]) then [xs[0]] + Filter(xs[1..], p)
      else Filter(xs[1..], p)
  }

  /** `r` is `xs` with some elements left out and the rest in their original order. */
  predicate IsSubsequence<T(==)>(r: seq<T>, xs: seq<T>)
    decreases |xs|
  {
    if r == [] then true
    else if xs == [] then false
    else (r[0] == xs[0] && IsSubsequence(r[1..], xs[1..])) || IsSubsequence(r, xs[1..])
  }

  /** Filtering keeps the order of what it keeps. */
  lemma {:induction false} FilterIsSubsequence<T(!new)>(xs: seq<T>, p: T -> bool)
    ensures IsSubsequence(Filter(xs, p), xs)
    decreases |xs|
  {
    if xs != [] {
      FilterIsSubsequence(xs[1..], p);
      var r := Filter(xs, p);
      if p(xs[0]) {
        assert r[0] == xs[0] && r[1..] == Filter(xs[1..], p);
      }
    }
  }

  /** Filtering distributes over concatenation. */
  lemma {:induction false} FilterAppend<T(!new)>(xs: seq<T>, ys: seq<T>, p: T -> bool)
    ensures Filter(xs + ys, p) == Filter(xs, p) + Filter(ys, p)
    decreases |xs|
  {
    if xs == [] {
      assert xs + ys == ys;
    } else {
      var zs := xs + ys;
      assert zs[0] == xs[0] && zs[1..] == xs[1..] + ys;
      FilterAppend(xs[1..], ys, p);
    }
  }

  /** A filter that every element passes keeps the list as it is. */
  lemma {:induction false} FilterKeepsAll<T(!new)>(xs: seq<T>, p: T -> bool)
    requires forall i :: 0 <= i < |xs| ==> p(xs[i])
    ensures Filter(xs, p) == xs
    decreases |xs|
  {
    if xs != [] {
      FilterKeepsAll(xs[1..], p);
    }
  }

  /** Two filters whose tests are complementary split the list: their lengths add up. */
  lemma {:induction false} FilterSplitsLength<T(!new)>(xs: seq<T>, p: T -> bool, q: T -> bool)
    requires forall i :: 0 <= i < |xs| ==> (p(xs[i]) <==> !q(xs[i]))
    ensures |Filter(xs, p)| + |Filter(xs, q)| == |xs|
    decreases |xs|
  {
    if xs != [] {
      FilterSplitsLength(xs[1..], p, q);
    }
  }

  /** `xs.map(x => matches(x) ? y : x)`: every matching element replaced by `y`. */
  function ReplaceWhere<T>(xs: seq<T>, matches: T -> bool, y: T): (r: seq<T>)
    ensures |r| == |xs|
    ensures forall i :: 0 <= i < |xs| ==> r[i] == (if matches(xs[i]) then y else xs[i])
  {
    seq(|xs|, i requires 0 <= i < |xs| => if matches(xs[i]) then y else xs[i])
  }

  /** `xs.length > 0 ? xs[0] : null`. */
  function First<T>(xs: seq<T>): (r: Option<T>)
    ensures r.None? <==> xs == []
    ensures r.Some? ==> r.value == xs[0]
  {
    if xs == [] then None else Some(xs[0])
  }

  /** The position of the first element passing `p`, or `|xs|` when none does. */
  function IndexWhere<T>(xs: seq<T>, p: T -> bool): (k: nat)
    ensures k <= |xs|
    ensures k < |xs| ==> p(xs[k])
    ensures forall j :: 0 <= j < k ==> !p(xs[j])
  {
    if xs == [] then 0
    else if p(xs[0]) then 0
    else 1 + IndexWhere(xs[1..], p)
  }

  /** `xs.find(p)`: the first element passing `p`, if any. */
  function Find<T>(xs: seq<T>, p: T -> bool): (r: Option<T>)
    ensures r.None? <==> forall i :: 0 <= i < |xs| ==> !p(xs[i])
    ensures r.Some? ==> IndexWhere(xs, p) < |xs| && r.value == xs[IndexWhere(xs, p)]
  {
    var k := IndexWhere(xs, p);
    if k < |xs| then Some(xs[k]) else None
  }

  /** When nothing in `xs` passes, searching `xs + [y]` finds `y` exactly when it passes. */
  lemma FindAfterMisses<T>(xs: seq<T>, y: T, p: T -> bool)
    requires forall i :: 0 <= i < |xs| ==> !p(xs[i])
    ensures Find(xs + [y], p) == if p(y) then Some(y) else None
  {
    var ys := xs + [y];
    assert forall i :: 0 <= i < |xs| ==> ys[i] == xs[i];
    assert ys[|xs|] == y;
  }

  /** `xs.map(x => matches(x) ? f(x) : x)`. */
  function MapWhere<T>(xs: seq<T>, matches: T -> bool, f: T -> T): (r: seq<T>)
    ensures |r| == |xs|
    ensures forall i :: 0 <= i < |xs| ==> r[i] == (if matches(xs[i]) then f(xs[i]) else xs[i])
  {
    seq(|xs|, i requires 0 <= i < |xs| => if matches(xs[i]) then f(xs[i]) else xs[i])
  }

  /** `xs.some(x => key(x) === k)`. */
  predicate HasKey<T>(xs: seq<T>, key: T -> int, k: int) {
    exists i :: 0 <= i < |xs| && key(xs[i]) == k
  }

  /** `xs.filter(x => key(x) !== k)`: every entry with key `k` removed, the rest kept in order. */
  function WithoutKey<T(==,!new)>(xs: seq<T>, key: T -> int, k: int): (r: seq<T>)
    ensures forall x :: x in r <==> x in xs && key(x) != k
    ensures forall x :: multiset(r)[x] == if key(x) != k then multiset(xs)[x] else 0
    ensures IsSubsequence(r, xs)
    ensures !HasKey(r, key, k)
    ensures !HasKey(xs, key, k) ==> r == xs
  {
    FilterIsSubsequence(xs, OtherKey(key, k));
    if HasKey(xs, key, k) then Filter(xs, OtherKey(key, k))
    else
      FilterKeepsAll(xs, OtherKey(key, k));
      Filter(xs, OtherKey(key, k))
  }

  function OtherKey<T>(key: T -> int, k: int): T -> bool {
    x => key(x) != k
  }

  /** `xs.map(x => key(x) === key(y) ? y : x)`: `y` takes the place of every entry with its key. */
  function ReplaceKey<T(==)>(xs: seq<T>, key: T -> int, y: T): (r: seq<T>)
    ensures |r| == |xs|
    ensures forall i :: 0 <= i < |xs| ==> key(r[i]) == key(xs[i])
    ensures forall i :: 0 <= i < |xs| && key(xs[i]) != key(y) ==> r[i] == xs[i]
    ensures forall i :: 0 <= i < |xs| && key(xs[i]) == key(y) ==> r[i] == y
    ensures HasKey(xs, key, key(y)) <==> y in r
  {
    ReplaceWhere(xs, SameKey(key, key(y)), y)
  }

  function SameKey<T>(key: T -> int, k: int): T -> bool {
    x => key(x) == k
  }

  /** The state in which a task page's selection effect leaves the selection alone: there
      is a selection exactly when the visible list is not empty, and the selected entry's
      key is among the visible ones. */
  predicate Settled<T>(xs: seq<T>, key: T -> int, sel: Option<T>) {
    (sel.None? <==> xs == []) && (sel.Some? ==> HasKey(xs, key, key(sel.value)))
  }

  /** Falling back to the first visible entry always settles the selection. */
  lemma FirstSettles<T>(xs: seq<T>, key: T -> int)
    ensures Settled(xs, key, First(xs))
  {
    if xs != [] {
      assert key(xs[0]) == key(First(xs).value);
    }
  }

  /** `IndexWhere` is the only position before which nothing passes and at which (unless it
      is the end) the element passes. */
  lemma IndexWhereUnique<T>(xs: seq<T>, p: T -> bool, k: nat)
    requires k <= |xs| && (k < |xs| ==> p(xs[k]))
    requires forall j :: 0 <= j < k ==> !p(xs[j])
    ensures IndexWhere(xs, p) == k
  {
  }
}
