/** Sequence vocabulary shared by the distribution generators: the unit
    interval the uniform draws live in, Python's left-to-right `sum`,
    fixed-size chunking of a draw stream, and the `s[::2]` / `s[1::2]`
    slices paired up by `zip`. */
module Sequences {

  /** A uniform draw lies in the half-open unit interval [0, 1). */
  predicate InUnit(x: real) {
    0.0 <= x < 1.0
  }

  predicate AllInUnit(xs: seq<real>) {
    forall i :: 0 <= i < |xs| ==> InUnit(xs[i])
  }

  /** Python's `sum`: starts from 0 and adds the elements left to right. */
  function Sum(xs: seq<real>): real {
    if xs == [] then 0.0 else Sum(xs[..|xs| - 1]) + xs[|xs| - 1]
  }

  /** Extending a prefix by one element adds that element to the sum. */
  lemma SumSnoc(s: seq<real>, lo: nat, hi: nat)
    requires lo <= hi < |s|
    ensures Sum(s[lo..hi + 1]) == Sum(s[lo..hi]) + s[hi]
  {
    assert s[lo..hi + 1][..hi - lo] == s[lo..hi];
  }

  /** A sum of draws from [0, 1) lies in [0, count], and is below the count
      as soon as there is at least one draw. */
  lemma {:induction false} SumBounds(xs: seq<real>)
    requires AllInUnit(xs)
    ensures 0.0 <= Sum(xs) <= |xs| as real
    ensures xs != [] ==> Sum(xs) < |xs| as real
  {
    if xs != [] {
      SumBounds(xs[..|xs| - 1]);
    }
  }

  /** Reflecting every draw through 1/2 (x becomes 1 - x) turns the sum S of
      n draws into n - S. */
  lemma {:induction false} SumReflected(xs: seq<real>, ys: seq<real>)
    requires |xs| == |ys|
    requires forall i :: 0 <= i < |xs| ==> ys[i] == 1.0 - xs[i]
    ensures Sum(ys) == |xs| as real - Sum(xs)
  {
    if xs != [] {
      SumReflected(xs[..|xs| - 1], ys[..|ys| - 1]);
    }
  }

  /** One more chunk of k draws advances the cursor by k. */
  lemma MulSucc(i: nat, k: nat)
    ensures (i + 1) * k == i * k + k
  {
  }

  /** The `count` consecutive, non-overlapping chunks of length `k` that a
      cursor reading `k` draws at a time cuts from `s`. */
  function Chunks<T>(s: seq<T>, k: nat, count: nat): (cs: seq<seq<T>>)
    requires |s| == k * count
    ensures |cs| == count
    ensures forall i :: 0 <= i < count ==> |cs[i]| == k
    decreases count
  {
    if count == 0 then []
    else
      assert k * count == k * (count - 1) + k;
      [s[..k]] + Chunks(s[k..], k, count - 1)
  }

  /** Chunk i is exactly the draws at positions i*k up to (i+1)*k. */
  lemma {:induction false} ChunkAt<T>(s: seq<T>, k: nat, count: nat, i: nat)
    requires |s| == k * count && i < count
    ensures i * k + k <= |s|
    ensures Chunks(s, k, count)[i] == s[i * k..i * k + k]
  {
    assert k * count == k * (count - 1) + k;
    if i == 0 {
    } else {
      ChunkAt(s[k..], k, count - 1, i - 1);
      assert (i - 1) * k + k == i * k;
    }
  }

  function Flatten<T>(cs: seq<seq<T>>): seq<T> {
    if cs == [] then [] else cs[0] + Flatten(cs[1..])
  }

  /** The chunks are consumed in order and together use every draw. */
  lemma {:induction false} FlattenChunks<T>(s: seq<T>, k: nat, count: nat)
    requires |s| == k * count
    ensures Flatten(Chunks(s, k, count)) == s
  {
    if count > 0 {
      assert k * count == k * (count - 1) + k;
      var cs := Chunks(s, k, count);
      var rest := Chunks(s[k..], k, count - 1);
      assert cs == [s[..k]] + rest;
      assert cs[0] == s[..k] && cs[1..] == rest;
      FlattenChunks(s[k..], k, count - 1);
      calc {
        Flatten(cs);
        cs[0] + Flatten(cs[1..]);
        s[..k] + s[k..];
        s;
      }
    }
  }

  /** Python's `s[::2]`: the elements at even positions. */
  function Evens<T>(s: seq<T>): (e: seq<T>)
    ensures |e| == (|s| + 1) / 2
    ensures forall i :: 0 <= i < |e| ==> e[i] == s[2 * i]
  {
    if |s| <= 1 then s else [s[0]] + Evens(s[2..])
  }

  /** Python's `s[1::2]`: the elements at odd positions. */
  function Odds<T>(s: seq<T>): (o: seq<T>)
    ensures |o| == |s| / 2
    ensures forall i :: 0 <= i < |o| ==> o[i] == s[2 * i + 1]
  {
    if s == [] then [] else Evens(s[1..])
  }

  /** Python's `zip`: pairs up elements until the shorter side runs out. */
  function Zip<A, B>(u: seq<A>, v: seq<B>): (z: seq<(A, B)>)
    ensures |z| == if |u| <= |v| then |u| else |v|
    ensures forall i :: 0 <= i < |z| ==> z[i] == (u[i], v[i])
  {
    if u == [] || v == [] then [] else [(u[0], v[0])] + Zip(u[1..], v[1..])
  }
}
