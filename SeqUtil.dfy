/** Sums, maxima, concatenation and the block-indexing fact that every
    ragged (flattened) table in the model relies on. */
module SeqUtil {

  /** Sum of a sequence of counts, peeled from the end so that prefix sums
      extend one element at a time. */
  function Sum(xs: seq<nat>): nat
  {
    if xs == [] then 0 else Sum(xs[..|xs| - 1]) + xs[|xs| - 1]
  }

  lemma SumSnoc(xs: seq<nat>, x: nat)
    ensures Sum(xs + [x]) == Sum(xs) + x
  {
    assert (xs + [x])[..|xs|] == xs;
  }

  lemma {:induction false} SumConcat(xs: seq<nat>, ys: seq<nat>)
    ensures Sum(xs + ys) == Sum(xs) + Sum(ys)
    decreases |ys|
  {
    if ys == [] {
      assert xs + ys == xs;
    } else {
      var ys' := ys[..|ys| - 1];
      var y := ys[|ys| - 1];
      assert ys == ys' + [y];
      assert xs + ys == (xs + ys') + [y];
      SumSnoc(xs + ys', y);
      SumSnoc(ys', y);
      SumConcat(xs, ys');
    }
  }

  /** Prefix sums never decrease. */
  lemma {:induction false} PrefixSumMonotone(xs: seq<nat>, i: nat, j: nat)
    requires i <= j <= |xs|
    ensures Sum(xs[..i]) <= Sum(xs[..j])
    decreases j - i
  {
    if i < j {
      PrefixSumMonotone(xs, i, j - 1);
      assert xs[..j] == xs[..j - 1] + [xs[j - 1]];
      SumSnoc(xs[..j - 1], xs[j - 1]);
    }
  }

  lemma PrefixSumStep(xs: seq<nat>, k: nat)
    requires k < |xs|
    ensures Sum(xs[..k + 1]) == Sum(xs[..k]) + xs[k]
  {
    assert xs[..k + 1] == xs[..k] + [xs[k]];
    SumSnoc(xs[..k], xs[k]);
  }

  /** Largest element; 0 for the empty sequence (callers exclude it where
      the source would raise). */
  function Max(xs: seq<nat>): (m: nat)
    ensures forall i :: 0 <= i < |xs| ==> xs[i] <= m
    ensures xs != [] ==> exists i :: 0 <= i < |xs| && xs[i] == m
  {
    if xs == [] then 0
    else
      var m' := Max(xs[..|xs| - 1]);
      assert forall i :: 0 <= i < |xs| - 1 ==> xs[..|xs| - 1][i] == xs[i];
      if xs[|xs| - 1] > m' then xs[|xs| - 1] else m'
  }

  /** Concatenation of a sequence of sequences, peeled from the end. */
  function Flatten<T>(xss: seq<seq<T>>): seq<T>
  {
    if xss == [] then [] else Flatten(xss[..|xss| - 1]) + xss[|xss| - 1]
  }

  lemma FlattenSnoc<T>(xss: seq<seq<T>>, xs: seq<T>)
    ensures Flatten(xss + [xs]) == Flatten(xss) + xs
  {
    assert (xss + [xs])[..|xss|] == xss;
  }

  lemma {:induction false} FlattenConcat<T>(a: seq<seq<T>>, b: seq<seq<T>>)
    ensures Flatten(a + b) == Flatten(a) + Flatten(b)
    decreases |b|
  {
    if b == [] {
      assert a + b == a;
    } else {
      var b' := b[..|b| - 1];
      assert b == b' + [b[|b| - 1]];
      assert a + b == (a + b') + [b[|b| - 1]];
      FlattenSnoc(a + b', b[|b| - 1]);
      FlattenSnoc(b', b[|b| - 1]);
      FlattenConcat(a, b');
    }
  }

  /** The lengths of the pieces of a ragged table. */
  function Lengths<T>(xss: seq<seq<T>>): (ls: seq<nat>)
    ensures |ls| == |xss|
    ensures forall k :: 0 <= k < |xss| ==> ls[k] == |xss[k]|
  {
    seq(|xss|, k requires 0 <= k < |xss| => |xss[k]|)
  }

  lemma {:induction false} FlattenLength<T>(xss: seq<seq<T>>)
    ensures |Flatten(xss)| == Sum(Lengths(xss))
    decreases |xss|
  {
    if xss != [] {
      var n := |xss|;
      FlattenLength(xss[..n - 1]);
      assert Lengths(xss) == Lengths(xss[..n - 1]) + [|xss[n - 1]|];
      SumSnoc(Lengths(xss[..n - 1]), |xss[n - 1]|);
    }
  }

  /** A flattened table splits around any one of its pieces. */
  lemma FlattenSplit<T>(xss: seq<seq<T>>, k: nat)
    requires k < |xss|
    ensures Flatten(xss) == Flatten(xss[..k]) + xss[k] + Flatten(xss[k + 1..])
  {
    var pre, post := xss[..k], xss[k + 1..];
    assert xss == (pre + [xss[k]]) + post;
    FlattenConcat(pre + [xss[k]], post);
    FlattenSnoc(pre, xss[k]);
  }

  /** The pieces before piece k flatten to Sum(lengths[..k]) entries. */
  lemma FlattenPrefixLength<T>(xss: seq<seq<T>>, k: nat)
    requires k <= |xss|
    ensures |Flatten(xss[..k])| == Sum(Lengths(xss)[..k])
  {
    FlattenLength(xss[..k]);
    assert Lengths(xss[..k]) == Lengths(xss)[..k];
  }

  /** Element s of a flattened table is element s - Sum(lengths[..k]) of
      piece k, where piece k is the one whose prefix-sum interval holds s. */
  lemma FlattenAt<T>(xss: seq<seq<T>>, k: nat, s: nat)
    requires k < |xss|
    requires Sum(Lengths(xss)[..k]) <= s < Sum(Lengths(xss)[..k + 1])
    ensures |Flatten(xss)| == Sum(Lengths(xss))
    ensures s < |Flatten(xss)|
    ensures s - Sum(Lengths(xss)[..k]) < |xss[k]|
    ensures Flatten(xss)[s] == xss[k][s - Sum(Lengths(xss)[..k])]
  {
    var n, ls := |xss|, Lengths(xss);
    FlattenSplit(xss, k);
    FlattenPrefixLength(xss, k);
    FlattenLength(xss);
    PrefixSumStep(ls, k);
    PrefixSumMonotone(ls, k + 1, n);
    assert ls[..n] == ls;
    var front := Flatten(xss[..k]) + xss[k];
    assert Flatten(xss) == front + Flatten(xss[k + 1..]);
    assert front[s] == xss[k][s - Sum(ls[..k])];
  }

  /** Element r of piece k lands at Sum(lengths[..k]) + r of the flattened table. */
  lemma FlattenIndex<T>(xss: seq<seq<T>>, k: nat, r: nat)
    requires k < |xss| && r < |xss[k]|
    ensures Sum(Lengths(xss)[..k]) + r < |Flatten(xss)|
    ensures Flatten(xss)[Sum(Lengths(xss)[..k]) + r] == xss[k][r]
  {
    PrefixSumStep(Lengths(xss), k);
    FlattenAt(xss, k, Sum(Lengths(xss)[..k]) + r);
  }

  /** Number of positions of a boolean row that are false. */
  function CountFalse(row: seq<bool>): nat
  {
    if row == [] then 0 else CountFalse(row[..|row| - 1]) + (if row[|row| - 1] then 0 else 1)
  }

  /** Sequence of n copies of x. */
  function Repeat<T>(x: T, n: nat): (r: seq<T>)
    ensures |r| == n
    ensures forall i :: 0 <= i < n ==> r[i] == x
  {
    seq(n, _ => x)
  }

  // Distinct positions and permutations.

  predicate Distinct(xs: seq<nat>)
  {
    forall a, b :: 0 <= a < b < |xs| ==> xs[a] != xs[b]
  }

  /** perm lists every position 0 .. w - 1 exactly once, as randperm(w) does. */
  predicate IsPermutation(perm: seq<nat>, w: nat)
  {
    |perm| == w && Distinct(perm) && forall t :: 0 <= t < w ==> perm[t] < w
  }

  /** Every entry of a row lies in [lo, hi). */
  predicate Within(row: seq<nat>, lo: nat, hi: nat)
  {
    forall t :: 0 <= t < |row| ==> lo <= row[t] < hi
  }

  /** The positions a sequence of positions mentions. */
  function Elements(xs: seq<nat>): set<nat>
  {
    set a | a in xs
  }

  lemma DistinctTail(xs: seq<nat>)
    requires Distinct(xs) && xs != []
    ensures Distinct(xs[1..]) && xs[0] !in xs[1..]
  {
    var rest := xs[1..];
    forall a, b | 0 <= a < b < |rest| ensures rest[a] != rest[b] {
      assert rest[a] == xs[a + 1] && rest[b] == xs[b + 1];
    }
    forall a | 0 <= a < |rest| ensures rest[a] != xs[0] {
      assert rest[a] == xs[a + 1];
    }
  }

  lemma ElementsCons(xs: seq<nat>)
    requires xs != []
    ensures Elements(xs) == Elements(xs[1..]) + {xs[0]}
  {
    forall a | a in Elements(xs) ensures a in Elements(xs[1..]) + {xs[0]} {
      var i :| 0 <= i < |xs| && xs[i] == a;
      if i > 0 { assert xs[1..][i - 1] == a; }
    }
    assert xs == [xs[0]] + xs[1..];
  }

  lemma {:induction false} DistinctCard(xs: seq<nat>)
    requires Distinct(xs)
    ensures |Elements(xs)| == |xs|
  {
    if xs != [] {
      DistinctTail(xs);
      DistinctCard(xs[1..]);
      ElementsCons(xs);
      assert xs[0] !in Elements(xs[1..]);
    } else {
      assert Elements(xs) == {};
    }
  }

  /** The positions 0, 1, ..., n - 1 of a line. */
  function Positions(n: nat): (ps: seq<nat>)
    ensures |ps| == n && forall j :: 0 <= j < n ==> ps[j] == j
  {
    seq(n, j => j)
  }

  /** A subset as large as the whole set is the whole set. */
  lemma SubsetSameSize(a: set<nat>, b: set<nat>)
    requires a <= b && |a| == |b|
    ensures a == b
  {
    var rest := b - a;
    assert b == a + rest;
    assert a * rest == {};
    assert |rest| == 0;
  }

  /** n distinct values below n are all of 0 .. n - 1 (a permutation). */
  lemma Covers(xs: seq<nat>, n: nat)
    requires |xs| == n && Distinct(xs) && forall a :: 0 <= a < n ==> xs[a] < n
    ensures forall j :: 0 <= j < n ==> j in xs
  {
    var inXs := Elements(xs);
    var range := Elements(Positions(n));
    DistinctCard(xs);
    DistinctCard(Positions(n));
    assert inXs <= range by {
      forall a | a in inXs ensures a in range {
        var i :| 0 <= i < |xs| && xs[i] == a;
        assert Positions(n)[a] == a;
      }
    }
    SubsetSameSize(inXs, range);
    forall j | 0 <= j < n
      ensures j in xs
    {
      assert Positions(n)[j] == j;
      assert j in range;
    }
  }

  // Arithmetic facts the solver does not find on its own.

  lemma MulMono(a: int, c: int, b: int)
    requires a <= c && b >= 0
    ensures a * b <= c * b
  {
    assert c * b - a * b == (c - a) * b;
  }

  /** Quotient and remainder are determined by t == q * b + r, 0 <= r < b. */
  lemma DivUnique(t: int, b: int, q: int, r: int)
    requires b > 0 && 0 <= r < b && t == q * b + r
    ensures t / b == q && t % b == r
  {
    var q', r' := t / b, t % b;
    assert t == q' * b + r';
    if q' > q {
      MulMono(q + 1, q', b);
    } else if q' < q {
      MulMono(q' + 1, q, b);
    }
  }

  lemma DivMulExact(a: nat, b: nat)
    requires b >= 1
    ensures (a * b) / b == a
  {
    DivUnique(a * b, b, a, 0);
  }

  lemma DivAddMultiple(t: nat, b: nat, m: nat)
    requires b >= 1
    ensures (t + b * m) / b == t / b + m
  {
    var q, r := t / b, t % b;
    assert t == q * b + r;
    assert t + b * m == (q + m) * b + r;
    DivUnique(t + b * m, b, q + m, r);
  }

  lemma ModAddMultiple(a: nat, m: nat)
    requires m >= 1
    ensures (a + m) % m == a % m
  {
    var q, r := a / m, a % m;
    assert a == q * m + r;
    assert a + m == (q + 1) * m + r;
    DivUnique(a + m, m, q + 1, r);
  }
}
