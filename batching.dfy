/** The `for i in range(0, len(xs), size): batch = xs[i:i+size]` pattern used by
    the embedder (size 64) and the indexer (size 100): consecutive slices, the last
    one possibly shorter. */
module Batching {

  function Min(a: int, b: int): int {
    if a <= b then a else b
  }

  /** The batches a loop of that shape visits, in order. */
  function Batches<T>(s: seq<T>, size: nat): (r: seq<seq<T>>)
    requires size > 0
    ensures forall j :: 0 <= j < |r| ==> 0 < |r[j]| <= size
    ensures forall j :: 0 <= j < |r| - 1 ==> |r[j]| == size
    decreases |s|
  {
    if s == [] then []
    else if |s| <= size then [s]
    else [s[..size]] + Batches(s[size..], size)
  }

  function Flatten<T>(ss: seq<seq<T>>): seq<T> {
    if ss == [] then [] else ss[0] + Flatten(ss[1..])
  }

  lemma {:induction false} FlattenAppend<T>(a: seq<seq<T>>, b: seq<seq<T>>)
    ensures Flatten(a + b) == Flatten(a) + Flatten(b)
  {
    if a == [] {
      assert a + b == b;
    } else {
      assert (a + b)[1..] == a[1..] + b;
      FlattenAppend(a[1..], b);
    }
  }

  /** The batches cover the input exactly once and in order. */
  lemma {:induction false} FlattenBatches<T>(s: seq<T>, size: nat)
    requires size > 0
    ensures Flatten(Batches(s, size)) == s
    decreases |s|
  {
    if |s| > size {
      FlattenBatches(s[size..], size);
      assert s[..size] + s[size..] == s;
    } else if s != [] {
      assert [s][1..] == [];
    }
  }

  /** Batch `j` is the slice `s[j*size : j*size+size]` (clamped, as Python slices are). */
  lemma {:induction false} BatchSlice<T>(s: seq<T>, size: nat, j: nat)
    requires size > 0 && j < |Batches(s, size)|
    ensures j * size < |s|
    ensures Batches(s, size)[j] == s[j * size..Min(j * size + size, |s|)]
    decreases |s|
  {
    if j == 0 {
      assert j * size == 0;
    } else {
      var rest := s[size..];
      assert Batches(s, size) == [s[..size]] + Batches(rest, size);
      BatchSlice(rest, size, j - 1);
      var p := (j - 1) * size;
      MulSucc(j, size);
      var e := Min(p + size, |rest|);
      assert e + size == Min(j * size + size, |s|);
      SliceShift(s, size, p, e);
    }
  }

  lemma MulSucc(j: nat, size: nat)
    requires j > 0
    ensures j * size == (j - 1) * size + size
  {
  }

  lemma SliceShift<T>(s: seq<T>, k: nat, a: nat, b: nat)
    requires k <= |s| && a <= b <= |s| - k
    ensures s[k..][a..b] == s[k + a..k + b]
  {
  }

  /** The number of batches is `(n - 1) // size + 1`, the total that the loops log;
      for `n == 0` both are 0 (Python's `//` floors, as Dafny's `/` does for a positive divisor). */
  lemma {:induction false} BatchCount<T>(s: seq<T>, size: nat)
    requires size > 0
    ensures |Batches(s, size)| == (|s| - 1) / size + 1
    decreases |s|
  {
    if |s| > size {
      BatchCount(s[size..], size);
      assert |s| - 1 == (|s| - size - 1) + size;
      DivShift(|s| - size - 1, size);
    }
  }

  lemma DivShift(a: int, size: nat)
    requires size > 0 && a >= 0
    ensures (a + size) / size == a / size + 1
  {
    var q, r := a / size, a % size;
    assert a == q * size + r && 0 <= r < size;
    assert a + size == (q + 1) * size + r;
    DivUnique(a + size, size, q + 1, r);
  }

  lemma DivUnique(a: int, d: nat, q: int, r: int)
    requires d > 0 && 0 <= r < d && a == q * d + r
    ensures a / d == q
  {
    var q', r' := a / d, a % d;
    assert a == q' * d + r' && 0 <= r' < d;
    assert (q' - q) * d == r - r';
    if q' > q {
      MulAtLeast(q' - q, d);
      assert false;
    } else if q' < q {
      MulAtLeast(q - q', d);
      assert false;
    }
  }

  lemma MulAtLeast(m: int, d: nat)
    requires m >= 1
    ensures m * d >= d
  {
    assert m * d == (m - 1) * d + d;
    assert (m - 1) * d >= 0;
  }

  /** `n` is a whole number of batches: a point the loop variable reaches. */
  predicate WholeBatches(n: nat, size: nat)
    requires size > 0
  {
    n == 0 || (n >= size && WholeBatches(n - size, size))
  }

  /** Cutting the input after whole batches cuts the batches there too. */
  lemma {:induction false} BatchesAppend<T>(a: seq<T>, b: seq<T>, size: nat)
    requires size > 0 && WholeBatches(|a|, size)
    ensures Batches(a + b, size) == Batches(a, size) + Batches(b, size)
    decreases |a|
  {
    if a == [] {
      assert a + b == b;
    } else {
      assert |a| >= size;
      assert (a + b)[..size] == a[..size];
      assert (a + b)[size..] == a[size..] + b;
      if |a| == size {
        assert a[size..] == [];
        if b == [] {
          assert a + b == a;
        }
      } else {
        BatchesAppend(a[size..], b, size);
      }
    }
  }

  /** One more loop iteration appends the next slice to the batches done so far. */
  lemma BatchesExtend<T>(s: seq<T>, i: nat, size: nat)
    requires size > 0 && WholeBatches(i, size) && i < |s|
    ensures Batches(s[..Min(i + size, |s|)], size) == Batches(s[..i], size) + [s[i..Min(i + size, |s|)]]
  {
    var e := Min(i + size, |s|);
    assert s[..e] == s[..i] + s[i..e];
    BatchesAppend(s[..i], s[i..e], size);
  }

  /** After whole batches the loop variable `i` has visited `i // size` batches. */
  lemma {:induction false} WholeBatchesCount<T>(s: seq<T>, i: nat, size: nat)
    requires size > 0 && WholeBatches(i, size) && i <= |s|
    ensures |Batches(s[..i], size)| == i / size
    decreases i
  {
    if i > 0 {
      var j := i - size;
      WholeBatchesCount(s, j, size);
      assert s[..i] == s[..j] + s[j..i];
      BatchesAppend(s[..j], s[j..i], size);
      assert |Batches(s[j..i], size)| == 1;
      DivShift(j, size);
    }
  }
}
