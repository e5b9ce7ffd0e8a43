/** Shared vocabulary: optional values, sums over maps, and the exclusive-or
    fold the checkpoint keeps over the operation index. */
module Foundations {

  datatype Option<+T> = None | Some(value: T)

  datatype Result<+T, +E> = Ok(value: T) | Err(error: E)

  // Times and durations are nanoseconds.
  const SECOND: int := 1_000_000_000

  /** Go's division of durations drops the fraction toward zero. */
  function WholeSeconds(d: int): int { if d >= 0 then d / SECOND else -(-d / SECOND) }

  lemma SubsetSize<T>(a: set<T>, b: set<T>)
    requires a <= b
    ensures |a| <= |b|
  {
    assert b == a + (b - a);
  }

  lemma SubsetOfSameSize<T>(a: set<T>, b: set<T>)
    requires a <= b && |a| == |b|
    ensures a == b
  {
    assert b == a + (b - a);
  }

  // ---------------------------------------------------------------------
  // Sums over the values of a map
  // ---------------------------------------------------------------------

  ghost function Sum<K, V>(m: map<K, V>, f: V -> int): int
    decreases |m|
  {
    if m == map[] then 0
    else
      var k :| k in m;
      f(m[k]) + Sum(m - {k}, f)
  }

  /** The order in which the entries are added does not matter. */
  lemma {:induction false} SumRemove<K, V>(m: map<K, V>, f: V -> int, k: K)
    requires k in m
    ensures Sum(m, f) == f(m[k]) + Sum(m - {k}, f)
    decreases |m|
  {
    var j :| j in m && Sum(m, f) == f(m[j]) + Sum(m - {j}, f);
    if j != k {
      SumRemove(m - {j}, f, k);
      SumRemove(m - {k}, f, j);
      assert m - {j} - {k} == m - {k} - {j};
    }
  }

  lemma SumInsert<K, V>(m: map<K, V>, f: V -> int, k: K, v: V)
    requires k !in m
    ensures Sum(m[k := v], f) == Sum(m, f) + f(v)
  {
    SumRemove(m[k := v], f, k);
    assert m[k := v] - {k} == m;
  }

  lemma SumReplace<K, V>(m: map<K, V>, f: V -> int, k: K, v: V)
    requires k in m
    ensures Sum(m[k := v], f) == Sum(m, f) - f(m[k]) + f(v)
  {
    SumRemove(m, f, k);
    SumRemove(m[k := v], f, k);
    assert m[k := v] - {k} == m - {k};
  }

  lemma {:induction false} SumNonNegative<K, V>(m: map<K, V>, f: V -> int)
    requires forall k | k in m :: f(m[k]) >= 0
    ensures Sum(m, f) >= 0
    decreases |m|
  {
    if m != map[] {
      var k :| k in m && Sum(m, f) == f(m[k]) + Sum(m - {k}, f);
      SumNonNegative(m - {k}, f);
    }
  }

  // ---------------------------------------------------------------------
  // 256-bit digests and their exclusive-or fold
  // ---------------------------------------------------------------------

  type Digest = d: seq<bv8> | |d| == 32 witness seq(32, i => 0 as bv8)

  function ZeroDigest(): Digest { seq(32, i => 0 as bv8) }

  function Xor(a: Digest, b: Digest): Digest {
    seq(32, i requires 0 <= i < 32 => a[i] ^ b[i])
  }

  lemma XorCommutes(a: Digest, b: Digest)
    ensures Xor(a, b) == Xor(b, a)
  {
    forall i | 0 <= i < 32 ensures Xor(a, b)[i] == Xor(b, a)[i] {}
  }

  lemma XorAssociates(a: Digest, b: Digest, c: Digest)
    ensures Xor(Xor(a, b), c) == Xor(a, Xor(b, c))
  {
    forall i | 0 <= i < 32 ensures Xor(Xor(a, b), c)[i] == Xor(a, Xor(b, c))[i] {}
  }

  lemma XorCancels(a: Digest, b: Digest)
    ensures Xor(Xor(a, b), b) == a
    ensures Xor(ZeroDigest(), a) == a
  {
    forall i | 0 <= i < 32 ensures Xor(Xor(a, b), b)[i] == a[i] && Xor(ZeroDigest(), a)[i] == a[i] {}
  }

  ghost function XorFold<K, V>(m: map<K, V>, f: V -> Digest): Digest
    decreases |m|
  {
    if m == map[] then ZeroDigest()
    else
      var k :| k in m;
      Xor(XorFold(m - {k}, f), f(m[k]))
  }

  /** The fold does not depend on the order of the entries. */
  lemma {:induction false} XorFoldRemove<K, V>(m: map<K, V>, f: V -> Digest, k: K)
    requires k in m
    ensures XorFold(m, f) == Xor(XorFold(m - {k}, f), f(m[k]))
    decreases |m|
  {
    var j :| j in m && XorFold(m, f) == Xor(XorFold(m - {j}, f), f(m[j]));
    if j != k {
      XorFoldRemove(m - {j}, f, k);
      XorFoldRemove(m - {k}, f, j);
      assert m - {j} - {k} == m - {k} - {j};
      var rest := XorFold(m - {j} - {k}, f);
      XorAssociates(rest, f(m[k]), f(m[j]));
      XorAssociates(rest, f(m[j]), f(m[k]));
      XorCommutes(f(m[k]), f(m[j]));
    }
  }

  lemma XorFoldInsert<K, V>(m: map<K, V>, f: V -> Digest, k: K, v: V)
    requires k !in m
    ensures XorFold(m[k := v], f) == Xor(XorFold(m, f), f(v))
  {
    XorFoldRemove(m[k := v], f, k);
    assert m[k := v] - {k} == m;
  }

  /** Taking an old entry out and putting a new one in, in either order of the
      two exclusive-ors, moves the fold to that of the updated map. */
  lemma XorFoldReplace<K, V>(m: map<K, V>, f: V -> Digest, k: K, v: V)
    requires k in m
    ensures XorFold(m[k := v], f) == Xor(Xor(XorFold(m, f), f(m[k])), f(v))
  {
    XorFoldRemove(m, f, k);
    XorFoldRemove(m[k := v], f, k);
    assert m[k := v] - {k} == m - {k};
    XorCancels(XorFold(m - {k}, f), f(m[k]));
  }
}
