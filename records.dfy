/**
 * A number-valued record keyed by heir id, as the engine's share tables are:
 * keys remember their insertion order, and a key that is absent reads as 0.
 */
module Records {
  import opened Heirs

  datatype Record = Record(keys: seq<HeirId>, vals: map<HeirId, real>)

  const Empty: Record := Record([], map[])

  /** Keys are listed once each, and exactly the keys of the map are listed. */
  predicate Valid(r: Record) {
    Distinct(r.keys) && forall k :: k in r.vals <==> k in r.keys
  }

  /** Every value in the record is non-negative. */
  predicate NonNegative(r: Record) {
    forall k :: k in r.vals ==> r.vals[k] >= 0.0
  }

  /** `r[k] || 0` */
  function Get(r: Record, k: HeirId): (v: real) {
    if k in r.vals then r.vals[k] else 0.0
  }

  /** `r[k] = v`: a new key goes to the end, an existing key keeps its place. */
  function Put(r: Record, k: HeirId, v: real): (r': Record)
    requires Valid(r)
    ensures Valid(r')
    ensures Get(r', k) == v && k in r'.vals
    ensures forall x :: x != k ==> Get(r', x) == Get(r, x) && (x in r'.vals <==> x in r.vals)
  {
    if k in r.vals then Record(r.keys, r.vals[k := v])
    else
      DistinctSnoc(r.keys, k);
      Record(r.keys + [k], r.vals[k := v])
  }

  /** The keys of `ks` other than `k`, in order. */
  function Without(ks: seq<HeirId>, k: HeirId): (ks': seq<HeirId>)
    ensures forall x :: x in ks' <==> x in ks && x != k
    ensures Distinct(ks) ==> Distinct(ks')
  {
    if ks == [] then []
    else
      var n := |ks| - 1;
      var rest := Without(ks[..n], k);
      assert Distinct(ks) ==> Distinct(rest) && (ks[n] != k ==> Distinct(rest + [ks[n]])) by {
        if Distinct(ks) {
          DistinctInit(ks);
          if ks[n] != k {
            DistinctSnoc(rest, ks[n]);
          }
        }
      }
      if ks[n] == k then rest else rest + [ks[n]]
  }

  /** `delete r[k]` */
  function Delete(r: Record, k: HeirId): (r': Record)
    requires Valid(r)
    ensures Valid(r')
    ensures k !in r'.vals && Get(r', k) == 0.0
    ensures forall x :: x != k ==> Get(r', x) == Get(r, x) && (x in r'.vals <==> x in r.vals)
  {
    Record(Without(r.keys, k), r.vals - {k})
  }

  /** A value multiplied by a factor, as `Scale` and `ScaleEntry` compute it. */
  function Times(v: real, f: real): (p: real)
    ensures v >= 0.0 && f >= 0.0 ==> p >= 0.0
  {
    v * f
  }

  /** `r[k] *= f` for a key already present: that entry multiplied in place, nothing else changed. */
  function ScaleEntry(r: Record, k: HeirId, f: real): (r': Record)
    requires k in r.vals
    ensures r'.keys == r.keys && r'.vals.Keys == r.vals.Keys
    ensures r'.vals[k] == r.vals[k] * f
    ensures forall x :: x in r.vals && x != k ==> r'.vals[x] == r.vals[x]
  {
    Record(r.keys, r.vals[k := Times(r.vals[k], f)])
  }

  /** Every value multiplied by `f`, keys and their order unchanged. */
  function Scale(r: Record, f: real): (r': Record)
    requires Valid(r)
    ensures Valid(r') && r'.keys == r.keys && r'.vals.Keys == r.vals.Keys
    ensures forall x :: Get(r', x) == Times(Get(r, x), f)
  {
    Record(r.keys, map k | k in r.vals :: Times(r.vals[k], f))
  }

  /** The sum of the values read at `ks`, added in the order of `ks`. */
  function SumOf(ks: seq<HeirId>, r: Record): (v: real) {
    if ks == [] then 0.0 else SumOf(ks[..|ks| - 1], r) + Get(r, ks[|ks| - 1])
  }

  /** The sum of all the record's values. */
  function Sum(r: Record): (v: real) {
    SumOf(r.keys, r)
  }

  /** A sum reads the record only at the keys it adds. */
  lemma {:induction false} SumOfFrame(ks: seq<HeirId>, r1: Record, r2: Record)
    requires forall k :: k in ks ==> Get(r1, k) == Get(r2, k)
    ensures SumOf(ks, r1) == SumOf(ks, r2)
  {
    if ks != [] {
      SumOfFrame(ks[..|ks| - 1], r1, r2);
    }
  }

  /** A sum of non-negative values is non-negative. */
  lemma {:induction false} SumOfNonNegative(ks: seq<HeirId>, r: Record)
    requires NonNegative(r)
    ensures SumOf(ks, r) >= 0.0
  {
    if ks != [] {
      SumOfNonNegative(ks[..|ks| - 1], r);
    }
  }

  /** A sum over distinct keys changes by the change at the one key `k` where two records differ. */
  lemma {:induction false} SumOfPoint(ks: seq<HeirId>, r1: Record, r2: Record, k: HeirId)
    requires Distinct(ks)
    requires k in ks
    requires forall x :: x != k ==> Get(r1, x) == Get(r2, x)
    ensures SumOf(ks, r1) - Get(r1, k) == SumOf(ks, r2) - Get(r2, k)
  {
    var n := |ks| - 1;
    DistinctInit(ks);
    if ks[n] == k {
      SumOfFrame(ks[..n], r1, r2);
    } else {
      assert k in ks[..n];
      SumOfPoint(ks[..n], r1, r2, k);
    }
  }

  /** If one record holds `f` times the other's values, its sums are `f` times the other's. */
  lemma {:induction false} SumOfTimes(ks: seq<HeirId>, r: Record, s: Record, f: real)
    requires forall x :: Get(s, x) == Get(r, x) * f
    ensures SumOf(ks, s) == SumOf(ks, r) * f
  {
    if ks != [] {
      var n := |ks| - 1;
      SumOfTimes(ks[..n], r, s, f);
      Distributes(SumOf(ks[..n], r), Get(r, ks[n]), SumOf(ks, r), f);
    }
  }

  /**
   * Summing over any list of distinct keys that lists every key of the record
   * gives the record's own sum: the order of addition does not matter, and
   * extra keys read as 0.
   */
  lemma {:induction false} SumOfCover(ks: seq<HeirId>, r: Record)
    requires Valid(r)
    requires Distinct(ks)
    requires forall k :: k in r.vals ==> k in ks
    ensures SumOf(ks, r) == Sum(r)
    decreases |r.keys|
  {
    if r.keys == [] {
      SumOfFrame(ks, r, Empty);
      SumOfZero(ks);
    } else {
      var n := |r.keys| - 1;
      var k := r.keys[n];
      var r' := Record(r.keys[..n], r.vals - {k});
      DistinctInit(r.keys);
      assert Valid(r');
      SumOfCover(ks, r');
      SumOfPoint(ks, r, r', k);
      SumOfFrame(r.keys[..n], r, r');
    }
  }

  /** A sum over a record with no keys is 0. */
  lemma {:induction false} SumOfZero(ks: seq<HeirId>)
    ensures SumOf(ks, Empty) == 0.0
  {
    if ks != [] {
      SumOfZero(ks[..|ks| - 1]);
    }
  }

  /** Adding a new key adds its value to the sum. */
  lemma PutNewSum(r: Record, k: HeirId, v: real)
    requires Valid(r) && k !in r.vals
    ensures Sum(Put(r, k, v)) == Sum(r) + v
  {
    var r' := Put(r, k, v);
    var n := |r.keys|;
    assert r'.keys == r.keys + [k];
    assert r'.keys[..n] == r.keys && r'.keys[n] == k;
    assert Sum(r') == SumOf(r.keys, r') + v;
    SumOfFrame(r.keys, r', r);
  }

  /** Deleting a key removes its value from the sum. */
  lemma DeleteSum(r: Record, k: HeirId)
    requires Valid(r)
    ensures Sum(Delete(r, k)) == Sum(r) - Get(r, k)
  {
    var r' := Delete(r, k);
    SumOfCover(r.keys, r');
    if k in r.keys {
      SumOfPoint(r.keys, r, r', k);
    } else {
      SumOfFrame(r.keys, r, r');
    }
  }

  /** Two records with the same keys in the same order and the same values are the same record. */
  lemma SameEntries(r1: Record, r2: Record)
    requires r1.keys == r2.keys
    requires forall x :: x in r1.vals <==> x in r2.vals
    requires forall x :: Get(r1, x) == Get(r2, x)
    ensures r1 == r2
  {
    forall x | x in r1.vals
      ensures r1.vals[x] == r2.vals[x]
    {
      assert Get(r1, x) == Get(r2, x);
    }
    assert r1.vals == r2.vals;
  }

  /** Multiplication distributes over a sum of two terms. */
  lemma Distributes(p: real, q: real, sum: real, f: real)
    requires sum == p + q
    ensures p * f + q * f == sum * f
  {
  }

  /** Scaling every value scales the sum. */
  lemma ScaleSum(r: Record, s: Record, f: real)
    requires s.keys == r.keys
    requires forall x :: Get(s, x) == Times(Get(r, x), f)
    ensures Sum(s) == Sum(r) * f
  {
    SumOfTimes(r.keys, r, s, f);
    SameProduct(Sum(r), SumOf(r.keys, r), f);
  }

  /** Equal values multiplied by the same factor give equal products. */
  lemma SameProduct(x: real, y: real, f: real)
    requires x == y
    ensures x * f == y * f
  {
  }
}
