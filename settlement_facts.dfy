/**
 * What the 'Awal reduction and the residuary distribution guarantee: the
 * estate is conserved, ratios survive the reduction, the residue goes to
 * one class only, in priority order, and nobody is counted twice.
 */
module SettlementFacts {
  import opened Heirs
  import opened Quantities
  import opened Records
  import opened Meeras
  import opened FixedShareFacts

  /** The ids the engine can give a residuary share to. */
  predicate ResiduaryHeir(h: HeirId) {
    h in {Sons, Daughters, Father, Grandfather, FullBrothers, FullSisters}
  }

  /* ---------- 'Awal ---------- */

  /**
   * Shares that fit in the estate are left alone; shares that exceed it are
   * rescaled to sum to exactly 1. The table keeps its keys, in order, and
   * stays non-negative.
   */
  lemma AwalRule(f: Record)
    requires Valid(f) && NonNegative(f)
    ensures var a := Awal(f);
      && Valid(a) && a.keys == f.keys && NonNegative(a)
      && (Sum(f) <= 1.0 ==> a == f)
      && (Sum(f) > 1.0 ==> Sum(a) == 1.0)
  {
    if Sum(f) > 1.0 {
      var c := 1.0 / Sum(f);
      Reduction(Sum(f));
      ScaleSum(f, Scale(f, c), c);
      ScaleNonNegative(f, c);
    }
  }

  /** The reduction keeps the table's keys, in order. */
  lemma AwalKeys(f: Record, a: Record)
    requires Valid(f) && a == Awal(f)
    ensures Valid(a) && a.keys == f.keys
    ensures forall h :: h in a.vals <==> h in f.vals
  {
  }

  /** Scaling by a non-negative factor keeps every value non-negative. */
  lemma ScaleNonNegative(f: Record, c: real)
    requires Valid(f) && NonNegative(f) && c >= 0.0
    ensures NonNegative(Scale(f, c))
  {
    forall x | x in Scale(f, c).vals
      ensures Scale(f, c).vals[x] >= 0.0
    {
      assert Scale(f, c).vals[x] == Get(Scale(f, c), x) == Get(f, x) * c;
      assert Get(f, x) >= 0.0;
    }
  }

  /** The reduction is proportional: the ratio of any two shares is unchanged. */
  lemma AwalKeepsRatios(f: Record, a: Record, x: HeirId, y: HeirId)
    requires Valid(f) && a == Awal(f)
    ensures Get(a, x) * Get(f, y) == Get(a, y) * Get(f, x)
  {
    if Sum(f) > 1.0 {
      ScaleKeepsRatios(f, a, 1.0 / Sum(f), x, y);
    } else {
      assert a == f;
    }
  }

  /** Scaling by a common factor keeps the ratio of any two values. */
  lemma ScaleKeepsRatios(f: Record, a: Record, c: real, x: HeirId, y: HeirId)
    requires Valid(f) && a == Scale(f, c)
    ensures Get(a, x) * Get(f, y) == Get(a, y) * Get(f, x)
  {
    ScaledRatio(Get(a, x), Get(a, y), Get(f, x), Get(f, y), c);
  }

  /** When the reduction applies, every positive share strictly shrinks. */
  lemma AwalShrinks(f: Record)
    requires Valid(f) && Sum(f) > 1.0
    ensures var a := Awal(f);
      forall x :: Get(f, x) > 0.0 ==> Get(a, x) < Get(f, x)
  {
    Reduction(Sum(f));
    ScaleShrinks(f, 1.0 / Sum(f));
  }

  /** Scaling by a factor strictly between 0 and 1 shrinks every positive value. */
  lemma ScaleShrinks(f: Record, c: real)
    requires Valid(f) && 0.0 < c < 1.0
    ensures forall x :: Get(f, x) > 0.0 ==> Get(Scale(f, c), x) < Get(f, x)
  {
    forall x | Get(f, x) > 0.0
      ensures Get(Scale(f, c), x) < Get(f, x)
    {
      Shrinks(Get(f, x), c);
    }
  }

  /** A positive value times a factor below 1 is smaller. */
  lemma Shrinks(p: real, c: real)
    requires p > 0.0 && 0.0 < c < 1.0
    ensures Times(p, c) < p
  {
    assert p * c < p * 1.0;
  }

  /** Multiplying by a common factor keeps a ratio. */
  lemma ScaledRatio(px: real, qx: real, p: real, q: real, c: real)
    requires px == Times(p, c) && qx == Times(q, c)
    ensures px * q == qx * p
  {
  }

  /** The reduction factor of a total above 1 lies strictly between 0 and 1 and brings the total to 1. */
  lemma Reduction(total: real)
    requires total > 1.0
    ensures 0.0 < 1.0 / total < 1.0
    ensures total * (1.0 / total) == 1.0
  {
  }

  /* ---------- the 2:1 split ---------- */

  /**
   * Splitting a residue between males and females hands out exactly the
   * residue, to the males and, when there are any, the females.
   */
  lemma SplitTwoToOneSum(male: HeirId, males: nat, female: HeirId, females: nat, residue: real)
    requires males > 0 && male != female
    ensures Sum(SplitTwoToOne(male, males, female, females, residue)) == residue
  {
    SplitTwoToOneEntries(male, males, female, females, residue);
    PartsAddUp(residue, males, females);
  }

  /** A non-negative residue splits into non-negative parts. */
  lemma SplitTwoToOneNonNegative(male: HeirId, males: nat, female: HeirId, females: nat, residue: real)
    requires males > 0 && male != female && residue >= 0.0
    ensures NonNegative(SplitTwoToOne(male, males, female, females, residue))
  {
    SplitTwoToOneKeys(male, males, female, females, residue);
    SplitTwoToOneEntries(male, males, female, females, residue);
    PartsNonNegative(residue, males, females);
  }

  /** The keys a 2:1 split writes. */
  lemma SplitTwoToOneKeys(male: HeirId, males: nat, female: HeirId, females: nat, residue: real)
    requires males > 0 && male != female
    ensures Valid(SplitTwoToOne(male, males, female, females, residue))
    ensures forall h :: h in SplitTwoToOne(male, males, female, females, residue).vals <==>
      h == male || (h == female && females > 0)
  {
    SplitTwoToOneForm(male, males, female, females, residue);
  }

  /** The entries a 2:1 split writes, and its sum as the sum of those two entries. */
  lemma SplitTwoToOneEntries(male: HeirId, males: nat, female: HeirId, females: nat, residue: real)
    requires males > 0 && male != female
    ensures Get(SplitTwoToOne(male, males, female, females, residue), male) == PerPart(residue, males, females) * 2.0 * males as real
    ensures Get(SplitTwoToOne(male, males, female, females, residue), female)
      == if females == 0 then 0.0 else PerPart(residue, males, females) * females as real
    ensures Sum(SplitTwoToOne(male, males, female, females, residue))
      == Get(SplitTwoToOne(male, males, female, females, residue), male) + Get(SplitTwoToOne(male, males, female, females, residue), female)
  {
    SplitTwoToOneForm(male, males, female, females, residue);
    SplitTwoToOneKeys(male, males, female, females, residue);
    SumOfPair(SplitTwoToOne(male, males, female, females, residue), male, female);
  }

  /**
   * The two assignments a 2:1 split makes, in order: the males' entry, then
   * the females' entry when there are females.
   */
  lemma SplitTwoToOneForm(male: HeirId, males: nat, female: HeirId, females: nat, residue: real)
    requires males > 0 && male != female
    ensures var perPart := PerPart(residue, males, females);
      var r := Put(Empty, male, perPart * 2.0 * males as real);
      SplitTwoToOne(male, males, female, females, residue)
        == if females != 0 then Put(r, female, perPart * females as real) else r
  {
  }

  /** A record whose only keys are `first` and `second` sums to the values at those two keys. */
  lemma SumOfPair(s: Record, first: HeirId, second: HeirId)
    requires Valid(s) && first != second
    requires forall k :: k in s.vals ==> k == first || k == second
    ensures Sum(s) == Get(s, first) + Get(s, second)
  {
    var ks := [first, second];
    assert Distinct(ks);
    SumOfCover(ks, s);
    assert ks[..1] == [first] && [first][..0] == [];
    assert SumOf(ks, s) == SumOf([first], s) + Get(s, second);
    assert SumOf([first], s) == SumOf([], s) + Get(s, first);
  }

  /** The male and female parts of a 2:1 split add up to the whole residue. */
  lemma PartsAddUp(residue: real, males: nat, females: nat)
    requires males > 0
    ensures PerPart(residue, males, females) * 2.0 * males as real + PerPart(residue, males, females) * females as real == residue
  {
    var parts := (males * 2 + females) as real;
    var perPart := PerPart(residue, males, females);
    assert perPart == residue / parts;
    assert parts == males as real * 2.0 + females as real;
    assert perPart * parts == residue;
    assert perPart * 2.0 * males as real + perPart * females as real == perPart * parts;
  }

  /** A non-negative residue gives non-negative parts. */
  lemma PartsNonNegative(residue: real, males: nat, females: nat)
    requires males > 0 && residue >= 0.0
    ensures PerPart(residue, males, females) * 2.0 * males as real >= 0.0
    ensures PerPart(residue, males, females) * females as real >= 0.0
  {
    var perPart := PerPart(residue, males, females);
    assert perPart >= 0.0;
  }

  /* ---------- residuary distribution ---------- */

  /**
   * Distribution conserves the estate: what the two tables hold plus what is
   * left over equals what the fixed table held plus the residue.
   */
  lemma DistributeConserves(inputs: HeirQuantities, shares: Record, residue: real)
    requires Valid(shares)
    ensures var s := Distribute(inputs, shares, residue);
      Sum(s.shares) + Sum(s.asaba) + s.residue == Sum(shares) + residue
  {
    var s := Distribute(inputs, shares, residue);
    if residue > 0.0 {
      if Count(inputs, Sons) > 0 {
        assert s == Settlement(shares, SplitTwoToOne(Sons, Count(inputs, Sons), Daughters, Count(inputs, Daughters), residue), 0.0);
        SplitTwoToOneSum(Sons, Count(inputs, Sons), Daughters, Count(inputs, Daughters), residue);
      } else if Count(inputs, Father) > 0 {
        FatherBranch(inputs, shares, residue);
        FatherSum(shares, residue);
      } else if Count(inputs, Grandfather) > 0 {
        assert s == Settlement(shares, Put(Empty, Grandfather, residue), 0.0);
        SingleSum(Grandfather, residue);
      } else if Count(inputs, FullBrothers) > 0 {
        assert s == Settlement(shares, SplitTwoToOne(FullBrothers, Count(inputs, FullBrothers), FullSisters, Count(inputs, FullSisters), residue), 0.0);
        SplitTwoToOneSum(FullBrothers, Count(inputs, FullBrothers), FullSisters, Count(inputs, FullSisters), residue);
      } else {
        assert s == Settlement(shares, Empty, residue);
        SingleSum(Grandfather, 0.0);
      }
    } else {
      assert s == Settlement(shares, Empty, residue);
      SingleSum(Grandfather, 0.0);
    }
  }

  /** Without sons, a present father takes the residue on top of his prescribed entry, which leaves the fixed table. */
  lemma FatherBranch(inputs: HeirQuantities, shares: Record, residue: real)
    requires Valid(shares) && residue > 0.0 && Count(inputs, Sons) == 0 && Count(inputs, Father) > 0
    ensures Distribute(inputs, shares, residue)
      == Settlement(Delete(shares, Father), Put(Empty, Father, Get(shares, Father) + residue), 0.0)
  {
    assert !(Count(inputs, Sons) > 0);
  }

  /** Moving the father's entry to the residuary table, with the residue added, conserves the total. */
  lemma FatherSum(shares: Record, residue: real)
    requires Valid(shares)
    ensures Sum(Delete(shares, Father)) + Sum(Put(Empty, Father, Get(shares, Father) + residue)) + 0.0
      == Sum(shares) + residue
  {
    DeleteSum(shares, Father);
    SingleSum(Father, Get(shares, Father) + residue);
  }

  /** A table of one entry sums to that entry, and the empty table to 0. */
  lemma SingleSum(k: HeirId, v: real)
    ensures Sum(Put(Empty, k, v)) == v
    ensures Sum(Empty) == 0.0
  {
    PutNewSum(Empty, k, v);
  }

  /**
   * Both tables stay well formed, and non-negative for a non-negative
   * residue; the fixed table only ever loses the father's entry.
   */
  lemma DistributeWellFormed(inputs: HeirQuantities, shares: Record, residue: real)
    requires Valid(shares) && NonNegative(shares) && residue >= 0.0
    ensures var s := Distribute(inputs, shares, residue);
      && Valid(s.shares) && Valid(s.asaba) && NonNegative(s.shares) && NonNegative(s.asaba)
      && (forall h :: h != Father ==> Get(s.shares, h) == Get(shares, h) && (h in s.shares.vals <==> h in shares.vals))
  {
    var s := Distribute(inputs, shares, residue);
    if residue > 0.0 {
      if Count(inputs, Sons) > 0 {
        assert s == Settlement(shares, SplitTwoToOne(Sons, Count(inputs, Sons), Daughters, Count(inputs, Daughters), residue), 0.0);
        SplitTwoToOneKeys(Sons, Count(inputs, Sons), Daughters, Count(inputs, Daughters), residue);
        SplitTwoToOneNonNegative(Sons, Count(inputs, Sons), Daughters, Count(inputs, Daughters), residue);
      } else if Count(inputs, Father) > 0 {
        FatherBranch(inputs, shares, residue);
        FatherEntries(shares, residue);
      } else if Count(inputs, Grandfather) > 0 {
        assert s == Settlement(shares, Put(Empty, Grandfather, residue), 0.0);
        assert NonNegative(Put(Empty, Grandfather, residue));
      } else if Count(inputs, FullBrothers) > 0 {
        assert s == Settlement(shares, SplitTwoToOne(FullBrothers, Count(inputs, FullBrothers), FullSisters, Count(inputs, FullSisters), residue), 0.0);
        SplitTwoToOneKeys(FullBrothers, Count(inputs, FullBrothers), FullSisters, Count(inputs, FullSisters), residue);
        SplitTwoToOneNonNegative(FullBrothers, Count(inputs, FullBrothers), FullSisters, Count(inputs, FullSisters), residue);
      } else {
        assert s == Settlement(shares, Empty, residue);
      }
    } else {
      assert s == Settlement(shares, Empty, residue);
    }
  }

  /** The father's two tables when he takes the residue are non-negative. */
  lemma FatherEntries(shares: Record, residue: real)
    requires Valid(shares) && NonNegative(shares) && residue >= 0.0
    ensures NonNegative(Delete(shares, Father))
    ensures NonNegative(Put(Empty, Father, Get(shares, Father) + residue))
  {
    var d := Delete(shares, Father);
    forall h | h in d.vals
      ensures d.vals[h] >= 0.0
    {
      assert d.vals[h] == Get(d, h) == Get(shares, h);
    }
    assert Get(shares, Father) >= 0.0;
  }

  /**
   * A positive residue goes to exactly one residuary class, the first present
   * in the order sons, father, grandfather, full brothers.
   */
  lemma DistributePriority(inputs: HeirQuantities, shares: Record, residue: real)
    requires Valid(shares)
    ensures var s := Distribute(inputs, shares, residue);
      var sons, father := Count(inputs, Sons) > 0, Count(inputs, Father) > 0;
      var grandfather, brothers := Count(inputs, Grandfather) > 0, Count(inputs, FullBrothers) > 0;
      && (Sons in s.asaba.vals <==> residue > 0.0 && sons)
      && (Father in s.asaba.vals <==> residue > 0.0 && !sons && father)
      && (Grandfather in s.asaba.vals <==> residue > 0.0 && !sons && !father && grandfather)
      && (FullBrothers in s.asaba.vals <==> residue > 0.0 && !sons && !father && !grandfather && brothers)
  {
    if residue > 0.0 && Count(inputs, Sons) > 0 {
      SplitTwoToOneKeys(Sons, Count(inputs, Sons), Daughters, Count(inputs, Daughters), residue);
    } else if residue > 0.0 && Count(inputs, Father) == 0 && Count(inputs, Grandfather) == 0 && Count(inputs, FullBrothers) > 0 {
      SplitTwoToOneKeys(FullBrothers, Count(inputs, FullBrothers), FullSisters, Count(inputs, FullSisters), residue);
    }
  }

  /**
   * Only present heirs of the residuary kinds receive a residuary share, and
   * daughters and full sisters only beside their brothers.
   */
  lemma DistributeResiduaries(inputs: HeirQuantities, shares: Record, residue: real)
    requires Valid(shares)
    ensures var s := Distribute(inputs, shares, residue);
      && (forall h :: h in s.asaba.vals ==> ResiduaryHeir(h) && Count(inputs, h) > 0)
      && (Daughters in s.asaba.vals ==> Sons in s.asaba.vals)
      && (FullSisters in s.asaba.vals ==> FullBrothers in s.asaba.vals)
  {
    if residue > 0.0 && Count(inputs, Sons) > 0 {
      SplitTwoToOneKeys(Sons, Count(inputs, Sons), Daughters, Count(inputs, Daughters), residue);
    } else if residue > 0.0 && Count(inputs, Father) == 0 && Count(inputs, Grandfather) == 0 && Count(inputs, FullBrothers) > 0 {
      SplitTwoToOneKeys(FullBrothers, Count(inputs, FullBrothers), FullSisters, Count(inputs, FullSisters), residue);
    }
  }

  /**
   * A positive residue with a residuary class present is used up; otherwise
   * nothing is distributed and the residue stays. The share table loses at
   * most the father's entry.
   */
  lemma DistributeLeftover(inputs: HeirQuantities, shares: Record, residue: real)
    requires Valid(shares)
    ensures var s := Distribute(inputs, shares, residue);
      && (forall h :: h in s.shares.vals ==> h in shares.vals)
      && (forall h :: h != Father ==> (h in s.shares.vals <==> h in shares.vals))
      && (residue > 0.0 && ResiduaryPresent(inputs) ==> s.residue == 0.0)
      && (!(residue > 0.0 && ResiduaryPresent(inputs)) ==> s == Settlement(shares, Empty, residue))
  {
  }

  /**
   * How the chosen class shares the residue: sons with daughters, and full
   * brothers with full sisters, at two parts per male and one per female,
   * together taking exactly the residue; the father takes his fixed share
   * plus the whole residue, and his fixed entry is removed so it is counted
   * once; the grandfather takes the whole residue.
   */
  lemma DistributeSplits(inputs: HeirQuantities, shares: Record, residue: real)
    requires Valid(shares)
    ensures var s := Distribute(inputs, shares, residue);
      var sons, daughters := Count(inputs, Sons), Count(inputs, Daughters);
      var brothers, sisters := Count(inputs, FullBrothers), Count(inputs, FullSisters);
      && (Sons in s.asaba.vals ==> sons > 0 && s.asaba == SplitTwoToOne(Sons, sons, Daughters, daughters, residue))
      && (Father in s.asaba.vals ==>
            && s.asaba.keys == [Father]
            && Get(s.asaba, Father) == Get(shares, Father) + residue
            && Father !in s.shares.vals)
      && (Grandfather in s.asaba.vals ==> s.asaba.keys == [Grandfather] && Get(s.asaba, Grandfather) == residue)
      && (FullBrothers in s.asaba.vals ==>
            brothers > 0 && s.asaba == SplitTwoToOne(FullBrothers, brothers, FullSisters, sisters, residue))
  {
    var sons, daughters := Count(inputs, Sons), Count(inputs, Daughters);
    var brothers, sisters := Count(inputs, FullBrothers), Count(inputs, FullSisters);
    if residue > 0.0 && sons > 0 {
      SplitTwoToOneKeys(Sons, sons, Daughters, daughters, residue);
    } else if residue > 0.0 && Count(inputs, Father) == 0 && Count(inputs, Grandfather) == 0 && brothers > 0 {
      SplitTwoToOneKeys(FullBrothers, brothers, FullSisters, sisters, residue);
    }
  }

  /* ---------- the whole settlement ---------- */

  /** Prescribed shares within the estate are not rescaled, and the residue is what they leave. */
  lemma ResolveWithinEstate(inputs: HeirQuantities, fixed: Record)
    requires Valid(fixed) && Sum(fixed) <= 1.0
    ensures Resolve(inputs, fixed) == Distribute(inputs, fixed, 1.0 - Sum(fixed))
  {
    assert Awal(fixed) == fixed;
  }

  /** With no residuary class present, prescribed shares within the estate leave `1 - total` undistributed. */
  lemma UndistributedResolve(inputs: HeirQuantities, fixed: Record)
    requires Valid(fixed) && Sum(fixed) <= 1.0 && !ResiduaryPresent(inputs)
    ensures Resolve(inputs, fixed) == Settlement(fixed, Empty, 1.0 - Sum(fixed))
  {
    ResolveWithinEstate(inputs, fixed);
    DistributeLeftover(inputs, fixed, 1.0 - Sum(fixed));
  }

  /**
   * Prescribed shares that reach or exceed the estate leave no residue, so no
   * residuary branch runs: the table is the reduced one and nobody takes a
   * residuary share.
   */
  lemma FullEstateResolve(inputs: HeirQuantities, fixed: Record)
    requires Valid(fixed) && Sum(fixed) >= 1.0
    ensures Resolve(inputs, fixed) == Settlement(Awal(fixed), Empty, 0.0)
  {
  }

  /**
   * After 'Awal and distribution the whole estate is accounted for: the
   * tables and the undistributed residue sum to 1. The residue lies in
   * [0, 1], and it is 0 exactly when the prescribed shares reach the whole
   * estate or some residuary class is present.
   */
  lemma ResolveTotals(inputs: HeirQuantities, fixed: Record)
    requires Valid(fixed) && NonNegative(fixed)
    ensures var s := Resolve(inputs, fixed);
      && Valid(s.shares) && Valid(s.asaba) && NonNegative(s.shares) && NonNegative(s.asaba)
      && Sum(s.shares) + Sum(s.asaba) + s.residue == 1.0
      && 0.0 <= s.residue <= 1.0
      && (s.residue == 0.0 <==> Sum(fixed) >= 1.0 || ResiduaryPresent(inputs))
  {
    var a := Awal(fixed);
    var residue := 1.0 - (if Sum(fixed) > 1.0 then 1.0 else Sum(fixed));
    assert Resolve(inputs, fixed) == Distribute(inputs, a, residue);
    SumOfNonNegative(fixed.keys, fixed);
    AwalRule(fixed);
    DistributeConserves(inputs, a, residue);
    DistributeWellFormed(inputs, a, residue);
    DistributeLeftover(inputs, a, residue);
  }

  /** `ResolveTotals` for the engine's own prescribed-share table. */
  lemma SettleTotals(inputs: HeirQuantities, gender: Gender)
    ensures var f, s := FixedShares(inputs, gender), Settle(inputs, gender);
      && Valid(s.shares) && Valid(s.asaba) && NonNegative(s.shares) && NonNegative(s.asaba)
      && Sum(s.shares) + Sum(s.asaba) + s.residue == 1.0
      && 0.0 <= s.residue <= 1.0
      && (s.residue == 0.0 <==> Sum(f) >= 1.0 || ResiduaryPresent(inputs))
  {
    FixedSharesShape(inputs, gender);
    ResolveTotals(inputs, FixedShares(inputs, gender));
  }

  /**
   * No heir is counted twice: no id has both a prescribed and a residuary
   * entry, provided the prescribed table holds only prescribed-share heirs
   * and gives daughters a share only without sons and full sisters only
   * without full brothers (the father's prescribed entry is removed when he
   * takes the residue).
   */
  lemma ResolveCountsOnce(inputs: HeirQuantities, fixed: Record)
    requires Valid(fixed)
    requires forall h :: h in fixed.vals ==> FixedHeir(h)
    requires Daughters in fixed.vals ==> Count(inputs, Sons) == 0
    requires FullSisters in fixed.vals ==> Count(inputs, FullBrothers) == 0
    ensures var s := Resolve(inputs, fixed);
      forall h :: !(h in s.shares.vals && h in s.asaba.vals)
  {
    var a := Awal(fixed);
    var residue := 1.0 - (if Sum(fixed) > 1.0 then 1.0 else Sum(fixed));
    AwalKeys(fixed, a);
    DistributeCountsOnce(inputs, a, residue);
    var s := Distribute(inputs, a, residue);
    assert forall h :: !(h in s.shares.vals && h in s.asaba.vals);
    assert Resolve(inputs, fixed) == s;
  }

  /**
   * After 'Awal and the residuary distribution, the share table lists only
   * ids of the prescribed table, and residuary entries go only to residuary
   * heirs entered with a count.
   */
  lemma ResolveKeys(inputs: HeirQuantities, fixed: Record)
    requires Valid(fixed)
    ensures var s := Resolve(inputs, fixed);
      && (forall h :: h in s.shares.vals ==> h in fixed.vals)
      && (forall h :: h in s.asaba.vals ==> Count(inputs, h) > 0 && ResiduaryHeir(h))
  {
    var a := Awal(fixed);
    var residue := 1.0 - (if Sum(fixed) > 1.0 then 1.0 else Sum(fixed));
    AwalKeys(fixed, a);
    DistributeLeftover(inputs, a, residue);
    DistributeResiduaries(inputs, a, residue);
    var s := Distribute(inputs, a, residue);
    assert forall h :: h in s.shares.vals ==> h in fixed.vals;
    assert forall h :: h in s.asaba.vals ==> Count(inputs, h) > 0 && ResiduaryHeir(h);
    assert Resolve(inputs, fixed) == s;
  }

  /** The residuary distribution never gives a residuary share to an id the share table lists. */
  lemma DistributeCountsOnce(inputs: HeirQuantities, shares: Record, residue: real)
    requires Valid(shares)
    requires forall h :: h in shares.vals ==> FixedHeir(h)
    requires Daughters in shares.vals ==> Count(inputs, Sons) == 0
    requires FullSisters in shares.vals ==> Count(inputs, FullBrothers) == 0
    ensures var s := Distribute(inputs, shares, residue);
      forall h :: !(h in s.shares.vals && h in s.asaba.vals)
  {
    if residue > 0.0 {
      if Count(inputs, Sons) > 0 {
        var split := SplitTwoToOne(Sons, Count(inputs, Sons), Daughters, Count(inputs, Daughters), residue);
        assert Distribute(inputs, shares, residue) == Settlement(shares, split, 0.0);
        SplitDisjoint(shares, Sons, Count(inputs, Sons), Daughters, Count(inputs, Daughters), residue);
      } else if Count(inputs, Father) > 0 {
        FatherDisjoint(shares, Get(shares, Father) + residue);
      } else if Count(inputs, Grandfather) > 0 {
        assert !FixedHeir(Grandfather);
      } else if Count(inputs, FullBrothers) > 0 {
        var split := SplitTwoToOne(FullBrothers, Count(inputs, FullBrothers), FullSisters, Count(inputs, FullSisters), residue);
        assert Distribute(inputs, shares, residue) == Settlement(shares, split, 0.0);
        SplitDisjoint(shares, FullBrothers, Count(inputs, FullBrothers), FullSisters, Count(inputs, FullSisters), residue);
      }
    }
  }

  /** The father's residuary entry shares no key with the table he is deleted from. */
  lemma FatherDisjoint(shares: Record, v: real)
    requires Valid(shares)
    ensures forall h :: !(h in Delete(shares, Father).vals && h in Put(Empty, Father, v).vals)
  {
  }

  /** A 2:1 split shares no key with a table that lists neither of its two ids. */
  lemma SplitDisjoint(shares: Record, male: HeirId, males: nat, female: HeirId, females: nat, residue: real)
    requires males > 0 && male != female
    requires male !in shares.vals && (females > 0 ==> female !in shares.vals)
    ensures forall h :: !(h in shares.vals && h in SplitTwoToOne(male, males, female, females, residue).vals)
  {
    SplitTwoToOneKeys(male, males, female, females, residue);
  }

  /**
   * No heir is counted twice in the engine's settlement: daughters and full
   * sisters with a prescribed share never also take a residuary one, and the
   * father's prescribed entry goes when he takes the residue.
   */
  lemma NoDoubleCounting(inputs: HeirQuantities, gender: Gender)
    ensures var s := Settle(inputs, gender);
      forall h :: !(h in s.shares.vals && h in s.asaba.vals)
  {
    FixedSharesShape(inputs, gender);
    DaughtersShare(inputs, gender);
    FullSistersShare(inputs, gender);
    ResolveCountsOnce(inputs, FixedShares(inputs, gender));
  }
}
