/**
 * `calculateMeeras` as the engine runs it: the share table filled step by
 * step, the totalling and 'Awal loops, the residuary branches, and the loop
 * that builds the result rows; proved to compute `Meeras.Meeras`.
 */
module Engine {
  import opened Heirs
  import opened Quantities
  import opened Records
  import opened Fractions
  import opened Meeras

  /** The whole calculation: the rows `Meeras.Meeras` describes. */
  method CalculateMeeras(inputs: HeirQuantities, gender: Gender) returns (results: seq<CalculationResult>)
    ensures results == Meeras.Meeras(inputs, gender)
  {
    var shares := PrescribedShares(inputs, gender);
    var totalFixed := TotalOf(shares);
    ghost var fixed := shares;
    if totalFixed > 1.0 {
      shares := Rescale(shares, 1.0 / totalFixed);
      totalFixed := 1.0;
    }
    assert shares == Awal(fixed);
    var residue := 1.0 - totalFixed;
    var asaba: Record;
    shares, asaba, residue := DistributeResidue(inputs, shares, residue);
    assert Settlement(shares, asaba, residue) == Settle(inputs, gender);
    results := ResultRows(inputs, Settlement(shares, asaba, residue));
  }

  /** The prescribed shares, filled in the engine's order: spouse, father, mother, daughters, maternal siblings, full sisters. */
  method PrescribedShares(inputs: HeirQuantities, gender: Gender) returns (shares: Record)
    ensures shares == FixedShares(inputs, gender)
  {
    var hasDescendants := Count(inputs, Sons) > 0 || Count(inputs, Daughters) > 0
      || Count(inputs, Grandsons) > 0 || Count(inputs, Granddaughters) > 0;
    var maleDescendants := Count(inputs, Sons) > 0 || Count(inputs, Grandsons) > 0;
    var totalSiblings := Count(inputs, FullBrothers) + Count(inputs, FullSisters)
      + Count(inputs, PaternalBrothers) + Count(inputs, PaternalSisters)
      + Count(inputs, MaternalBrothers) + Count(inputs, MaternalSisters);
    shares := Empty;
    shares := AddSpouse(inputs, gender, hasDescendants, shares);
    shares := AddFather(inputs, hasDescendants, maleDescendants, shares);
    shares := AddMother(inputs, hasDescendants, totalSiblings, shares);
    shares := AddDaughters(inputs, shares);
    shares := AddMaternalSiblings(inputs, hasDescendants, shares);
    shares := AddFullSisters(inputs, shares);
  }

  /** Steps 1 and 2: the husband's share for a deceased woman, the wives' for a deceased man. */
  method AddSpouse(inputs: HeirQuantities, gender: Gender, hasDescendants: bool, r: Record) returns (shares: Record)
    requires Valid(r) && hasDescendants == HasDescendants(inputs)
    ensures shares == WithSpouse(inputs, gender, r)
  {
    shares := r;
    if gender == Female && Count(inputs, Husband) != 0 {
      shares := Put(shares, Husband, if hasDescendants then 1.0 / 4.0 else 1.0 / 2.0);
    }
    if gender == Male && Count(inputs, Wives) > 0 {
      shares := Put(shares, Wives, if hasDescendants then 1.0 / 8.0 else 1.0 / 4.0);
    }
  }

  /** Step 3: the father's entry. */
  method AddFather(inputs: HeirQuantities, hasDescendants: bool, maleDescendants: bool, r: Record) returns (shares: Record)
    requires Valid(r) && hasDescendants == HasDescendants(inputs) && maleDescendants == MaleDescendants(inputs)
    ensures shares == WithFather(inputs, r)
  {
    shares := r;
    if Count(inputs, Father) > 0 {
      if maleDescendants {
        shares := Put(shares, Father, 1.0 / 6.0);
      } else if hasDescendants {
        shares := Put(shares, Father, 1.0 / 6.0);
      } else {
        shares := Put(shares, Father, 0.0);
      }
    }
  }

  /** Step 4: the mother's share. */
  method AddMother(inputs: HeirQuantities, hasDescendants: bool, totalSiblings: nat, r: Record) returns (shares: Record)
    requires Valid(r) && hasDescendants == HasDescendants(inputs) && totalSiblings == TotalSiblings(inputs)
    ensures shares == WithMother(inputs, r)
  {
    shares := r;
    if Count(inputs, Mother) > 0 {
      if hasDescendants || totalSiblings >= 2 {
        shares := Put(shares, Mother, 1.0 / 6.0);
      } else {
        shares := Put(shares, Mother, 1.0 / 3.0);
      }
    }
  }

  /** Step 5: the daughters' share when there is no son. */
  method AddDaughters(inputs: HeirQuantities, r: Record) returns (shares: Record)
    requires Valid(r)
    ensures shares == WithDaughters(inputs, r)
  {
    shares := r;
    if Count(inputs, Daughters) > 0 && Count(inputs, Sons) == 0 {
      shares := Put(shares, Daughters, if Count(inputs, Daughters) == 1 then 1.0 / 2.0 else 2.0 / 3.0);
    }
  }

  /** Step 6: the maternal siblings' shares, unless blocked. */
  method AddMaternalSiblings(inputs: HeirQuantities, hasDescendants: bool, r: Record) returns (shares: Record)
    requires Valid(r) && hasDescendants == HasDescendants(inputs)
    ensures shares == WithMaternalSiblings(inputs, r)
  {
    shares := r;
    var maternalBlocked := Count(inputs, Father) > 0 || Count(inputs, Grandfather) > 0 || hasDescendants;
    if !maternalBlocked {
      var brothers, sisters := Count(inputs, MaternalBrothers), Count(inputs, MaternalSisters);
      var totalMaternals := brothers + sisters;
      if totalMaternals == 1 {
        if brothers != 0 {
          shares := Put(shares, MaternalBrothers, 1.0 / 6.0);
        }
        if sisters != 0 {
          shares := Put(shares, MaternalSisters, 1.0 / 6.0);
        }
      } else if totalMaternals > 1 {
        var share := 1.0 / 3.0;
        if brothers != 0 {
          shares := Put(shares, MaternalBrothers, share * (brothers as real / totalMaternals as real));
        }
        if sisters != 0 {
          shares := Put(shares, MaternalSisters, share * (sisters as real / totalMaternals as real));
        }
      }
    }
  }

  /** Step 7: the full sisters' share, unless blocked or beside a full brother. */
  method AddFullSisters(inputs: HeirQuantities, r: Record) returns (shares: Record)
    requires Valid(r)
    ensures shares == WithFullSisters(inputs, r)
  {
    shares := r;
    var fullSistersBlocked := Count(inputs, Sons) > 0 || Count(inputs, Grandsons) > 0 || Count(inputs, Father) > 0;
    if !fullSistersBlocked && Count(inputs, FullSisters) > 0 && Count(inputs, FullBrothers) == 0 {
      shares := Put(shares, FullSisters, if Count(inputs, FullSisters) == 1 then 1.0 / 2.0 else 2.0 / 3.0);
    }
  }

  /** `Object.values(shares).forEach(s => totalFixed += s)`: the sum of the table, added in key order. */
  method TotalOf(shares: Record) returns (total: real)
    ensures total == Sum(shares)
  {
    total := 0.0;
    var i := 0;
    while i < |shares.keys|
      invariant 0 <= i <= |shares.keys|
      invariant total == SumOf(shares.keys[..i], shares)
    {
      assert shares.keys[..i + 1][..i] == shares.keys[..i];
      total := total + Get(shares, shares.keys[i]);
      i := i + 1;
    }
    assert shares.keys[..i] == shares.keys;
  }

  /** `Object.keys(shares).forEach(k => shares[k] *= factor)`: every entry multiplied in place. */
  method Rescale(before: Record, factor: real) returns (shares: Record)
    requires Valid(before)
    ensures shares == Scale(before, factor)
  {
    shares := before;
    ghost var target := Scale(before, factor);
    var j := 0;
    while j < |before.keys|
      invariant 0 <= j <= |before.keys|
      invariant shares.keys == before.keys && shares.vals.Keys == before.vals.Keys
      invariant forall i :: 0 <= i < j ==> shares.vals[before.keys[i]] == target.vals[before.keys[i]]
      invariant forall i :: j <= i < |before.keys| ==> shares.vals[before.keys[i]] == before.vals[before.keys[i]]
    {
      forall i | 0 <= i < |before.keys| && i != j
        ensures before.keys[i] != before.keys[j]
      {
        DistinctAt(before.keys, i, j);
      }
      shares := ScaleEntry(shares, before.keys[j], factor);
      j := j + 1;
    }
    ScaledEverywhere(before, shares, target);
  }

  /** A table agreeing with `target` at every key of `r`, with `r`'s keys, is `target`. */
  lemma ScaledEverywhere(r: Record, shares: Record, target: Record)
    requires Valid(r) && target.keys == r.keys && target.vals.Keys == r.vals.Keys
    requires shares.keys == r.keys && shares.vals.Keys == r.vals.Keys
    requires forall i :: 0 <= i < |r.keys| ==> shares.vals[r.keys[i]] == target.vals[r.keys[i]]
    ensures shares == target
  {
    forall k | k in shares.vals
      ensures shares.vals[k] == target.vals[k]
    {
      var i :| 0 <= i < |r.keys| && r.keys[i] == k;
    }
    assert shares.vals == target.vals;
  }

  /** The residuary branches: the first class present takes a positive residue, which then drops to 0. */
  method DistributeResidue(inputs: HeirQuantities, fixed: Record, residue0: real)
    returns (shares: Record, asaba: Record, residue: real)
    requires Valid(fixed)
    ensures Settlement(shares, asaba, residue) == Distribute(inputs, fixed, residue0)
  {
    shares, asaba, residue := fixed, Empty, residue0;
    if residue > 0.0 {
      if Count(inputs, Sons) > 0 {
        asaba := SplitResidue(Sons, Count(inputs, Sons), Daughters, Count(inputs, Daughters), residue);
        residue := 0.0;
        assert Settlement(shares, asaba, residue) == Distribute(inputs, fixed, residue0);
      } else if Count(inputs, Father) > 0 {
        asaba := Put(asaba, Father, Get(shares, Father) + residue);
        shares := Delete(shares, Father);
        residue := 0.0;
        assert Settlement(shares, asaba, residue) == Distribute(inputs, fixed, residue0);
      } else if Count(inputs, Grandfather) > 0 {
        asaba := Put(asaba, Grandfather, residue);
        residue := 0.0;
        assert Settlement(shares, asaba, residue) == Distribute(inputs, fixed, residue0);
      } else if Count(inputs, FullBrothers) > 0 {
        asaba := SplitResidue(FullBrothers, Count(inputs, FullBrothers), FullSisters, Count(inputs, FullSisters), residue);
        residue := 0.0;
        assert Settlement(shares, asaba, residue) == Distribute(inputs, fixed, residue0);
      }
    }
  }

  /**
   * The engine's 2:1 split of the residue: `totalParts = 2*males + females`,
   * two parts to the male kind, one to the female kind when present.
   */
  method SplitResidue(male: HeirId, males: nat, female: HeirId, females: nat, residue: real) returns (asaba: Record)
    requires males > 0 && male != female
    ensures asaba == SplitTwoToOne(male, males, female, females, residue)
  {
    asaba := Put(Empty, male, PerPart(residue, males, females) * 2.0 * males as real);
    if females != 0 {
      asaba := Put(asaba, female, PerPart(residue, males, females) * females as real);
    }
    SameEntries(asaba, SplitTwoToOne(male, males, female, females, residue));
  }

  /** `allHeirIds.forEach(...)`: one row per input key with a share, or blocked when present without one. */
  method ResultRows(inputs: HeirQuantities, s: Settlement) returns (results: seq<CalculationResult>)
    ensures results == Results(inputs.keys, inputs, s)
  {
    results := [];
    var allHeirIds := inputs.keys;
    var n := 0;
    while n < |allHeirIds|
      invariant 0 <= n <= |allHeirIds|
      invariant results == Results(allHeirIds[..n], inputs, s)
    {
      var id := allHeirIds[n];
      var fixedShare := Get(s.shares, id);
      var asabaShare := Get(s.asaba, id);
      var totalShare := fixedShare + asabaShare;
      ghost var row := ResultFor(id, Count(inputs, id), s);
      ResultsStep(allHeirIds, n, inputs, s);
      assert totalShare == TotalShare(s, id);
      if totalShare > 0.0 {
        var fraction := FormatFraction(totalShare);
        assert row == [CalculationResult(id, fraction, totalShare * 100.0, false, None)];
        results := results + [CalculationResult(id, fraction, totalShare * 100.0, false, None)];
      } else if Count(inputs, id) > 0 {
        assert row == [CalculationResult(id, Zero, 0.0, true, Some(BlockedLabel))];
        results := results + [CalculationResult(id, Zero, 0.0, true, Some(BlockedLabel))];
      } else {
        assert row == [];
        assert results == results + row;
      }
      n := n + 1;
    }
    assert allHeirIds[..n] == allHeirIds;
  }

  /** One more key adds that key's rows, if any, at the end. */
  lemma ResultsStep(ids: seq<HeirId>, n: nat, inputs: HeirQuantities, s: Settlement)
    requires n < |ids|
    ensures Results(ids[..n + 1], inputs, s) == Results(ids[..n], inputs, s) + ResultFor(ids[n], Count(inputs, ids[n]), s)
  {
    assert ids[..n + 1][..n] == ids[..n];
  }
}
