/** Worked estates: the engine's whole output for a few concrete inputs. */
module Scenarios {
  import opened Heirs
  import opened Quantities
  import opened Records
  import opened Fractions
  import opened Meeras
  import opened FixedShareFacts
  import opened SettlementFacts

  /* ---------- a woman leaves her husband and two full sisters: 'Awal ---------- */

  /** The only heirs entered with a count are the husband and two full sisters. */
  predicate HusbandAndSisters(inputs: HeirQuantities) {
    && Count(inputs, Husband) == 1 && Count(inputs, FullSisters) == 2
    && forall h :: h != Husband && h != FullSisters ==> Count(inputs, h) == 0
  }

  /**
   * The prescribed shares 1/2 and 2/3 add up to 7/6, so both are reduced by
   * 'Awal to 3/7 and 4/7 and nothing is left.
   */
  lemma HusbandAndSistersSettle(inputs: HeirQuantities)
    requires HusbandAndSisters(inputs)
    ensures var s := Settle(inputs, Female);
      && Get(s.shares, Husband) == 3.0 / 7.0
      && Get(s.shares, FullSisters) == 4.0 / 7.0
      && s.asaba == Empty && s.residue == 0.0
  {
    assert !HasDescendants(inputs) && Count(inputs, Sons) == 0 && Count(inputs, Father) == 0;
    assert Count(inputs, Grandsons) == 0 && Count(inputs, FullBrothers) == 0;
    var f := FixedShares(inputs, Female);
    FixedSharesShape(inputs, Female);
    HusbandShare(inputs, Female);
    FullSistersShare(inputs, Female);
    assert Get(f, Husband) == 1.0 / 2.0;
    assert Get(f, FullSisters) == 2.0 / 3.0;
    SumOfPair(f, Husband, FullSisters);
    assert Sum(f) == 7.0 / 6.0;
    var a := Awal(f);
    assert a == Scale(f, 1.0 / Sum(f));
    assert 1.0 / Sum(f) == 6.0 / 7.0;
    assert Get(a, Husband) == 1.0 / 2.0 * (6.0 / 7.0);
    assert Get(a, FullSisters) == 2.0 / 3.0 * (6.0 / 7.0);
    DistributeLeftover(inputs, a, 0.0);
    assert Settle(inputs, Female) == Distribute(inputs, a, 0.0);
  }

  /** The two rows, for a form that lists the husband and then the sisters: 3/7 and 4/7. */
  lemma HusbandAndSistersRows(inputs: HeirQuantities)
    requires HusbandAndSisters(inputs) && inputs.keys == [Husband, FullSisters]
    ensures Meeras.Meeras(inputs, Female) == [
              CalculationResult(Husband, Ratio(3, 7), 300.0 / 7.0, false, None),
              CalculationResult(FullSisters, Ratio(4, 7), 400.0 / 7.0, false, None)]
  {
    var s := Settle(inputs, Female);
    HusbandAndSistersSettle(inputs);
    assert TotalShare(s, Husband) == 3.0 / 7.0 && TotalShare(s, FullSisters) == 4.0 / 7.0;
    Sevenths(3.0 / 7.0, 3);
    Sevenths(4.0 / 7.0, 4);
    var husband := CalculationResult(Husband, Ratio(3, 7), 300.0 / 7.0, false, None);
    var sisters := CalculationResult(FullSisters, Ratio(4, 7), 400.0 / 7.0, false, None);
    assert ResultFor(Husband, 1, s) == [husband];
    assert ResultFor(FullSisters, 2, s) == [sisters];
    TwoRows(inputs, s, husband, sisters);
    assert Meeras.Meeras(inputs, Female) == Results(inputs.keys, inputs, s);
  }

  /* ---------- a man leaves a wife, two sons and a daughter: the 2:1 split ---------- */

  /** The only heirs entered with a count are one wife, two sons and one daughter. */
  predicate WifeAndChildren(inputs: HeirQuantities) {
    && Count(inputs, Wives) == 1 && Count(inputs, Sons) == 2 && Count(inputs, Daughters) == 1
    && forall h :: h != Wives && h != Sons && h != Daughters ==> Count(inputs, h) == 0
  }

  /**
   * The wife takes 1/8 beside children; the remaining 7/8 is split into five
   * parts of 7/40, two per son and one for the daughter: 7/10 to the sons
   * together and 7/40 to the daughter.
   */
  lemma WifeAndChildrenSettle(inputs: HeirQuantities)
    requires WifeAndChildren(inputs)
    ensures var s := Settle(inputs, Male);
      && Get(s.shares, Wives) == 1.0 / 8.0 && Get(s.asaba, Wives) == 0.0
      && Get(s.shares, Sons) == 0.0 && Get(s.asaba, Sons) == 7.0 / 10.0
      && Get(s.shares, Daughters) == 0.0 && Get(s.asaba, Daughters) == 7.0 / 40.0
      && s.residue == 0.0
  {
    assert HasDescendants(inputs);
    var f := FixedShares(inputs, Male);
    FixedSharesShape(inputs, Male);
    WivesShare(inputs, Male);
    DaughtersShare(inputs, Male);
    assert Get(f, Wives) == 1.0 / 8.0 && Get(f, Sons) == 0.0 && Get(f, Daughters) == 0.0;
    SumOfPair(f, Wives, Sons);
    assert Sum(f) == 1.0 / 8.0;
    assert Awal(f) == f;
    FiveParts(7.0 / 8.0);
    assert Settle(inputs, Male) == Settlement(f, SplitTwoToOne(Sons, 2, Daughters, 1, 7.0 / 8.0), 0.0);
  }

  /** 7/8 split between two sons and a daughter: five parts of 7/40, giving 7/10 and 7/40. */
  lemma FiveParts(residue: real)
    requires residue == 7.0 / 8.0
    ensures var r := SplitTwoToOne(Sons, 2, Daughters, 1, residue);
      Get(r, Sons) == 7.0 / 10.0 && Get(r, Daughters) == 7.0 / 40.0
  {
    SplitTwoToOneEntries(Sons, 2, Daughters, 1, residue);
    assert PerPart(residue, 2, 1) == 7.0 / 40.0;
  }

  /** The three rows, for a form listing the wife, the sons and the daughter in that order. */
  lemma WifeAndChildrenRows(inputs: HeirQuantities)
    requires WifeAndChildren(inputs) && inputs.keys == [Wives, Sons, Daughters]
    ensures Meeras.Meeras(inputs, Male) == [
              CalculationResult(Wives, Ratio(1, 8), 12.5, false, None),
              CalculationResult(Sons, Ratio(7, 10), 70.0, false, None),
              CalculationResult(Daughters, Decimal(0.175), 17.5, false, None)]
  {
    var s := Settle(inputs, Male);
    WifeAndChildrenSettle(inputs);
    assert TotalShare(s, Wives) == 1.0 / 8.0 && TotalShare(s, Sons) == 7.0 / 10.0;
    assert TotalShare(s, Daughters) == 7.0 / 40.0;
    OneEighth(1.0 / 8.0);
    SevenTenths(7.0 / 10.0);
    SevenFortieths(7.0 / 40.0);
    var wife := CalculationResult(Wives, Ratio(1, 8), 12.5, false, None);
    var sons := CalculationResult(Sons, Ratio(7, 10), 70.0, false, None);
    var daughter := CalculationResult(Daughters, Decimal(0.175), 17.5, false, None);
    assert ResultFor(Wives, 1, s) == [wife];
    assert ResultFor(Sons, 2, s) == [sons];
    assert ResultFor(Daughters, 1, s) == [daughter];
    ThreeRows(inputs, s, wife, sons, daughter);
    assert Meeras.Meeras(inputs, Male) == Results(inputs.keys, inputs, s);
  }

  /** 1/8 is printed as 1/8. */
  lemma OneEighth(val: real)
    requires val == 1.0 / 8.0
    ensures Approximation(val) == Ratio(1, 8)
  {
    forall e | 1 <= e < 8
      ensures !IntegralMultiple(val, e)
    {
      assert e in {1, 2, 3, 4, 5, 6, 7};
    }
    ApproximationOfRatio(val, 1, 8);
  }

  /** 7/10 is printed as 7/10. */
  lemma SevenTenths(val: real)
    requires val == 7.0 / 10.0
    ensures Approximation(val) == Ratio(7, 10)
  {
    forall e | 1 <= e < 10
      ensures !IntegralMultiple(val, e)
    {
      assert e in {1, 2, 3, 4, 5, 6, 7, 8, 9};
    }
    ApproximationOfRatio(val, 7, 10);
  }

  /**
   * 7/40 needs a denominator above 24, and no smaller one comes within the
   * tolerance, so it is printed as a decimal.
   */
  lemma SevenFortieths(val: real)
    requires val == 7.0 / 40.0
    ensures Approximation(val) == Decimal(0.175)
  {
    forall d | 1 <= d <= MaxDenominator
      ensures !Fits(val, d)
    {
      NoFitFortieths(d);
    }
  }

  /** Seven fortieths times d lies at least 1/40 away from every whole number when d <= 24. */
  lemma NoFitFortieths(d: int)
    requires 1 <= d <= MaxDenominator
    ensures !Fits(7.0 / 40.0, d)
  {
    var n := Numerator(7.0 / 40.0, d);
    assert 7 * d != 40 * n;
    var gap := 7 * d - 40 * n;
    assert 7.0 / 40.0 * d as real - n as real == gap as real / 40.0;
    assert Abs(gap as real) >= 1.0;
  }

  /** The rows for a form listing three keys, each of which gets one row. */
  lemma ThreeRows(inputs: HeirQuantities, s: Settlement, first: CalculationResult, second: CalculationResult, third: CalculationResult)
    requires |inputs.keys| == 3
    requires ResultFor(inputs.keys[0], Count(inputs, inputs.keys[0]), s) == [first]
    requires ResultFor(inputs.keys[1], Count(inputs, inputs.keys[1]), s) == [second]
    requires ResultFor(inputs.keys[2], Count(inputs, inputs.keys[2]), s) == [third]
    ensures Results(inputs.keys, inputs, s) == [first, second, third]
  {
    var ks := inputs.keys;
    assert ks[..2][..1][..0] == [] && ks[..2][..1] == ks[..1];
    assert Results(ks[..1], inputs, s) == [] + [first];
    assert Results(ks[..2], inputs, s) == [first] + [second];
    assert [first] + [second] + [third] == [first, second, third];
  }

  /* ---------- a man leaves his father and mother: the father as residuary ---------- */

  /** The only heirs entered with a count are the father and the mother. */
  predicate Parents(inputs: HeirQuantities) {
    && Count(inputs, Father) == 1 && Count(inputs, Mother) == 1
    && forall h :: h != Father && h != Mother ==> Count(inputs, h) == 0
  }

  /**
   * Without descendants or siblings the mother takes 1/3; the father's
   * prescribed entry is 0, and he takes the remaining 2/3 as residuary, his
   * prescribed entry being removed.
   */
  lemma ParentsSettle(inputs: HeirQuantities)
    requires Parents(inputs)
    ensures var s := Settle(inputs, Male);
      && Get(s.shares, Mother) == 1.0 / 3.0 && Get(s.asaba, Mother) == 0.0
      && Father !in s.shares.vals && Get(s.asaba, Father) == 2.0 / 3.0
      && s.residue == 0.0
  {
    var f := FixedShares(inputs, Male);
    ParentsFixed(inputs);
    ResolveWithinEstate(inputs, f);
    assert 1.0 - Sum(f) == 2.0 / 3.0;
    FatherBranch(inputs, f, 2.0 / 3.0);
  }

  /** The prescribed table for the parents: the father's entry 0, the mother's 1/3, nothing else. */
  lemma ParentsFixed(inputs: HeirQuantities)
    requires Parents(inputs)
    ensures var f := FixedShares(inputs, Male);
      && Valid(f) && Get(f, Father) == 0.0 && Get(f, Mother) == 1.0 / 3.0
      && Sum(f) == 1.0 / 3.0 && Awal(f) == f
  {
    assert !HasDescendants(inputs) && TotalSiblings(inputs) == 0;
    var f := FixedShares(inputs, Male);
    FixedSharesShape(inputs, Male);
    FatherShare(inputs, Male);
    MotherShare(inputs, Male);
    SumOfPair(f, Father, Mother);
  }

  /** The two rows, for a form listing the father and then the mother: 2/3 and 1/3. */
  lemma ParentsRows(inputs: HeirQuantities)
    requires Parents(inputs) && inputs.keys == [Father, Mother]
    ensures Meeras.Meeras(inputs, Male) == [
              CalculationResult(Father, Ratio(2, 3), 200.0 / 3.0, false, None),
              CalculationResult(Mother, Ratio(1, 3), 100.0 / 3.0, false, None)]
  {
    var s := Settle(inputs, Male);
    ParentsSettle(inputs);
    ParentsResults(inputs, s);
    assert Meeras.Meeras(inputs, Male) == Results(inputs.keys, inputs, s);
  }

  /** The rows for the father's 2/3 and the mother's 1/3. */
  lemma ParentsResults(inputs: HeirQuantities, s: Settlement)
    requires inputs.keys == [Father, Mother] && Count(inputs, Father) == 1 && Count(inputs, Mother) == 1
    requires TotalShare(s, Father) == 2.0 / 3.0 && TotalShare(s, Mother) == 1.0 / 3.0
    ensures Results(inputs.keys, inputs, s) == [
              CalculationResult(Father, Ratio(2, 3), 200.0 / 3.0, false, None),
              CalculationResult(Mother, Ratio(1, 3), 100.0 / 3.0, false, None)]
  {
    Thirds(2.0 / 3.0, 2);
    Thirds(1.0 / 3.0, 1);
    var father := CalculationResult(Father, Ratio(2, 3), 200.0 / 3.0, false, None);
    var mother := CalculationResult(Mother, Ratio(1, 3), 100.0 / 3.0, false, None);
    assert ResultFor(Father, 1, s) == [father];
    assert ResultFor(Mother, 1, s) == [mother];
    TwoRows(inputs, s, father, mother);
  }

  /** One or two thirds are printed over 3. */
  lemma Thirds(val: real, p: int)
    requires p in {1, 2} && val == p as real / 3.0
    ensures Approximation(val) == Ratio(p, 3)
  {
    forall e | 1 <= e < 3
      ensures !IntegralMultiple(val, e)
    {
      assert e in {1, 2};
    }
    ApproximationOfRatio(val, p, 3);
  }

  /* ---------- a mother alone: the residue is not returned ---------- */

  /** The only heir entered with a count is the mother. */
  predicate MotherAlone(inputs: HeirQuantities) {
    Count(inputs, Mother) == 1 && forall h :: h != Mother ==> Count(inputs, h) == 0
  }

  /**
   * The mother takes 1/3 and no residuary heir is present, so 2/3 stays
   * undistributed: her row reads 1/3 and the percentages add up to 33 1/3,
   * not 100.
   */
  lemma MotherAloneRows(inputs: HeirQuantities)
    requires MotherAlone(inputs) && inputs.keys == [Mother]
    ensures Meeras.Meeras(inputs, Female) == [CalculationResult(Mother, Ratio(1, 3), 100.0 / 3.0, false, None)]
    ensures Settle(inputs, Female).residue == 2.0 / 3.0
  {
    var s := Settle(inputs, Female);
    MotherAloneSettle(inputs);
    Thirds(1.0 / 3.0, 1);
    assert inputs.keys[..0] == [];
    assert Results(inputs.keys, inputs, s) == [] + ResultFor(Mother, 1, s);
  }

  /** For a mother alone, nothing is distributed: 2/3 of the estate is left over. */
  lemma MotherAloneSettle(inputs: HeirQuantities)
    requires MotherAlone(inputs)
    ensures var s := Settle(inputs, Female);
      s.residue == 2.0 / 3.0 && TotalShare(s, Mother) == 1.0 / 3.0
  {
    var f := FixedShares(inputs, Female);
    MotherAloneFixed(inputs);
    MotherAloneNoResiduary(inputs);
    UndistributedResolve(inputs, f);
  }

  /** A mother alone has no descendants, no siblings and no residuary heir beside her. */
  lemma MotherAloneNoResiduary(inputs: HeirQuantities)
    requires MotherAlone(inputs)
    ensures !HasDescendants(inputs) && TotalSiblings(inputs) == 0 && !ResiduaryPresent(inputs)
  {
  }

  /** The prescribed table for a mother alone: her 1/3 and nothing else. */
  lemma MotherAloneFixed(inputs: HeirQuantities)
    requires MotherAlone(inputs)
    ensures var f := FixedShares(inputs, Female);
      && Valid(f) && Get(f, Mother) == 1.0 / 3.0 && Get(f, Father) == 0.0
      && Sum(f) == 1.0 / 3.0 && Awal(f) == f
  {
    MotherAloneNoResiduary(inputs);
    var f := FixedShares(inputs, Female);
    FixedSharesShape(inputs, Female);
    MotherShare(inputs, Female);
    SumOfPair(f, Mother, Father);
  }

  /* ---------- grandsons alone: outside the handled heirs ---------- */

  /** The only heirs entered with a count are grandsons. */
  predicate GrandsonsAlone(inputs: HeirQuantities) {
    Count(inputs, Grandsons) > 0 && forall h :: h != Grandsons ==> Count(inputs, h) == 0
  }

  /**
   * Grandsons get no prescribed share and are not among the residuary
   * classes the engine serves, so their row is blocked and the whole estate
   * stays undistributed.
   */
  lemma GrandsonsAloneRows(inputs: HeirQuantities)
    requires GrandsonsAlone(inputs) && inputs.keys == [Grandsons]
    ensures Meeras.Meeras(inputs, Male) == [CalculationResult(Grandsons, Zero, 0.0, true, Some(BlockedLabel))]
    ensures Settle(inputs, Male).residue == 1.0
  {
    var f := FixedShares(inputs, Male);
    FixedSharesShape(inputs, Male);
    assert f.vals == map[];
    SumOfPair(f, Husband, Wives);
    assert Awal(f) == f;
    DistributeLeftover(inputs, f, 1.0);
    var s := Settlement(f, Empty, 1.0);
    assert Settle(inputs, Male) == s;
    assert inputs.keys[..0] == [];
    assert Results(inputs.keys, inputs, s) == [] + ResultFor(Grandsons, Count(inputs, Grandsons), s);
  }

  /** The rows for a form listing two keys are the row for the first and then the row for the second. */
  lemma TwoRows(inputs: HeirQuantities, s: Settlement, first: CalculationResult, second: CalculationResult)
    requires |inputs.keys| == 2
    requires ResultFor(inputs.keys[0], Count(inputs, inputs.keys[0]), s) == [first]
    requires ResultFor(inputs.keys[1], Count(inputs, inputs.keys[1]), s) == [second]
    ensures Results(inputs.keys, inputs, s) == [first, second]
  {
    var ks := inputs.keys;
    assert ks[..1][..0] == [];
    assert Results(ks[..1], inputs, s) == [] + [first];
    assert [] + [first] + [second] == [first, second];
  }

  /** A whole number of sevenths, not a multiple of 7, is printed over 7. */
  lemma Sevenths(val: real, p: int)
    requires p in {3, 4} && val == p as real / 7.0
    ensures Approximation(val) == Ratio(p, 7)
  {
    forall e | 1 <= e < 7
      ensures !IntegralMultiple(val, e)
    {
      assert e in {1, 2, 3, 4, 5, 6};
    }
    ApproximationOfRatio(val, p, 7);
  }
}
