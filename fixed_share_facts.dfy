/** What the prescribed-share stage guarantees, heir by heir. */
module FixedShareFacts {
  import opened Heirs
  import opened Quantities
  import opened Records
  import opened Fractions
  import opened Meeras

  /** The ids the engine can give a prescribed share to. */
  predicate FixedHeir(h: HeirId) {
    h in {Husband, Wives, Father, Mother, Daughters, MaternalBrothers, MaternalSisters, FullSisters}
  }

  /* ---------- prescribed shares ---------- */

  /**
   * The prescribed-share table is well formed: only present heirs of the
   * handled kinds appear, and every share is between 0 and 2/3.
   */
  lemma FixedSharesShape(inputs: HeirQuantities, gender: Gender)
    ensures var f := FixedShares(inputs, gender);
      && Valid(f)
      && (forall h :: h in f.vals ==> Count(inputs, h) > 0 && FixedHeir(h))
      && (forall h :: h in f.vals ==> 0.0 <= f.vals[h] <= 2.0 / 3.0)
  {
    var f := FixedShares(inputs, gender);
    FixedSharesKeys(inputs, gender);
    forall h | h in f.vals
      ensures Count(inputs, h) > 0 && FixedHeir(h) && 0.0 <= f.vals[h] <= 2.0 / 3.0
    {
      assert f.vals[h] == Get(f, h);
      if h == Husband {
        HusbandShare(inputs, gender);
      } else if h == Wives {
        WivesShare(inputs, gender);
      } else if h == Father {
        FatherShare(inputs, gender);
      } else if h == Mother {
        MotherShare(inputs, gender);
      } else if h == Daughters {
        DaughtersShare(inputs, gender);
      } else if h == FullSisters {
        FullSistersShare(inputs, gender);
      } else {
        MaternalShares(inputs, gender);
      }
    }
  }

  /** Only the eight kinds of heir with a prescribed share get an entry. */
  lemma FixedSharesKeys(inputs: HeirQuantities, gender: Gender)
    ensures Valid(FixedShares(inputs, gender))
    ensures forall h :: h in FixedShares(inputs, gender).vals ==> FixedHeir(h)
  {
    var r1 := WithSpouse(inputs, gender, Empty);
    var r2 := WithFather(inputs, r1);
    var r3 := WithMother(inputs, r2);
    var r4 := WithDaughters(inputs, r3);
    var r5 := WithMaternalSiblings(inputs, r4);
    var f := WithFullSisters(inputs, r5);
    assert f == FixedShares(inputs, gender);
    forall h | !FixedHeir(h)
      ensures h !in f.vals
    {
      assert h !in r1.vals;
      assert h !in r2.vals;
      assert h !in r3.vals;
      assert h !in r4.vals;
      assert h !in r5.vals;
    }
  }

  /**
   * The husband has a share exactly when the deceased is female and he is
   * present: 1/4 beside descendants, else 1/2.
   */
  lemma HusbandShare(inputs: HeirQuantities, gender: Gender)
    ensures var f := FixedShares(inputs, gender);
      && (Husband in f.vals <==> gender == Female && Count(inputs, Husband) > 0)
      && (Husband in f.vals ==> f.vals[Husband] == if HasDescendants(inputs) then 1.0 / 4.0 else 1.0 / 2.0)
  {
    var r1 := WithSpouse(inputs, gender, Empty);
    var r2 := WithFather(inputs, r1);
    var r3 := WithMother(inputs, r2);
    var r4 := WithDaughters(inputs, r3);
    var r5 := WithMaternalSiblings(inputs, r4);
    var r6 := WithFullSisters(inputs, r5);
    assert r6 == FixedShares(inputs, gender);
    assert Get(r2, Husband) == Get(r1, Husband) && (Husband in r2.vals <==> Husband in r1.vals);
    assert Get(r3, Husband) == Get(r2, Husband) && (Husband in r3.vals <==> Husband in r2.vals);
    assert Get(r4, Husband) == Get(r3, Husband) && (Husband in r4.vals <==> Husband in r3.vals);
    assert Get(r5, Husband) == Get(r4, Husband) && (Husband in r5.vals <==> Husband in r4.vals);
    assert Get(r6, Husband) == Get(r5, Husband) && (Husband in r6.vals <==> Husband in r5.vals);
  }

  /**
   * The wives have one collective share exactly when the deceased is male and
   * there are wives: 1/8 beside descendants, else 1/4.
   */
  lemma WivesShare(inputs: HeirQuantities, gender: Gender)
    ensures var f := FixedShares(inputs, gender);
      && (Wives in f.vals <==> gender == Male && Count(inputs, Wives) > 0)
      && (Wives in f.vals ==> f.vals[Wives] == if HasDescendants(inputs) then 1.0 / 8.0 else 1.0 / 4.0)
  {
    var r1 := WithSpouse(inputs, gender, Empty);
    var r2 := WithFather(inputs, r1);
    var r3 := WithMother(inputs, r2);
    var r4 := WithDaughters(inputs, r3);
    var r5 := WithMaternalSiblings(inputs, r4);
    var r6 := WithFullSisters(inputs, r5);
    assert r6 == FixedShares(inputs, gender);
    assert Get(r2, Wives) == Get(r1, Wives) && (Wives in r2.vals <==> Wives in r1.vals);
    assert Get(r3, Wives) == Get(r2, Wives) && (Wives in r3.vals <==> Wives in r2.vals);
    assert Get(r4, Wives) == Get(r3, Wives) && (Wives in r4.vals <==> Wives in r3.vals);
    assert Get(r5, Wives) == Get(r4, Wives) && (Wives in r5.vals <==> Wives in r4.vals);
    assert Get(r6, Wives) == Get(r5, Wives) && (Wives in r6.vals <==> Wives in r5.vals);
  }

  /**
   * The father has an entry exactly when present, worth 1/6 exactly when there
   * are descendants and 0 otherwise.
   */
  lemma FatherShare(inputs: HeirQuantities, gender: Gender)
    ensures var f := FixedShares(inputs, gender);
      && (Father in f.vals <==> Count(inputs, Father) > 0)
      && (Father in f.vals ==> f.vals[Father] == if HasDescendants(inputs) then 1.0 / 6.0 else 0.0)
  {
    var r1 := WithSpouse(inputs, gender, Empty);
    var r2 := WithFather(inputs, r1);
    var r3 := WithMother(inputs, r2);
    var r4 := WithDaughters(inputs, r3);
    var r5 := WithMaternalSiblings(inputs, r4);
    var r6 := WithFullSisters(inputs, r5);
    assert r6 == FixedShares(inputs, gender);
    assert Father !in r1.vals;
    assert Get(r3, Father) == Get(r2, Father) && (Father in r3.vals <==> Father in r2.vals);
    assert Get(r4, Father) == Get(r3, Father) && (Father in r4.vals <==> Father in r3.vals);
    assert Get(r5, Father) == Get(r4, Father) && (Father in r5.vals <==> Father in r4.vals);
    assert Get(r6, Father) == Get(r5, Father) && (Father in r6.vals <==> Father in r5.vals);
  }

  /**
   * The mother has a share exactly when present: 1/6 beside descendants or
   * two or more siblings of any kind, else 1/3.
   */
  lemma MotherShare(inputs: HeirQuantities, gender: Gender)
    ensures var f := FixedShares(inputs, gender);
      && (Mother in f.vals <==> Count(inputs, Mother) > 0)
      && (Mother in f.vals ==>
            f.vals[Mother] == if HasDescendants(inputs) || TotalSiblings(inputs) >= 2 then 1.0 / 6.0 else 1.0 / 3.0)
  {
    var r1 := WithSpouse(inputs, gender, Empty);
    var r2 := WithFather(inputs, r1);
    var r3 := WithMother(inputs, r2);
    var r4 := WithDaughters(inputs, r3);
    var r5 := WithMaternalSiblings(inputs, r4);
    var r6 := WithFullSisters(inputs, r5);
    assert r6 == FixedShares(inputs, gender);
    assert Mother !in r2.vals;
    assert Get(r4, Mother) == Get(r3, Mother) && (Mother in r4.vals <==> Mother in r3.vals);
    assert Get(r5, Mother) == Get(r4, Mother) && (Mother in r5.vals <==> Mother in r4.vals);
    assert Get(r6, Mother) == Get(r5, Mother) && (Mother in r6.vals <==> Mother in r5.vals);
  }

  /**
   * Daughters have a share exactly when there are daughters and no son: 1/2
   * for one and 2/3 for more.
   */
  lemma DaughtersShare(inputs: HeirQuantities, gender: Gender)
    ensures var f := FixedShares(inputs, gender);
      && (Daughters in f.vals <==> Count(inputs, Daughters) > 0 && Count(inputs, Sons) == 0)
      && (Daughters in f.vals ==> f.vals[Daughters] == if Count(inputs, Daughters) == 1 then 1.0 / 2.0 else 2.0 / 3.0)
  {
    var r1 := WithSpouse(inputs, gender, Empty);
    var r2 := WithFather(inputs, r1);
    var r3 := WithMother(inputs, r2);
    var r4 := WithDaughters(inputs, r3);
    var r5 := WithMaternalSiblings(inputs, r4);
    var r6 := WithFullSisters(inputs, r5);
    assert r6 == FixedShares(inputs, gender);
    assert Daughters !in r3.vals;
    assert Get(r5, Daughters) == Get(r4, Daughters) && (Daughters in r5.vals <==> Daughters in r4.vals);
    assert Get(r6, Daughters) == Get(r5, Daughters) && (Daughters in r6.vals <==> Daughters in r5.vals);
  }

  /**
   * Full sisters have a share exactly when there are full sisters and no son,
   * grandson, father or full brother: 1/2 for one and 2/3 for more.
   */
  lemma FullSistersShare(inputs: HeirQuantities, gender: Gender)
    ensures var f := FixedShares(inputs, gender);
      && (FullSisters in f.vals <==>
            && Count(inputs, FullSisters) > 0
            && Count(inputs, Sons) == 0 && Count(inputs, Grandsons) == 0
            && Count(inputs, Father) == 0 && Count(inputs, FullBrothers) == 0)
      && (FullSisters in f.vals ==>
            f.vals[FullSisters] == if Count(inputs, FullSisters) == 1 then 1.0 / 2.0 else 2.0 / 3.0)
  {
    var r1 := WithSpouse(inputs, gender, Empty);
    var r2 := WithFather(inputs, r1);
    var r3 := WithMother(inputs, r2);
    var r4 := WithDaughters(inputs, r3);
    var r5 := WithMaternalSiblings(inputs, r4);
    var r6 := WithFullSisters(inputs, r5);
    assert r6 == FixedShares(inputs, gender);
    assert FullSisters !in r5.vals;
  }

  /** What the maternal-sibling share is, for the two values that describe it. */
  predicate MaternalSplit(inputs: HeirQuantities, r: Record) {
    var brothers, sisters := Count(inputs, MaternalBrothers), Count(inputs, MaternalSisters);
    var blocked := MaternalBlocked(inputs);
    && (MaternalBrothers in r.vals <==> !blocked && brothers > 0)
    && (MaternalSisters in r.vals <==> !blocked && sisters > 0)
    && Get(r, MaternalBrothers) + Get(r, MaternalSisters) ==
         (if blocked || brothers + sisters == 0 then 0.0
          else if brothers + sisters == 1 then 1.0 / 6.0
          else 1.0 / 3.0)
    && Get(r, MaternalBrothers) * sisters as real == Get(r, MaternalSisters) * brothers as real
    && 0.0 <= Get(r, MaternalBrothers) && 0.0 <= Get(r, MaternalSisters)
  }

  /**
   * Maternal siblings get nothing beside a father, a grandfather or a
   * descendant. Otherwise brothers and sisters together get 1/6 when there is
   * one of them and 1/3 when there are more, split equally per head whatever
   * the sex; each kind has an entry exactly when it is present.
   */
  lemma MaternalShares(inputs: HeirQuantities, gender: Gender)
    ensures MaternalSplit(inputs, FixedShares(inputs, gender))
  {
    var r4 := WithDaughters(inputs, WithMother(inputs, WithFather(inputs, WithSpouse(inputs, gender, Empty))));
    var r5 := WithMaternalSiblings(inputs, r4);
    var f := WithFullSisters(inputs, r5);
    assert f == FixedShares(inputs, gender);
    assert MaternalBrothers !in r4.vals && MaternalSisters !in r4.vals;
    MaternalStep(inputs, r4);
    MaternalSplitFrame(inputs, r5, f);
  }

  /** The maternal-sibling description reads only the two maternal-sibling entries. */
  lemma MaternalSplitFrame(inputs: HeirQuantities, r: Record, r': Record)
    requires Get(r', MaternalBrothers) == Get(r, MaternalBrothers) && Get(r', MaternalSisters) == Get(r, MaternalSisters)
    requires (MaternalBrothers in r'.vals <==> MaternalBrothers in r.vals) && (MaternalSisters in r'.vals <==> MaternalSisters in r.vals)
    requires MaternalSplit(inputs, r)
    ensures MaternalSplit(inputs, r')
  {
  }

  /** The maternal-sibling step, applied to a table with no maternal-sibling entry yet. */
  lemma MaternalStep(inputs: HeirQuantities, r: Record)
    requires Valid(r) && MaternalBrothers !in r.vals && MaternalSisters !in r.vals
    ensures MaternalSplit(inputs, WithMaternalSiblings(inputs, r))
  {
    var brothers, sisters := Count(inputs, MaternalBrothers), Count(inputs, MaternalSisters);
    var r' := WithMaternalSiblings(inputs, r);
    if MaternalBlocked(inputs) || brothers + sisters == 0 {
      assert r' == r;
    } else if brothers + sisters == 1 {
      assert Get(r', MaternalBrothers) == if brothers == 0 then 0.0 else 1.0 / 6.0;
      assert Get(r', MaternalSisters) == if sisters == 0 then 0.0 else 1.0 / 6.0;
    } else {
      var t := (brothers + sisters) as real;
      var b, s := (1.0 / 3.0) * (brothers as real / t), (1.0 / 3.0) * (sisters as real / t);
      assert Get(r', MaternalBrothers) == if brothers == 0 then 0.0 else b;
      assert Get(r', MaternalSisters) == if sisters == 0 then 0.0 else s;
      SplitByHead(brothers, sisters, 1.0 / 3.0);
    }
  }

  /** A pool split between two groups by head count is shared out exactly, and equally per head. */
  lemma SplitByHead(a: nat, b: nat, pool: real)
    requires a + b > 0
    ensures var t := (a + b) as real;
      && pool * (a as real / t) + pool * (b as real / t) == pool
      && pool * (a as real / t) * b as real == pool * (b as real / t) * a as real
  {
    var t := (a + b) as real;
    var ar, br := a as real, b as real;
    var x, y := ar / t, br / t;
    assert x * t == ar && y * t == br && t == ar + br;
    calc {
      (x + y) * t;
      x * t + y * t;
      ar + br;
      1.0 * t;
    }
    assert x + y == 1.0;
  }
}
