/** Heir categories, the deceased's gender and the shape of one calculation result. */
module Heirs {
  import opened Fractions

  datatype Option<T> = None | Some(value: T)

  /** The 29 heir categories of the catalogue, numbered in catalogue order. */
  newtype HeirId = i: int | 0 <= i < 29

  const Husband: HeirId := 0
  const Wives: HeirId := 1
  const Sons: HeirId := 2
  const Daughters: HeirId := 3
  const Father: HeirId := 4
  const Mother: HeirId := 5
  const Grandsons: HeirId := 6
  const Granddaughters: HeirId := 7
  const Grandfather: HeirId := 8
  const PaternalGrandmother: HeirId := 9
  const MaternalGrandmother: HeirId := 10
  const FullBrothers: HeirId := 11
  const FullSisters: HeirId := 12
  const PaternalBrothers: HeirId := 13
  const PaternalSisters: HeirId := 14
  const MaternalBrothers: HeirId := 15
  const MaternalSisters: HeirId := 16
  const FullNephews: HeirId := 17
  const PaternalNephews: HeirId := 18
  const FullNephewSons: HeirId := 19
  const PaternalNephewSons: HeirId := 20
  const FullPaternalUncles: HeirId := 21
  const PaternalPaternalUncles: HeirId := 22
  const FullCousins: HeirId := 23
  const PaternalCousins: HeirId := 24
  const FullCousinSons: HeirId := 25
  const PaternalCousinSons: HeirId := 26
  const FullCousinGrandsons: HeirId := 27
  const PaternalCousinGrandsons: HeirId := 28

  datatype Gender = Male | Female

  /** The catalogue in its declared order; the input form fills its keys in this order. */
  const Catalogue: seq<HeirId> := [
    Husband, Wives, Sons, Daughters, Father, Mother,
    Grandsons, Granddaughters,
    Grandfather, PaternalGrandmother, MaternalGrandmother,
    FullBrothers, FullSisters, PaternalBrothers, PaternalSisters,
    MaternalBrothers, MaternalSisters,
    FullNephews, PaternalNephews, FullNephewSons, PaternalNephewSons,
    FullPaternalUncles, PaternalPaternalUncles, FullCousins, PaternalCousins,
    FullCousinSons, PaternalCousinSons, FullCousinGrandsons, PaternalCousinGrandsons
  ]

  /** Singular categories (at most one such relative) versus plural ones. */
  predicate IsPlural(h: HeirId) {
    !(h in {Husband, Father, Mother, Grandfather, PaternalGrandmother, MaternalGrandmother})
  }

  /** Positions `i` and `j` of `ks` hold different ids. */
  predicate Differ(ks: seq<HeirId>, i: int, j: int)
    requires 0 <= i < |ks| && 0 <= j < |ks|
  {
    ks[i] != ks[j]
  }

  /** No id is listed twice. */
  predicate Distinct(ks: seq<HeirId>) {
    forall i, j :: 0 <= i < j < |ks| ==> Differ(ks, i, j)
  }

  /** Two different positions of a distinct list hold different ids. */
  lemma DistinctAt(ks: seq<HeirId>, i: int, j: int)
    requires Distinct(ks) && 0 <= i < |ks| && 0 <= j < |ks| && i != j
    ensures ks[i] != ks[j]
  {
    if i < j {
      assert Differ(ks, i, j);
    } else {
      assert Differ(ks, j, i);
    }
  }

  /** A distinct list without its last id is distinct and does not hold that id. */
  lemma DistinctInit(ks: seq<HeirId>)
    requires Distinct(ks) && ks != []
    ensures Distinct(ks[..|ks| - 1]) && ks[|ks| - 1] !in ks[..|ks| - 1]
  {
    var n := |ks| - 1;
    var init := ks[..n];
    forall i, j | 0 <= i < j < n
      ensures Differ(init, i, j)
    {
      assert Differ(ks, i, j);
    }
    forall i | 0 <= i < n
      ensures init[i] != ks[n]
    {
      assert Differ(ks, i, n);
    }
  }

  /** An id not yet in a distinct list can be added at its end. */
  lemma DistinctSnoc(ks: seq<HeirId>, k: HeirId)
    requires Distinct(ks) && k !in ks
    ensures Distinct(ks + [k])
  {
    var ks' := ks + [k];
    forall i, j | 0 <= i < j < |ks'|
      ensures Differ(ks', i, j)
    {
      if j < |ks| {
        assert Differ(ks, i, j);
      } else {
        assert ks'[i] == ks[i];
      }
    }
  }

  /** One row of the engine's output. */
  datatype CalculationResult = CalculationResult(
    heirName: HeirId,
    shareFraction: Fraction,
    percentage: real,
    isBlocked: bool,
    blockedBy: Option<string>)

  /** Where a category stands in the catalogue. */
  function CataloguePosition(h: HeirId): (i: nat)
    ensures i < |Catalogue| && Catalogue[i] == h
  {
    EntryPosition(h as nat);
    h as nat
  }

  /** Every category is in the catalogue, at the position `CataloguePosition` gives. */
  lemma CatalogueIsComplete()
    ensures |Catalogue| == 29
    ensures forall h: HeirId :: h in Catalogue
  {
    forall h: HeirId
      ensures h in Catalogue
    {
      var i := CataloguePosition(h);
    }
  }

  /** No category is listed twice. */
  lemma CatalogueIsDistinct()
    ensures Distinct(Catalogue)
  {
    forall i, j | 0 <= i < j < |Catalogue|
      ensures Differ(Catalogue, i, j)
    {
      EntryPosition(i);
      EntryPosition(j);
    }
  }

  /** The entry at position `i` is the category whose position is `i`. */
  lemma EntryPosition(i: nat)
    requires i < |Catalogue|
    ensures Catalogue[i] == i as HeirId
  {
    if i < 10 {
      assert i in {0, 1, 2, 3, 4, 5, 6, 7, 8, 9};
    } else if i < 20 {
      assert i in {10, 11, 12, 13, 14, 15, 16, 17, 18, 19};
    } else {
      assert i in {20, 21, 22, 23, 24, 25, 26, 27, 28};
    }
  }

  /**
   * The six singular categories are the husband, the father, the mother, the
   * grandfather and the two grandmothers, at positions 0, 4, 5, 8, 9 and 10.
   */
  lemma CatalogueSingulars()
    ensures forall i :: 0 <= i < |Catalogue| ==> (!IsPlural(Catalogue[i]) <==> i in {0, 4, 5, 8, 9, 10})
  {
  }
}
