/**
 * The share engine as functions of its input, stage by stage: derived
 * predicates, prescribed (fixed) shares, the 'Awal reduction, residuary
 * distribution, and the per-key result list.
 */
module Meeras {
  import opened Heirs
  import opened Quantities
  import opened Records
  import opened Fractions

  /* ---------- derived predicates ---------- */

  predicate HasDescendants(inputs: HeirQuantities) {
    Count(inputs, Sons) > 0 || Count(inputs, Daughters) > 0
    || Count(inputs, Grandsons) > 0 || Count(inputs, Granddaughters) > 0
  }

  predicate MaleDescendants(inputs: HeirQuantities) {
    Count(inputs, Sons) > 0 || Count(inputs, Grandsons) > 0
  }

  /** Siblings of every kind, counted for the mother's share. */
  function TotalSiblings(inputs: HeirQuantities): (n: nat) {
    Count(inputs, FullBrothers) + Count(inputs, FullSisters)
    + Count(inputs, PaternalBrothers) + Count(inputs, PaternalSisters)
    + Count(inputs, MaternalBrothers) + Count(inputs, MaternalSisters)
  }

  /** Maternal siblings are excluded by a father, a grandfather or any descendant. */
  predicate MaternalBlocked(inputs: HeirQuantities) {
    Count(inputs, Father) > 0 || Count(inputs, Grandfather) > 0 || HasDescendants(inputs)
  }

  /** Full sisters lose their fixed share to a son, a grandson or the father. */
  predicate FullSistersBlocked(inputs: HeirQuantities) {
    Count(inputs, Sons) > 0 || Count(inputs, Grandsons) > 0 || Count(inputs, Father) > 0
  }

  /** 1/2 for a single daughter or sister, 2/3 for two or more. */
  function HalfOrTwoThirds(count: nat): (v: real) {
    if count == 1 then 1.0 / 2.0 else 2.0 / 3.0
  }

  /* ---------- prescribed shares, in the order the engine fills them ---------- */

  /** Husband (deceased female) and wives (deceased male, one collective share). */
  function WithSpouse(inputs: HeirQuantities, gender: Gender, r: Record): (r': Record)
    requires Valid(r)
    ensures Valid(r')
    ensures forall x :: x != Husband && x != Wives ==> Get(r', x) == Get(r, x) && (x in r'.vals <==> x in r.vals)
  {
    var desc := HasDescendants(inputs);
    var r1 := if gender == Female && Count(inputs, Husband) != 0
              then Put(r, Husband, if desc then 1.0 / 4.0 else 1.0 / 2.0) else r;
    if gender == Male && Count(inputs, Wives) > 0
    then Put(r1, Wives, if desc then 1.0 / 8.0 else 1.0 / 4.0) else r1
  }

  /** The father: 1/6 beside descendants, otherwise an entry of 0 (he is then purely residuary). */
  function WithFather(inputs: HeirQuantities, r: Record): (r': Record)
    requires Valid(r)
    ensures Valid(r')
    ensures forall x :: x != Father ==> Get(r', x) == Get(r, x) && (x in r'.vals <==> x in r.vals)
  {
    if Count(inputs, Father) > 0 then
      Put(r, Father,
        if MaleDescendants(inputs) then 1.0 / 6.0
        else if HasDescendants(inputs) then 1.0 / 6.0
        else 0.0)
    else r
  }

  /** The mother: 1/6 beside descendants or two or more siblings, otherwise 1/3. */
  function WithMother(inputs: HeirQuantities, r: Record): (r': Record)
    requires Valid(r)
    ensures Valid(r')
    ensures forall x :: x != Mother ==> Get(r', x) == Get(r, x) && (x in r'.vals <==> x in r.vals)
  {
    if Count(inputs, Mother) > 0 then
      Put(r, Mother, if HasDescendants(inputs) || TotalSiblings(inputs) >= 2 then 1.0 / 6.0 else 1.0 / 3.0)
    else r
  }

  /** Daughters without a son: 1/2 for one, 2/3 for more. */
  function WithDaughters(inputs: HeirQuantities, r: Record): (r': Record)
    requires Valid(r)
    ensures Valid(r')
    ensures forall x :: x != Daughters ==> Get(r', x) == Get(r, x) && (x in r'.vals <==> x in r.vals)
  {
    if Count(inputs, Daughters) > 0 && Count(inputs, Sons) == 0
    then Put(r, Daughters, HalfOrTwoThirds(Count(inputs, Daughters)))
    else r
  }

  /**
   * Maternal siblings, unless blocked: 1/6 for a single one, otherwise a pool
   * of 1/3 split by head count between brothers and sisters.
   */
  function WithMaternalSiblings(inputs: HeirQuantities, r: Record): (r': Record)
    requires Valid(r)
    ensures Valid(r')
    ensures forall x :: x != MaternalBrothers && x != MaternalSisters ==> Get(r', x) == Get(r, x) && (x in r'.vals <==> x in r.vals)
  {
    if MaternalBlocked(inputs) then r
    else
      var brothers, sisters := Count(inputs, MaternalBrothers), Count(inputs, MaternalSisters);
      var total := brothers + sisters;
      if total == 1 then
        var r1 := if brothers != 0 then Put(r, MaternalBrothers, 1.0 / 6.0) else r;
        if sisters != 0 then Put(r1, MaternalSisters, 1.0 / 6.0) else r1
      else if total > 1 then
        var share := 1.0 / 3.0;
        var r1 := if brothers != 0
                  then Put(r, MaternalBrothers, share * (brothers as real / total as real)) else r;
        if sisters != 0 then Put(r1, MaternalSisters, share * (sisters as real / total as real)) else r1
      else r
  }

  /** Full sisters without a full brother, unless blocked: 1/2 for one, 2/3 for more. */
  function WithFullSisters(inputs: HeirQuantities, r: Record): (r': Record)
    requires Valid(r)
    ensures Valid(r')
    ensures forall x :: x != FullSisters ==> Get(r', x) == Get(r, x) && (x in r'.vals <==> x in r.vals)
  {
    if !FullSistersBlocked(inputs) && Count(inputs, FullSisters) > 0 && Count(inputs, FullBrothers) == 0
    then Put(r, FullSisters, HalfOrTwoThirds(Count(inputs, FullSisters)))
    else r
  }

  /** The table of prescribed shares before any correction. */
  function FixedShares(inputs: HeirQuantities, gender: Gender): (r: Record) {
    var r := WithSpouse(inputs, gender, Empty);
    var r := WithFather(inputs, r);
    var r := WithMother(inputs, r);
    var r := WithDaughters(inputs, r);
    var r := WithMaternalSiblings(inputs, r);
    WithFullSisters(inputs, r)
  }

  /* ---------- 'Awal ---------- */

  /** When the prescribed shares exceed the estate, every one is scaled by 1/total. */
  function Awal(fixed: Record): (r: Record)
    requires Valid(fixed)
  {
    var total := Sum(fixed);
    if total > 1.0 then Scale(fixed, 1.0 / total) else fixed
  }

  /* ---------- residuary distribution ---------- */

  /** The share tables after the residue is handed out, and what is left of it. */
  datatype Settlement = Settlement(shares: Record, asaba: Record, residue: real)

  /** Some residuary class is present: sons, the father, the grandfather or full brothers. */
  predicate ResiduaryPresent(inputs: HeirQuantities) {
    Count(inputs, Sons) > 0 || Count(inputs, Father) > 0
    || Count(inputs, Grandfather) > 0 || Count(inputs, FullBrothers) > 0
  }

  /** Males take two parts and females one, from `residue` split into 2*males + females parts. */
  function SplitTwoToOne(male: HeirId, males: nat, female: HeirId, females: nat, residue: real): (r: Record)
    requires males > 0 && male != female
  {
    var perPart := PerPart(residue, males, females);
    var r := Put(Empty, male, perPart * 2.0 * males as real);
    if females != 0 then Put(r, female, perPart * females as real) else r
  }

  /** `perPart`: the size of one part when `residue` is split into `2*males + females` equal parts. */
  function PerPart(residue: real, males: nat, females: nat): (v: real)
    requires males > 0
  {
    residue / (males * 2 + females) as real
  }

  /** A positive residue goes to the first residuary class present, in priority order. */
  function Distribute(inputs: HeirQuantities, shares: Record, residue: real): (s: Settlement)
    requires Valid(shares)
  {
    if residue > 0.0 then
      if Count(inputs, Sons) > 0 then
        Settlement(shares,
          SplitTwoToOne(Sons, Count(inputs, Sons), Daughters, Count(inputs, Daughters), residue), 0.0)
      else if Count(inputs, Father) > 0 then
        Settlement(Delete(shares, Father), Put(Empty, Father, Get(shares, Father) + residue), 0.0)
      else if Count(inputs, Grandfather) > 0 then
        Settlement(shares, Put(Empty, Grandfather, residue), 0.0)
      else if Count(inputs, FullBrothers) > 0 then
        Settlement(shares,
          SplitTwoToOne(FullBrothers, Count(inputs, FullBrothers), FullSisters, Count(inputs, FullSisters), residue), 0.0)
      else Settlement(shares, Empty, residue)
    else Settlement(shares, Empty, residue)
  }

  /** 'Awal applied to a prescribed-share table, then the residue `1 - totalFixed` distributed. */
  function Resolve(inputs: HeirQuantities, fixed: Record): (s: Settlement)
    requires Valid(fixed)
  {
    var shares := Awal(fixed);
    var totalFixed := if Sum(fixed) > 1.0 then 1.0 else Sum(fixed);
    Distribute(inputs, shares, 1.0 - totalFixed)
  }

  /** The whole settlement: prescribed shares, 'Awal, residuary distribution. */
  function Settle(inputs: HeirQuantities, gender: Gender): (s: Settlement) {
    Resolve(inputs, FixedShares(inputs, gender))
  }

  /** What a key ends with: its fixed share plus its residuary share. */
  function TotalShare(s: Settlement, h: HeirId): (v: real) {
    Get(s.shares, h) + Get(s.asaba, h)
  }

  /* ---------- results ---------- */

  const BlockedLabel: string := "Higher Priority Heir"

  /** The result row for one input key: a share, a blocked row, or nothing. */
  function ResultFor(id: HeirId, count: nat, s: Settlement): (rows: seq<CalculationResult>) {
    var total := TotalShare(s, id);
    if total > 0.0 then [CalculationResult(id, Approximation(total), total * 100.0, false, None)]
    else if count > 0 then [CalculationResult(id, Zero, 0.0, true, Some(BlockedLabel))]
    else []
  }

  /** The result rows for the keys `ids`, in order. */
  function Results(ids: seq<HeirId>, inputs: HeirQuantities, s: Settlement): (rows: seq<CalculationResult>) {
    if ids == [] then []
    else
      var id := ids[|ids| - 1];
      Results(ids[..|ids| - 1], inputs, s) + ResultFor(id, Count(inputs, id), s)
  }

  /** `calculateMeeras` as a function of its input. */
  function Meeras(inputs: HeirQuantities, gender: Gender): (rows: seq<CalculationResult>) {
    Results(inputs.keys, inputs, Settle(inputs, gender))
  }

  /** The sum of the result rows' percentages. */
  function TotalPercentage(results: seq<CalculationResult>): (v: real) {
    if results == [] then 0.0
    else TotalPercentage(results[..|results| - 1]) + results[|results| - 1].percentage
  }
}
