/** What the result list says: which ids get a row, in which order, and what the percentages add up to. */
module ResultFacts {
  import opened Heirs
  import opened Quantities
  import opened Records
  import opened Fractions
  import opened Meeras
  import opened FixedShareFacts
  import opened SettlementFacts

  /** The ids of a list of result rows, in order. */
  function Names(rows: seq<CalculationResult>): (ids: seq<HeirId>) {
    seq(|rows|, i requires 0 <= i < |rows| => rows[i].heirName)
  }

  /**
   * The ids of `ids`, in order, that get a row: those with a share, and those
   * entered with a count but left without one.
   */
  function Shown(ids: seq<HeirId>, inputs: HeirQuantities, s: Settlement): (shown: seq<HeirId>)
    ensures |shown| <= |ids|
    ensures forall h :: h in shown <==> h in ids && (TotalShare(s, h) > 0.0 || Count(inputs, h) > 0)
    ensures Distinct(ids) ==> Distinct(shown)
  {
    if ids == [] then []
    else
      var n := |ids| - 1;
      var rest := Shown(ids[..n], inputs, s);
      assert forall h :: h in ids <==> h in ids[..n] || h == ids[n];
      var shown := TotalShare(s, ids[n]) > 0.0 || Count(inputs, ids[n]) > 0;
      assert Distinct(ids) ==> Distinct(rest) && (shown ==> Distinct(rest + [ids[n]])) by {
        if Distinct(ids) {
          DistinctInit(ids);
          if shown {
            DistinctSnoc(rest, ids[n]);
          }
        }
      }
      if shown then rest + [ids[n]] else rest
  }

  /**
   * A row as the engine builds it for its id: the row `ResultFor` gives, marked
   * blocked exactly when the id gets nothing, which happens only to an id
   * entered with a count.
   */
  predicate RowBuilt(row: CalculationResult, inputs: HeirQuantities, s: Settlement) {
    && [row] == ResultFor(row.heirName, Count(inputs, row.heirName), s)
    && (row.isBlocked <==> TotalShare(s, row.heirName) <= 0.0)
    && (row.isBlocked ==> Count(inputs, row.heirName) > 0)
  }

  /**
   * The rows come in the order of the input keys, one for each key with a
   * share or a count and none for the others.
   */
  lemma {:induction false} ResultsOrder(ids: seq<HeirId>, inputs: HeirQuantities, s: Settlement)
    ensures Names(Results(ids, inputs, s)) == Shown(ids, inputs, s)
  {
    if ids != [] {
      var n := |ids| - 1;
      var init := Results(ids[..n], inputs, s);
      var last := ResultFor(ids[n], Count(inputs, ids[n]), s);
      ResultsOrder(ids[..n], inputs, s);
      assert Results(ids, inputs, s) == init + last;
      NamesAppend(init, last);
    }
  }

  /** The ids of two row lists put together. */
  lemma NamesAppend(a: seq<CalculationResult>, b: seq<CalculationResult>)
    ensures Names(a + b) == Names(a) + Names(b)
  {
  }

  /** Every row is the one built for its id. */
  lemma {:induction false} ResultsRows(ids: seq<HeirId>, inputs: HeirQuantities, s: Settlement)
    ensures forall i :: 0 <= i < |Results(ids, inputs, s)| ==> RowBuilt(Results(ids, inputs, s)[i], inputs, s)
  {
    if ids != [] {
      var n := |ids| - 1;
      var init := Results(ids[..n], inputs, s);
      var last := ResultFor(ids[n], Count(inputs, ids[n]), s);
      ResultsRows(ids[..n], inputs, s);
      var rows := init + last;
      assert Results(ids, inputs, s) == rows;
      forall i | 0 <= i < |rows|
        ensures RowBuilt(rows[i], inputs, s)
      {
        if i < |init| {
          assert RowBuilt(init[i], inputs, s);
          assert rows[i] == init[i];
        } else {
          LastRowBuilt(ids[n], inputs, s);
          assert rows[i] == last[0];
        }
      }
    }
  }

  /** The row built for one id, if any, is built for that id. */
  lemma LastRowBuilt(id: HeirId, inputs: HeirQuantities, s: Settlement)
    ensures var rows := ResultFor(id, Count(inputs, id), s);
      |rows| <= 1 && (rows != [] ==> rows[0].heirName == id && RowBuilt(rows[0], inputs, s))
  {
  }

  /** Percentages add up over a concatenation of row lists. */
  lemma {:induction false} TotalPercentageAppend(a: seq<CalculationResult>, b: seq<CalculationResult>)
    ensures TotalPercentage(a + b) == TotalPercentage(a) + TotalPercentage(b)
  {
    if b == [] {
      assert a + b == a;
    } else {
      var n := |b| - 1;
      assert (a + b)[..|a + b| - 1] == a + b[..n];
      assert (a + b)[|a + b| - 1] == b[n];
      TotalPercentageAppend(a, b[..n]);
      assert TotalPercentage(b) == TotalPercentage(b[..n]) + b[n].percentage;
    }
  }

  /**
   * With non-negative share tables, the rows' percentages add up to 100
   * times the shares of the listed ids: blocked rows add 0.
   */
  lemma {:induction false} ResultsPercentage(ids: seq<HeirId>, inputs: HeirQuantities, s: Settlement)
    requires NonNegative(s.shares) && NonNegative(s.asaba)
    ensures TotalPercentage(Results(ids, inputs, s)) == (SumOf(ids, s.shares) + SumOf(ids, s.asaba)) * 100.0
  {
    if ids != [] {
      var n := |ids| - 1;
      var init := Results(ids[..n], inputs, s);
      var last := ResultFor(ids[n], Count(inputs, ids[n]), s);
      ResultsPercentage(ids[..n], inputs, s);
      TotalPercentageAppend(init, last);
      assert Get(s.shares, ids[n]) >= 0.0 && Get(s.asaba, ids[n]) >= 0.0;
      assert TotalPercentage(last) == TotalShare(s, ids[n]) * 100.0;
    }
  }

  /**
   * Only heirs entered with a count receive anything: a prescribed entry
   * goes to one of the eight prescribed-share kinds, a residuary entry to
   * one of the six residuary kinds.
   */
  lemma SettleKeys(inputs: HeirQuantities, gender: Gender)
    ensures var s := Settle(inputs, gender);
      && (forall h :: h in s.shares.vals ==> Count(inputs, h) > 0 && FixedHeir(h))
      && (forall h :: h in s.asaba.vals ==> Count(inputs, h) > 0 && ResiduaryHeir(h))
  {
    FixedSharesShape(inputs, gender);
    ResolveKeys(inputs, FixedShares(inputs, gender));
  }

  /**
   * `calculateMeeras` lists, in input order, exactly the keys entered with a
   * count, each once; a key is blocked exactly when it receives nothing, and
   * every key outside the handled kinds (grandsons, grandmothers, paternal
   * siblings, nephews, uncles, cousins) is blocked.
   */
  lemma MeerasRows(inputs: HeirQuantities, gender: Gender)
    requires WellFormed(inputs)
    ensures var rows, s := Meeras.Meeras(inputs, gender), Settle(inputs, gender);
      && (forall h :: h in Names(rows) <==> h in inputs.keys && Count(inputs, h) > 0)
      && Distinct(Names(rows))
      && (forall i :: 0 <= i < |rows| ==> (rows[i].isBlocked <==> TotalShare(s, rows[i].heirName) <= 0.0))
      && (forall i :: 0 <= i < |rows| && !FixedHeir(rows[i].heirName) && !ResiduaryHeir(rows[i].heirName) ==>
            rows[i].isBlocked)
  {
    var s := Settle(inputs, gender);
    SettleKeys(inputs, gender);
    ResultsOrder(inputs.keys, inputs, s);
    ResultsRows(inputs.keys, inputs, s);
    var rows := Meeras.Meeras(inputs, gender);
    forall i | 0 <= i < |rows| && !FixedHeir(rows[i].heirName) && !ResiduaryHeir(rows[i].heirName)
      ensures rows[i].isBlocked
    {
      var h := rows[i].heirName;
      assert Get(s.shares, h) == 0.0 && Get(s.asaba, h) == 0.0;
    }
    forall h | h in inputs.keys && TotalShare(s, h) > 0.0
      ensures Count(inputs, h) > 0
    {
      assert h in s.shares.vals || h in s.asaba.vals;
    }
  }

  /**
   * The percentages of all rows add up to 100 times what was handed out,
   * which is 100 exactly when the prescribed shares reach the estate or a
   * residuary heir takes the rest; otherwise the undistributed residue is
   * missing from the total.
   */
  lemma MeerasPercentage(inputs: HeirQuantities, gender: Gender)
    requires WellFormed(inputs)
    ensures var s := Settle(inputs, gender);
      TotalPercentage(Meeras.Meeras(inputs, gender)) == (1.0 - s.residue) * 100.0
    ensures TotalPercentage(Meeras.Meeras(inputs, gender)) == 100.0 <==>
              Sum(FixedShares(inputs, gender)) >= 1.0 || ResiduaryPresent(inputs)
  {
    var s := Settle(inputs, gender);
    SettleTotals(inputs, gender);
    SettleKeys(inputs, gender);
    ResultsPercentage(inputs.keys, inputs, s);
    SumOfCover(inputs.keys, s.shares);
    SumOfCover(inputs.keys, s.asaba);
  }
}
