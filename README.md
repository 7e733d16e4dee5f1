# Meeras share engine in Dafny

A model of the inheritance-share engine of the Meeras calculator. The engine
takes a count per heir kind and the deceased's gender, and returns one result
row per heir kind entered with a count. It works in five steps:

1. It derives `hasDescendants`, `maleDescendants` and `totalSiblings`.
2. It fills a table of prescribed (fixed) shares in a fixed order: spouse,
   father, mother, daughters, maternal siblings, full sisters.
3. It totals the table and applies 'Awal, the pro-rata reduction, when the
   shares exceed the estate.
4. It hands the residue to the first residuary class present: sons with
   daughters, then the father, then the grandfather, then full brothers with
   full sisters.
5. It builds one row per input key that has a share or a count, in key order.
   The share is shown as a fraction with a denominator of at most 24, or as a
   decimal when none fits.

The engine fills its share tables in place, so `Engine` models it in
imperative Dafny:

- methods that build the table step by step;
- a loop that totals the table;
- a loop that rescales every entry;
- the residuary branches, including the father's delete;
- a loop that pushes the result rows.

Each method is proved to compute a specification function: the share steps,
the residuary branches and the result loop compute functions of `Meeras`, and
the totalling and rescaling loops compute `Records.Sum` and `Records.Scale`.
`Fractions.FormatFraction` is the fraction search as a loop with an early
return, proved equal to `Fractions.Approximation`. The other modules prove
what the source promises about those functions:

- `FixedShareFacts`: each prescribed share, heir by heir, as an
  if-and-only-if.
- `SettlementFacts`: 'Awal sums to 1 and keeps ratios. The 2:1 splits hand
  out exactly the residue. The residue goes to one class only, in priority
  order. The estate is conserved. Nobody is counted twice.
- `ResultFacts`: which keys get a row, in which order, and when a row is
  blocked. The percentages add up to 100 exactly when the estate is fully
  distributed.
- `Scenarios`: whole outputs for concrete estates.

Data model:

- `Heirs.HeirId` stands for the 29 heir kinds of the catalogue, numbered in
  catalogue order. `Heirs.IsPlural` and `Heirs.CatalogueSingulars` describe
  the catalogue only: the engine never reads the plural flag, which feeds the
  input form's count limit, and that limit is not part of this model.
- `Quantities.HeirQuantities` is the input record. Its keys are kept in
  iteration order, and a missing key reads as 0.
- `Records.Record` is a number-valued record. New keys go to the end, and a
  missing key reads as 0.
- `Heirs.CalculationResult` is one result row.
- `Fractions.Fraction` is the formatted share: `"0"`, `n/d`, or a decimal.

All arithmetic is exact: shares are Dafny `real`s.

## Model

| member | source | states |
|---|---|---|
| Engine.CalculateMeeras | inheritanceLogic.ts:8-146 | The whole calculation returns exactly the rows of `Meeras.Meeras`, about which ResultFacts and Scenarios prove the row order, the blocking and the totals |
| Engine.PrescribedShares | inheritanceLogic.ts:12-69 | The fixed-share table built from the derived flags is `FixedShares` |
| Engine.AddSpouse | inheritanceLogic.ts:24-31 | The husband and wives step computes `WithSpouse` |
| Engine.AddFather | inheritanceLogic.ts:34-38 | The father step computes `WithFather` |
| Engine.AddMother | inheritanceLogic.ts:41-44 | The mother step computes `WithMother` |
| Engine.AddDaughters | inheritanceLogic.ts:47-49 | The daughters step computes `WithDaughters` |
| Engine.AddMaternalSiblings | inheritanceLogic.ts:52-63 | The maternal-sibling step, with its blocking test and head-count split, computes `WithMaternalSiblings` |
| Engine.AddFullSisters | inheritanceLogic.ts:66-69 | The full-sisters step computes `WithFullSisters` |
| Engine.TotalOf | inheritanceLogic.ts:72-73 | Adding the values one by one in key order gives the table's sum |
| Engine.Rescale | inheritanceLogic.ts:76-79 | Multiplying each entry in place gives `Scale(before, factor)`: same keys in the same order, every value times the factor |
| Engine.DistributeResidue | inheritanceLogic.ts:88-118 | The residuary branches, including the father's delete and the residue reset, compute `Distribute` |
| Engine.SplitResidue | inheritanceLogic.ts:91-94 | The 2:1 split of the residue between a male kind and a female kind is `SplitTwoToOne` |
| Engine.ResultRows | inheritanceLogic.ts:121-143 | The loop over the input keys pushes exactly the rows of `Results` for those keys |
| Meeras.WithSpouse | inheritanceLogic.ts:24-31 | The table stays well formed, and no entry other than the husband's and the wives' changes or appears |
| Meeras.WithFather | inheritanceLogic.ts:34-38 | The table stays well formed, and no entry other than the father's changes or appears |
| Meeras.WithMother | inheritanceLogic.ts:41-44 | The table stays well formed, and no entry other than the mother's changes or appears |
| Meeras.WithDaughters | inheritanceLogic.ts:47-49 | The table stays well formed, and no entry other than the daughters' changes or appears |
| Meeras.WithMaternalSiblings | inheritanceLogic.ts:52-63 | The table stays well formed, and only the two maternal-sibling entries may change or appear |
| Meeras.WithFullSisters | inheritanceLogic.ts:66-69 | The table stays well formed, and no entry other than the full sisters' changes or appears |
| Records.Put | inheritanceLogic.ts:25 | Assigning a key keeps the record well formed and sets that key. Every other key keeps its value and presence. |
| Records.Delete | inheritanceLogic.ts:100 | Deleting a key removes it, so it reads 0. Every other key keeps its value and presence. |
| Records.ScaleEntry | inheritanceLogic.ts:78 | `r[k] *= f` multiplies that one entry and leaves the keys and all other entries unchanged |
| Records.Scale | inheritanceLogic.ts:78 | Every value is multiplied by the factor. The keys and their order are unchanged. |
| Records.ScaleSum | inheritanceLogic.ts:77-79 | Scaling every value by `f` scales the sum by `f` |
| Records.SumOfCover | inheritanceLogic.ts:73 | Summing over any distinct key list that covers the record gives the record's sum, whatever the order |
| Records.PutNewSum | inheritanceLogic.ts:25 | Adding a new key adds its value to the sum |
| Records.DeleteSum | inheritanceLogic.ts:100 | Deleting a key subtracts its value from the sum |
| Records.SumOfNonNegative | inheritanceLogic.ts:73 | A sum of non-negative values is non-negative |
| Heirs.CataloguePosition | constants.ts:4-38 | Every heir kind has a position in the catalogue that holds it |
| Heirs.CatalogueIsComplete | constants.ts:4-38 | The catalogue has 29 entries and lists every heir kind |
| Heirs.CatalogueIsDistinct | constants.ts:4-38 | No heir kind is listed twice |
| Heirs.CatalogueSingulars | constants.ts:5-17 | The singular kinds are exactly the husband, the father, the mother, the grandfather and the two grandmothers |
| FixedShareFacts.FixedSharesShape | inheritanceLogic.ts:20-69 | The fixed table is well formed. It lists only heirs entered with a count, and only of the eight prescribed kinds. Every share lies in [0, 2/3]. |
| FixedShareFacts.FixedSharesKeys | inheritanceLogic.ts:20-69 | Only the eight prescribed-share kinds get an entry |
| FixedShareFacts.HusbandShare | inheritanceLogic.ts:24-26 | The husband has a share iff the deceased is female and he is present. It is 1/4 beside descendants, else 1/2. |
| FixedShareFacts.WivesShare | inheritanceLogic.ts:29-31 | The wives have one share iff the deceased is male and there are wives. It is 1/8 beside descendants, else 1/4. |
| FixedShareFacts.FatherShare | inheritanceLogic.ts:34-38 | The father has an entry iff he is present. It is 1/6 with descendants, else 0. |
| FixedShareFacts.MotherShare | inheritanceLogic.ts:41-44 | The mother has a share iff she is present. It is 1/6 beside descendants or two or more siblings of any kind, else 1/3. |
| FixedShareFacts.DaughtersShare | inheritanceLogic.ts:47-49 | Daughters have a share iff there are daughters and no son. It is 1/2 for one, 2/3 for more. |
| FixedShareFacts.FullSistersShare | inheritanceLogic.ts:66-69 | Full sisters have a share iff they are present and there is no son, grandson, father or full brother. It is 1/2 for one, 2/3 for more. |
| FixedShareFacts.MaternalShares | inheritanceLogic.ts:52-63 | Maternal siblings get nothing when blocked. Otherwise brothers and sisters together get 1/6 for one and 1/3 for more, split equally per head. Each kind has an entry iff it is present. |
| FixedShareFacts.MaternalStep | inheritanceLogic.ts:52-63 | The maternal step applied to a table without maternal entries meets that description |
| FixedShareFacts.SplitByHead | inheritanceLogic.ts:58-61 | A pool split by head count between two groups adds back up to the pool and gives each head the same amount |
| SettlementFacts.AwalRule | inheritanceLogic.ts:75-80 | Shares within the estate are left unchanged. Shares above it are rescaled to sum to exactly 1. The keys, their order and non-negativity are kept. |
| SettlementFacts.AwalKeys | inheritanceLogic.ts:78 | The reduction keeps the table's keys, in order |
| SettlementFacts.AwalKeepsRatios | inheritanceLogic.ts:76-79 | The reduction keeps the ratio of any two shares |
| SettlementFacts.ScaleKeepsRatios | inheritanceLogic.ts:78 | Scaling by a common factor keeps the ratio of any two entries |
| SettlementFacts.AwalShrinks | inheritanceLogic.ts:76-79 | When the reduction applies, every positive share strictly shrinks |
| SettlementFacts.ScaleShrinks | inheritanceLogic.ts:78 | A factor strictly between 0 and 1 shrinks every positive entry |
| SettlementFacts.ScaleNonNegative | inheritanceLogic.ts:78 | A non-negative factor keeps the table non-negative |
| SettlementFacts.Reduction | inheritanceLogic.ts:77 | For a total above 1, the factor `1/total` lies in (0, 1) and brings the total to 1 |
| SettlementFacts.SplitTwoToOneSum | inheritanceLogic.ts:91-94 | The sons/daughters and brothers/sisters splits hand out exactly the residue |
| SettlementFacts.SplitTwoToOneNonNegative | inheritanceLogic.ts:91-94 | A non-negative residue splits into non-negative parts |
| SettlementFacts.SplitTwoToOneKeys | inheritanceLogic.ts:93-94 | A split writes the male kind, and the female kind exactly when there are females |
| SettlementFacts.SplitTwoToOneEntries | inheritanceLogic.ts:91-94 | Males get two parts per head and females one part per head |
| SettlementFacts.PartsAddUp | inheritanceLogic.ts:91-94 | Two parts per male plus one per female, at `residue/(2*males+females)` each, is the residue |
| SettlementFacts.PartsNonNegative | inheritanceLogic.ts:91-94 | A non-negative residue gives non-negative parts |
| SettlementFacts.DistributeConserves | inheritanceLogic.ts:88-118 | The two tables plus what is left of the residue equal the fixed table plus the residue |
| SettlementFacts.FatherBranch | inheritanceLogic.ts:98-102 | Without sons, a present father takes his fixed entry plus the residue, and his fixed entry is deleted |
| SettlementFacts.FatherSum | inheritanceLogic.ts:99-100 | Moving the father's entry into the residuary table, with the residue added, conserves the total |
| SettlementFacts.DistributeWellFormed | inheritanceLogic.ts:88-118 | Both tables stay well formed, and non-negative for a non-negative residue. The fixed table loses at most the father's entry. |
| SettlementFacts.DistributePriority | inheritanceLogic.ts:88-115 | A positive residue goes to exactly one class, the first present in the order sons, father, grandfather, full brothers |
| SettlementFacts.DistributeResiduaries | inheritanceLogic.ts:88-118 | Only present heirs of the six residuary kinds receive residue. Daughters and full sisters receive it only beside their brothers. |
| SettlementFacts.DistributeLeftover | inheritanceLogic.ts:88-118 | A positive residue with a residuary class present is used up. Otherwise nothing changes and the residue stays. |
| SettlementFacts.DistributeSplits | inheritanceLogic.ts:90-115 | The chosen class shares as the source writes it: 2:1 splits for sons and for full brothers, the father's fixed entry plus the residue with that entry removed, the whole residue for the grandfather |
| SettlementFacts.ResolveWithinEstate | inheritanceLogic.ts:72-82 | Shares within the estate are not rescaled, and the residue is `1 - total` |
| SettlementFacts.UndistributedResolve | inheritanceLogic.ts:82-118 | With no residuary class present, `1 - total` stays undistributed |
| SettlementFacts.FullEstateResolve | inheritanceLogic.ts:76-88 | Shares that reach the estate leave no residue, and no residuary branch runs |
| SettlementFacts.ResolveTotals | inheritanceLogic.ts:72-118 | The tables plus the residue sum to 1, and the residue lies in [0, 1]. The residue is 0 iff the fixed shares reach the estate or a residuary class is present. |
| SettlementFacts.SettleTotals | inheritanceLogic.ts:20-118 | The same for the engine's own fixed table |
| SettlementFacts.ResolveCountsOnce | inheritanceLogic.ts:88-118 | No id ends with both a fixed and a residuary entry, given a fixed table of prescribed kinds without daughters beside sons or full sisters beside full brothers |
| SettlementFacts.ResolveKeys | inheritanceLogic.ts:76-118 | The fixed table only loses keys, and residuary entries go only to present residuary heirs |
| SettlementFacts.DistributeCountsOnce | inheritanceLogic.ts:88-118 | The residuary step never gives residue to an id that keeps a fixed entry |
| SettlementFacts.NoDoubleCounting | inheritanceLogic.ts:20-118 | In the engine's settlement no heir is counted twice |
| ResultFacts.Shown | inheritanceLogic.ts:121-143 | The ids that get a row are those with a share or a count, listed at most once each |
| ResultFacts.ResultsOrder | inheritanceLogic.ts:121-143 | The rows come in input-key order, one for each key with a share or a count |
| ResultFacts.ResultsRows | inheritanceLogic.ts:122-143 | Every row is blocked iff its id gets nothing, and a blocked row belongs to a key entered with a count |
| ResultFacts.ResultsPercentage | inheritanceLogic.ts:125-131 | The percentages add up to 100 times the listed ids' shares |
| ResultFacts.SettleKeys | inheritanceLogic.ts:20-118 | Only heirs entered with a count receive anything, of the prescribed or residuary kinds |
| ResultFacts.MeerasRows | inheritanceLogic.ts:8-146 | The output lists each key entered with a count exactly once. A row is blocked iff it gets nothing. Every kind outside the handled ones is blocked. |
| ResultFacts.MeerasPercentage | inheritanceLogic.ts:8-146 | The percentages sum to 100 times what was handed out. That is 100 iff the fixed shares reach the estate or a residuary class is present. |
| Fractions.Round | inheritanceLogic.ts:153 | `Math.round` gives the integer within half of the value, rounding halves up |
| Fractions.FitsWithinTolerance | inheritanceLogic.ts:153-154 | The test on `val*d` is the source's test `abs(val - n/d) < 1e-6` |
| Fractions.SearchFrom | inheritanceLogic.ts:152-157 | The search from `d` returns the first fitting denominator up to 24, or the decimal fallback when none fits |
| Fractions.Approximation | inheritanceLogic.ts:148-159 | "0" iff the value is 0. Otherwise `n/d` with the smallest fitting `d` in 1..24 and `n = round(val*d)`, within 1e-6 of the value. The decimal form only when no `d` fits. |
| Fractions.FormatFraction | inheritanceLogic.ts:148-159 | The loop with early return computes `Approximation` |
| Fractions.RoundIntegral | inheritanceLogic.ts:153 | Rounding leaves a whole number unchanged |
| Fractions.IntegralMultipleFits | inheritanceLogic.ts:153-154 | If `val*e` is whole, denominator `e` fits with numerator `val*e` |
| Fractions.FitsOnlyExactly | inheritanceLogic.ts:152-156 | For a value with a denominator of at most 24, a fitting denominator reproduces it exactly |
| Fractions.ExactFractions | inheritanceLogic.ts:152-156 | A value with a denominator of at most 24 is printed exactly, over its smallest denominator (1 as 1/1, 1/2 never as 2/4) |
| Fractions.ApproximationOfRatio | inheritanceLogic.ts:152-156 | `p/q` in lowest terms with `q <= 24` is printed as exactly `p/q` |
| Scenarios.HusbandAndSistersSettle | inheritanceLogic.ts:24-82 | Husband and two full sisters: 1/2 and 2/3 reduced by 'Awal to 3/7 and 4/7, with no residue |
| Scenarios.HusbandAndSistersRows | inheritanceLogic.ts:8-146 | The rows read 3/7 and 4/7 |
| Scenarios.WifeAndChildrenSettle | inheritanceLogic.ts:29-95 | Wife, two sons and a daughter: 1/8 to the wife, 7/10 to the sons and 7/40 to the daughter |
| Scenarios.FiveParts | inheritanceLogic.ts:91-94 | 7/8 split between two sons and one daughter gives 7/10 and 7/40 |
| Scenarios.WifeAndChildrenRows | inheritanceLogic.ts:8-146 | The rows read 1/8, 7/10 and the decimal 0.175 |
| Scenarios.OneEighth | inheritanceLogic.ts:148-159 | 1/8 is printed as 1/8 |
| Scenarios.SevenTenths | inheritanceLogic.ts:148-159 | 7/10 is printed as 7/10 |
| Scenarios.SevenFortieths | inheritanceLogic.ts:152-158 | 7/40 fits no denominator up to 24, so it is printed as a decimal |
| Scenarios.NoFitFortieths | inheritanceLogic.ts:153-154 | No denominator up to 24 brings 7/40 within the tolerance |
| Scenarios.ParentsSettle | inheritanceLogic.ts:34-102 | Father and mother: the mother takes 1/3, and the father takes the remaining 2/3 as residuary, his fixed entry removed |
| Scenarios.ParentsFixed | inheritanceLogic.ts:34-44 | The fixed table for the parents: the father 0, the mother 1/3, summing to 1/3 |
| Scenarios.ParentsRows | inheritanceLogic.ts:8-146 | The rows read 2/3 and 1/3 |
| Scenarios.ParentsResults | inheritanceLogic.ts:121-143 | Shares of 2/3 and 1/3 give those two rows |
| Scenarios.Thirds | inheritanceLogic.ts:148-159 | 1/3 and 2/3 are printed over 3 |
| Scenarios.MotherAloneRows | inheritanceLogic.ts:8-146 | A mother alone gets a row of 1/3, and 2/3 of the estate is left undistributed |
| Scenarios.MotherAloneSettle | inheritanceLogic.ts:41-88 | A mother alone takes 1/3, and the residue 2/3 stays |
| Scenarios.MotherAloneNoResiduary | inheritanceLogic.ts:12-18 | A mother alone has no descendants and no siblings, and no residuary heir is present |
| Scenarios.MotherAloneFixed | inheritanceLogic.ts:41-44 | The fixed table for a mother alone holds her 1/3 |
| Scenarios.GrandsonsAloneRows | inheritanceLogic.ts:8-146 | Grandsons alone get a blocked row, and the whole estate stays undistributed |
| Scenarios.Sevenths | inheritanceLogic.ts:148-159 | 3/7 and 4/7 are printed over 7 |

## Left out

- The React interface is not modelled. This covers the form, results table, rules view, book reader, language toggle and translations. These are presentation only and do not affect the shares.
- The input clamp of the heir form (singular kinds 0..1, plural kinds 0..99) is not modelled. The engine never relies on it, so the model accepts any natural counts.
- Engine.CalculateMeeras: the model computes in exact rationals (`real`), where the source uses IEEE doubles. Rounding artefacts are not captured, such as a tiny non-zero residue triggering a residuary branch or a comparison of `totalFixed > 1` flipping.
- Fractions.FormatFraction: the fallback returns the exact value as `Decimal(val)`. The four-decimal `toFixed(4)` rendering is not modelled.
- Heir kinds are numbered ids (`Heirs.HeirId`), and the result row carries the id. The source keys records by the string names in constants.ts:4-38.
- The caller in App.tsx:37 passes a third `lang` argument and expects a `calculationSteps` trace. The engine itself takes two arguments and returns a bare list, and that engine signature is modelled. No trace log is produced.
- The model follows the code where descriptions of the engine disagree with it:
  - There is no Radd, the return of an undistributed residue to the sharers (rules_constants.ts:31). A mother alone keeps 1/3 and 2/3 stays undistributed, where a Radd reading would give her the whole estate. `Scenarios.MotherAloneRows` states this.
  - Every heir who gets nothing is labelled "Higher Priority Heir". No blocking heir is named, because the code has no separate blocking stage.
  - There is no Umar's case (rules_constants.ts:33) and no grandfather-with-siblings rule (rules_constants.ts:35-36).
  - The residuary order is sons, father, grandfather, full brothers. The grandsons listed second in rules_constants.ts:26 take no residue.
  - The residue test is `residue > 0` with no tolerance (inheritanceLogic.ts:88). In exact arithmetic a residue is either 0 or a positive fraction, so the branch runs exactly when something is left.
  - The formatter tries only denominators 1 to 24 (inheritanceLogic.ts:152), so the engine's own shares can fall back to the decimal form. In `Scenarios.WifeAndChildrenRows` the daughter's 7/40 is shown as the decimal 0.175.
- Grandsons, granddaughters, grandmothers, paternal siblings and all extended relatives never receive anything, because the code has no branch for them. `ResultFacts.MeerasRows` and `Scenarios.GrandsonsAloneRows` state this.
