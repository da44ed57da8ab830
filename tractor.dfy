/** Ranking of aftermarket tractor performance parts: four factor scores per
    part (ROI %, payback speed, compatibility breadth, power gain), a fixed
    weighted sum rounded to one decimal, a stable descending sort, tiers and
    1-based ranks. */
module TractorPerformance {
  import opened Common
  import opened Rounding
  import opened Compat
  import opened Factors
  import opened Sorting
  import opened Records

  /** Fuel-cost assumptions of the savings figure. */
  const DieselPricePerGal: real := 3.80
  const AvgGalPerHour: real := 8.0

  /** Composite weights. */
  const RoiWeight: real := 0.40
  const PaybackWeight: real := 0.25
  const CompatWeight: real := 0.20
  const PowerWeight: real := 0.15

  /** A catalogue row as the loader returns it (text fields stripped, numeric
      fields parsed); the description is loaded but never used. */
  datatype Part = Part(
    productName: string,
    manufacturer: string,
    category: string,
    approxPriceUsd: real,
    priceBasis: string,
    tractorCompatibility: string,
    tractorClass: string,
    performanceBenefit: string,
    hpGain: real,
    torqueGainPct: real,
    fuelEfficiencyGainPct: real,
    estimatedRoiPercent: real,
    paybackHours: real,
    fitsProduction: string,
    sourceNotes: string)

  /** The copied and derived fields of a result row; the category, score,
      tier and rank live in the surrounding `Scored` record. */
  datatype PartResult = PartResult(
    productName: string,
    manufacturer: string,
    approxPriceUsd: real,
    priceBasis: string,
    tractorCompatibility: string,
    tractorClass: string,
    hpGain: real,
    torqueGainPct: real,
    fuelEfficiencyGainPct: real,
    fuelSavingsPerHour: real,
    roiPercent: real,
    paybackHours: real,
    fitsProduction: string,
    performanceBenefit: string,
    sourceNotes: string)

  type Row = Scored<PartResult>

  // ------------------------------------------------------- batch maxima

  function Paybacks(parts: seq<Part>): (s: seq<real>)
    ensures |s| == |parts| && forall i :: 0 <= i < |parts| ==> s[i] == parts[i].paybackHours
  {
    seq(|parts|, i requires 0 <= i < |parts| => parts[i].paybackHours)
  }

  function HpGains(parts: seq<Part>): (s: seq<real>)
    ensures |s| == |parts| && forall i :: 0 <= i < |parts| ==> s[i] == parts[i].hpGain
  {
    seq(|parts|, i requires 0 <= i < |parts| => parts[i].hpGain)
  }

  /** `max(p["payback_hours"] for p in parts)`, the payback normaliser. */
  function MaxPayback(parts: seq<Part>): (m: real)
    requires parts != []
    ensures exists i :: 0 <= i < |parts| && parts[i].paybackHours == m
    ensures forall i :: 0 <= i < |parts| ==> parts[i].paybackHours <= m
  {
    var m := MaxOf(Paybacks(parts));
    assert m in Paybacks(parts);
    m
  }

  predicate HasPositiveHp(parts: seq<Part>)
  {
    exists i :: 0 <= i < |parts| && parts[i].hpGain > 0.0
  }

  /** The hp normaliser: the largest hp gain when some part gains hp, else 1,
      so it is always positive. */
  function MaxHp(parts: seq<Part>): (m: real)
    ensures m > 0.0
    ensures HasPositiveHp(parts) ==>
      (exists i :: 0 <= i < |parts| && parts[i].hpGain == m)
      && forall i :: 0 <= i < |parts| ==> parts[i].hpGain <= m
    ensures !HasPositiveHp(parts) ==> m == 1.0
  {
    if HasPositiveHp(parts) then
      var m := MaxOf(HpGains(parts));
      assert m in HpGains(parts);
      m
    else
      1.0
  }

  /** A batch whose paybacks are all 0 has no payback to divide by. */
  lemma ZeroPaybackBatch(parts: seq<Part>)
    requires parts != []
    requires forall i :: 0 <= i < |parts| ==> parts[i].paybackHours == 0.0
    ensures MaxPayback(parts) == 0.0
  {
  }

  /** A one-part batch is its own payback maximum, so its payback factor is
      0 (or the division fails when that payback is 0). */
  lemma SinglePartBatch(p: Part)
    ensures MaxPayback([p]) == p.paybackHours
    ensures p.paybackHours != 0.0 ==> InverseShare(p.paybackHours, MaxPayback([p])) == 0.0
  {
  }

  // ----------------------------------------------------------- factors

  /** `min(compat_count * 5, 100)`: 5 points per listed brand or model,
      full marks from 20 entries on. */
  function CompatScore(count: nat): (r: nat)
    ensures r <= 100
    ensures r == 100 <==> count >= 20
    ensures r < 100 ==> r == 5 * count
  {
    CappedPoints(count, 5)
  }

  lemma CompatScoreMonotone(a: nat, b: nat)
    requires a <= b
    ensures CompatScore(a) <= CompatScore(b)
  {
    CappedPointsMonotone(a, b, 5);
  }

  /** The power factor: up to 50 points for the hp gain as a share of the
      largest, plus 4 points per torque percent capped at 50; 0 when the hp
      normaliser is not positive. */
  function PowerScore(hpGain: real, torqueGainPct: real, maxHp: real): (r: real)
    ensures maxHp > 0.0 && 0.0 <= hpGain <= maxHp && torqueGainPct >= 0.0 ==> 0.0 <= r <= 100.0
    ensures maxHp > 0.0 ==> r <= ShareOfMax(hpGain, maxHp, 50.0) + 50.0
    ensures maxHp <= 0.0 ==> r == 0.0
  {
    if maxHp > 0.0 then
      ShareOfMax(hpGain, maxHp, 50.0) + MinReal(torqueGainPct * 4.0, 50.0)
    else
      0.0
  }

  /** More hp gain or more torque never lowers the power factor. */
  lemma PowerScoreMonotone(hp1: real, tq1: real, hp2: real, tq2: real, maxHp: real)
    requires hp1 <= hp2 && tq1 <= tq2
    ensures PowerScore(hp1, tq1, maxHp) <= PowerScore(hp2, tq2, maxHp)
  {
    if maxHp > 0.0 {
      ShareOfMaxMonotone(hp1, hp2, maxHp, 50.0);
    }
  }

  /** The weighted sum of the four factors. */
  function Composite(roi: real, inversePayback: real, compat: real, power: real): real
  {
    roi * RoiWeight + inversePayback * PaybackWeight + compat * CompatWeight + power * PowerWeight
  }

  /** The weights are non-negative and sum to 1. */
  lemma WeightsSumToOne()
    ensures RoiWeight >= 0.0 && PaybackWeight >= 0.0 && CompatWeight >= 0.0 && PowerWeight >= 0.0
    ensures RoiWeight + PaybackWeight + CompatWeight + PowerWeight == 1.0
  {
  }

  /** Raising any factor never lowers the composite. */
  lemma CompositeMonotone(roi1: real, inv1: real, compat1: real, power1: real,
                          roi2: real, inv2: real, compat2: real, power2: real)
    requires roi1 <= roi2 && inv1 <= inv2 && compat1 <= compat2 && power1 <= power2
    ensures Composite(roi1, inv1, compat1, power1) <= Composite(roi2, inv2, compat2, power2)
  {
  }

  /** The composite is a weighted average: it lies between the smallest and
      the largest factor. */
  lemma CompositeBetween(roi: real, inv: real, compat: real, power: real, lo: real, hi: real)
    requires lo <= roi <= hi && lo <= inv <= hi && lo <= compat <= hi && lo <= power <= hi
    ensures lo <= Composite(roi, inv, compat, power) <= hi
  {
  }

  /** Three parts with ROI 50/100/100 %, paybacks 10/5/0 h, 2/4/4 listed
      brands and no hp or torque gain (hp normaliser 1) have composites 22,
      56.5 and 69: none reaches 100, not even the third, which has the
      best value of every factor. */
  lemma ThreePartComposites()
    ensures Composite(50.0, InverseShare(10.0, 10.0), CompatScore(2) as real, PowerScore(0.0, 0.0, 1.0)) == 22.0
    ensures Composite(100.0, InverseShare(5.0, 10.0), CompatScore(4) as real, PowerScore(0.0, 0.0, 1.0)) == 56.5
    ensures Composite(100.0, InverseShare(0.0, 10.0), CompatScore(4) as real, PowerScore(0.0, 0.0, 1.0)) == 69.0
  {
  }

  /** Dollars saved per engine hour: each percent of fuel efficiency saves
      1% of 8 gal/h at $3.80/gal, that is 30.4 cents. */
  function FuelSavingsPerHour(fuelEfficiencyGainPct: real): (r: real)
    ensures r == fuelEfficiencyGainPct * 0.304
  {
    fuelEfficiencyGainPct / 100.0 * AvgGalPerHour * DieselPricePerGal
  }

  // ------------------------------------------------------------ scoring

  /** The result row of one part in a batch with the given normalisers. */
  function ScorePart(p: Part, maxPayback: real, maxHp: real): Row
    requires maxPayback != 0.0
  {
    var inversePayback := InverseShare(p.paybackHours, maxPayback);
    var compatScore := CompatScore(CountEntries(p.tractorCompatibility));
    var powerScore := PowerScore(p.hpGain, p.torqueGainPct, maxHp);
    var composite := Composite(p.estimatedRoiPercent, inversePayback, compatScore as real, powerScore);
    Scored(
      PartResult(p.productName, p.manufacturer, p.approxPriceUsd, p.priceBasis,
        p.tractorCompatibility, p.tractorClass, p.hpGain, p.torqueGainPct,
        p.fuelEfficiencyGainPct, Round(FuelSavingsPerHour(p.fuelEfficiencyGainPct), 2),
        p.estimatedRoiPercent, p.paybackHours, p.fitsProduction,
        p.performanceBenefit, p.sourceNotes),
      p.category,
      Round(composite, 1),
      None,
      None)
  }

  /** The rows in input order, before the sort. */
  function ScoreAll(parts: seq<Part>, maxPayback: real, maxHp: real): seq<Row>
    requires maxPayback != 0.0
  {
    seq(|parts|, i requires 0 <= i < |parts| => ScorePart(parts[i], maxPayback, maxHp))
  }

  /** The ranked rows of a batch that scores without error. */
  function Ranked(parts: seq<Part>): seq<Row>
    requires parts != [] && MaxPayback(parts) != 0.0
  {
    SortByScore(ScoreAll(parts, MaxPayback(parts), MaxHp(parts)))
  }

  /** The ranking has one row per part: a permutation of the scored parts,
      highest score first, and rows with equal scores in catalogue order. */
  lemma RankedFacts(parts: seq<Part>)
    requires parts != [] && MaxPayback(parts) != 0.0
    ensures |Ranked(parts)| == |parts|
    ensures multiset(Ranked(parts)) == multiset(ScoreAll(parts, MaxPayback(parts), MaxHp(parts)))
    ensures SortedDesc(Ranked(parts), ScoreOf)
    ensures forall k :: WithKey(Ranked(parts), ScoreOf, k)
                     == WithKey(ScoreAll(parts, MaxPayback(parts), MaxHp(parts)), ScoreOf, k)
  {
    SortDescCorrect(ScoreAll(parts, MaxPayback(parts), MaxHp(parts)), ScoreOf);
  }

  /** The factor ranges in a batch of non-negative paybacks, hp and torque
      gains: payback and power factors in [0, 100], the part with the
      largest payback gets payback factor 0, a zero payback gets 100, and the
      part with the largest hp gain gets the full 50 hp points. */
  lemma FactorBounds(parts: seq<Part>, i: nat)
    requires i < |parts| && MaxPayback(parts) > 0.0
    requires forall k :: 0 <= k < |parts| ==>
      parts[k].paybackHours >= 0.0 && parts[k].hpGain >= 0.0 && parts[k].torqueGainPct >= 0.0
    ensures 0.0 <= InverseShare(parts[i].paybackHours, MaxPayback(parts)) <= 100.0
    ensures parts[i].paybackHours == MaxPayback(parts) ==> InverseShare(parts[i].paybackHours, MaxPayback(parts)) == 0.0
    ensures parts[i].paybackHours == 0.0 ==> InverseShare(parts[i].paybackHours, MaxPayback(parts)) == 100.0
    ensures 0.0 <= PowerScore(parts[i].hpGain, parts[i].torqueGainPct, MaxHp(parts)) <= 100.0
    ensures parts[i].hpGain == MaxHp(parts) ==>
      PowerScore(parts[i].hpGain, parts[i].torqueGainPct, MaxHp(parts))
        == 50.0 + MinReal(parts[i].torqueGainPct * 4.0, 50.0)
  {
    if !HasPositiveHp(parts) {
      assert parts[i].hpGain <= 0.0;
    }
  }

  /** The scoring loop of `compute_performance_scores`: one row per part,
      appended in catalogue order. */
  method ScoreBatch(parts: seq<Part>, maxPayback: real, maxHp: real) returns (results: seq<Row>)
    requires maxPayback != 0.0
    ensures results == ScoreAll(parts, maxPayback, maxHp)
  {
    results := [];
    for i := 0 to |parts|
      invariant results == ScoreAll(parts, maxPayback, maxHp)[..i]
    {
      var row := ScorePart(parts[i], maxPayback, maxHp);
      results := results + [row];
    }
  }

  /** `compute_performance_scores`: one row per part, scored against the
      batch maxima, then sorted by score, highest first, ties in input
      order. An empty batch fails at `max`, an all-zero payback batch at the
      payback division. */
  method ComputePerformanceScores(parts: seq<Part>) returns (res: Result<seq<Row>>)
    ensures parts == [] ==> res == Err(MaxOfEmpty)
    ensures parts != [] && MaxPayback(parts) == 0.0 ==> res == Err(ZeroDivision)
    ensures parts != [] && MaxPayback(parts) != 0.0 ==> res == Ok(Ranked(parts))
  {
    if |parts| == 0 {
      return Err(MaxOfEmpty);
    }
    var maxPayback := MaxPayback(parts);
    var maxHp := MaxHp(parts);
    if maxPayback == 0.0 {
      return Err(ZeroDivision);
    }
    var results := ScoreBatch(parts, maxPayback, maxHp);
    res := Ok(SortByScore(results));
  }

  /** Scoring, `assign_tiers` and the rank numbering of `write_report_csv`,
      in the order `main` runs them: the report rows are the ranked rows,
      each with the tier of its score and its 1-based position as rank. */
  method Analyze(parts: seq<Part>) returns (res: Result<seq<Row>>)
    ensures parts == [] ==> res == Err(MaxOfEmpty)
    ensures parts != [] && MaxPayback(parts) == 0.0 ==> res == Err(ZeroDivision)
    ensures parts != [] && MaxPayback(parts) != 0.0 ==> res == Ok(Numbered(Tiered(Ranked(parts))))
  {
    var computed := ComputePerformanceScores(parts);
    if computed.Err? {
      return computed;
    }
    var ranked := computed.value;
    var a := new Row[|ranked|](i requires 0 <= i < |ranked| => ranked[i]);
    assert a[..] == ranked;
    AssignTiers(a);
    assert a[..] == Tiered(ranked);
    NumberRanks(a);
    res := Ok(a[..]);
  }

  // ------------------------------------------------- production fitment

  /** ASCII lower-casing; no non-ASCII character lower-cases to `y`, `e`
      or `s`, so it decides the `"yes"` prefix test exactly. */
  function LowerAscii(c: char): (l: char)
    ensures 'A' <= c <= 'Z' ==> l as int == c as int + 32
    ensures !('A' <= c <= 'Z') ==> l == c
  {
    if 'A' <= c <= 'Z' then (c as int + 32) as char else c
  }

  /** `fits_production.lower().startswith("yes")`. */
  predicate ConfirmsProduction(fitsProduction: string)
  {
    |fitsProduction| >= 3
    && LowerAscii(fitsProduction[0]) == 'y'
    && LowerAscii(fitsProduction[1]) == 'e'
    && LowerAscii(fitsProduction[2]) == 's'
  }

  /** The fitment text confirms production exactly when its first three
      characters are `y`, `e`, `s` in either case. */
  lemma ConfirmsProductionIff(fitsProduction: string)
    ensures ConfirmsProduction(fitsProduction) <==>
      |fitsProduction| >= 3
      && (fitsProduction[0] == 'y' || fitsProduction[0] == 'Y')
      && (fitsProduction[1] == 'e' || fitsProduction[1] == 'E')
      && (fitsProduction[2] == 's' || fitsProduction[2] == 'S')
  {
  }

  /** The parts the fitment warning lists, in catalogue order. */
  function NonProductionParts(parts: seq<Part>): (r: seq<Part>)
    ensures |r| <= |parts|
    ensures forall k :: 0 <= k < |r| ==> r[k] in parts && !ConfirmsProduction(r[k].fitsProduction)
    ensures forall k :: 0 <= k < |parts| && !ConfirmsProduction(parts[k].fitsProduction) ==> parts[k] in r
  {
    if parts == [] then []
    else
      var rest := NonProductionParts(parts[1..]);
      assert forall k :: 1 <= k < |parts| ==> parts[k] == parts[1..][k - 1];
      (if ConfirmsProduction(parts[0].fitsProduction) then [] else [parts[0]]) + rest
  }

  /** The warning list is built part by part: the list for a catalogue
      split in two is the list for the first half followed by the list for
      the second. With `NonProductionPartsSingle` this fixes the list's
      order and every repeated part. */
  lemma {:induction false} NonProductionPartsConcat(a: seq<Part>, b: seq<Part>)
    ensures NonProductionParts(a + b) == NonProductionParts(a) + NonProductionParts(b)
  {
    if a == [] {
      assert a + b == b;
    } else {
      assert (a + b)[1..] == a[1..] + b;
      NonProductionPartsConcat(a[1..], b);
    }
  }

  /** A single part is listed exactly when it does not confirm production. */
  lemma NonProductionPartsSingle(p: Part)
    ensures NonProductionParts([p]) == if ConfirmsProduction(p.fitsProduction) then [] else [p]
  {
    assert [p][1..] == [];
  }

  /** "Yes", "yes" and "YES, with kit" all confirm fitment; "No" and "Y" do not. */
  lemma ConfirmsProductionExamples()
    ensures ConfirmsProduction("Yes") && ConfirmsProduction("yes") && ConfirmsProduction("YES, with kit")
    ensures !ConfirmsProduction("No") && !ConfirmsProduction("Y")
  {
  }
}
