/** Ranking of planter performance upgrades: four factors per upgrade (ROI %,
    revenue per acre against the best in the batch, payback speed,
    compatibility breadth), a fixed weighted sum rounded to one decimal, a
    stable descending sort, tiers and 1-based ranks. */
module PlanterRoi {
  import opened Common
  import opened Rounding
  import opened Compat
  import opened Factors
  import opened Sorting
  import opened Records

  /** Corn price used to turn a yield gain into revenue. */
  const CornPricePerBu: real := 4.50

  /** Composite weights. */
  const RoiWeight: real := 0.4
  const RevenueWeight: real := 0.3
  const PaybackWeight: real := 0.2
  const CompatWeight: real := 0.1

  /** A catalogue row as the loader returns it (text fields stripped, numeric
      fields parsed); the description is loaded but never used. */
  datatype Upgrade = Upgrade(
    productName: string,
    manufacturer: string,
    category: string,
    approxPriceUsd: real,
    priceBasis: string,
    planterCompatibility: string,
    performanceBenefit: string,
    estimatedYieldGainBuAc: real,
    estimatedRoiPercent: real,
    paybackAcres: real,
    sourceNotes: string)

  /** The copied and derived fields of a result row; the category, score,
      tier and rank live in the surrounding `Scored` record. */
  datatype UpgradeResult = UpgradeResult(
    productName: string,
    manufacturer: string,
    approxPriceUsd: real,
    priceBasis: string,
    yieldGainBuAc: real,
    revenuePerAc: real,
    roiPercent: real,
    paybackAcres: real,
    planterCompatibility: string,
    performanceBenefit: string,
    sourceNotes: string)

  type Row = Scored<UpgradeResult>

  // ------------------------------------------------------- batch maxima

  /** Dollars per acre from a yield gain in bushels per acre. */
  function RevenuePerAcre(yieldGainBuAc: real): real
  {
    yieldGainBuAc * CornPricePerBu
  }

  function Revenues(ups: seq<Upgrade>): (s: seq<real>)
    ensures |s| == |ups|
    ensures forall i :: 0 <= i < |ups| ==> s[i] == RevenuePerAcre(ups[i].estimatedYieldGainBuAc)
  {
    seq(|ups|, i requires 0 <= i < |ups| => RevenuePerAcre(ups[i].estimatedYieldGainBuAc))
  }

  function Yields(ups: seq<Upgrade>): (s: seq<real>)
    ensures |s| == |ups| && forall i :: 0 <= i < |ups| ==> s[i] == ups[i].estimatedYieldGainBuAc
  {
    seq(|ups|, i requires 0 <= i < |ups| => ups[i].estimatedYieldGainBuAc)
  }

  function Paybacks(ups: seq<Upgrade>): (s: seq<real>)
    ensures |s| == |ups| && forall i :: 0 <= i < |ups| ==> s[i] == ups[i].paybackAcres
  {
    seq(|ups|, i requires 0 <= i < |ups| => ups[i].paybackAcres)
  }

  /** `max(yield * CORN_PRICE_PER_BU for u in upgrades)`, the revenue
      normaliser. */
  function MaxRevenue(ups: seq<Upgrade>): (m: real)
    requires ups != []
    ensures exists i :: 0 <= i < |ups| && RevenuePerAcre(ups[i].estimatedYieldGainBuAc) == m
    ensures forall i :: 0 <= i < |ups| ==> RevenuePerAcre(ups[i].estimatedYieldGainBuAc) <= m
  {
    var m := MaxOf(Revenues(ups));
    assert m in Revenues(ups);
    m
  }

  /** `max(u["payback_acres"] for u in upgrades)`, the payback normaliser. */
  function MaxPayback(ups: seq<Upgrade>): (m: real)
    requires ups != []
    ensures exists i :: 0 <= i < |ups| && ups[i].paybackAcres == m
    ensures forall i :: 0 <= i < |ups| ==> ups[i].paybackAcres <= m
  {
    var m := MaxOf(Paybacks(ups));
    assert m in Paybacks(ups);
    m
  }

  /** The best revenue is the corn price times the largest yield gain: the
      revenue normaliser ranks upgrades exactly as their yield gains do. */
  lemma MaxRevenueOfYield(ups: seq<Upgrade>)
    requires ups != []
    ensures MaxRevenue(ups) == MaxOf(Yields(ups)) * CornPricePerBu
  {
    var y := MaxOf(Yields(ups));
    var i :| 0 <= i < |ups| && Yields(ups)[i] == y;
    assert Revenues(ups)[i] == y * CornPricePerBu;
    MaxOfUnique(Revenues(ups), y * CornPricePerBu);
  }

  /** A batch whose yield gains are all 0 has no revenue to divide by. */
  lemma ZeroYieldBatch(ups: seq<Upgrade>)
    requires ups != []
    requires forall i :: 0 <= i < |ups| ==> ups[i].estimatedYieldGainBuAc == 0.0
    ensures MaxRevenue(ups) == 0.0
  {
  }

  // ----------------------------------------------------------- factors

  /** `min(compat_count * 8, 100)`: 8 points per listed planter model, full
      marks from 13 models on. */
  function CompatBonus(count: nat): (r: nat)
    ensures r <= 100
    ensures r == 100 <==> count >= 13
    ensures r < 100 ==> r == 8 * count
  {
    CappedPoints(count, 8)
  }

  lemma CompatBonusMonotone(a: nat, b: nat)
    requires a <= b
    ensures CompatBonus(a) <= CompatBonus(b)
  {
    CappedPointsMonotone(a, b, 8);
  }

  /** The weighted sum of the four factors. */
  function Composite(roi: real, revenueShare: real, inversePayback: real, compat: real): real
  {
    roi * RoiWeight + revenueShare * RevenueWeight + inversePayback * PaybackWeight + compat * CompatWeight
  }

  /** The weights are non-negative and sum to 1. */
  lemma WeightsSumToOne()
    ensures RoiWeight >= 0.0 && RevenueWeight >= 0.0 && PaybackWeight >= 0.0 && CompatWeight >= 0.0
    ensures RoiWeight + RevenueWeight + PaybackWeight + CompatWeight == 1.0
  {
  }

  /** Raising any factor never lowers the composite. */
  lemma CompositeMonotone(roi1: real, rev1: real, inv1: real, compat1: real,
                          roi2: real, rev2: real, inv2: real, compat2: real)
    requires roi1 <= roi2 && rev1 <= rev2 && inv1 <= inv2 && compat1 <= compat2
    ensures Composite(roi1, rev1, inv1, compat1) <= Composite(roi2, rev2, inv2, compat2)
  {
  }

  /** The composite is a weighted average: it lies between the smallest and
      the largest factor. */
  lemma CompositeBetween(roi: real, rev: real, inv: real, compat: real, lo: real, hi: real)
    requires lo <= roi <= hi && lo <= rev <= hi && lo <= inv <= hi && lo <= compat <= hi
    ensures lo <= Composite(roi, rev, inv, compat) <= hi
  {
  }

  // ------------------------------------------------------------ scoring

  /** The result row of one upgrade in a batch with the given normalisers. */
  function ScoreUpgrade(u: Upgrade, maxRevenue: real, maxPayback: real): Row
    requires maxRevenue != 0.0 && maxPayback != 0.0
  {
    var revenuePerAc := RevenuePerAcre(u.estimatedYieldGainBuAc);
    var inversePayback := InverseShare(u.paybackAcres, maxPayback);
    var compatBonus := CompatBonus(CountEntries(u.planterCompatibility));
    var composite := Composite(u.estimatedRoiPercent, ShareOfMax(revenuePerAc, maxRevenue, 100.0),
                               inversePayback, compatBonus as real);
    Scored(
      UpgradeResult(u.productName, u.manufacturer, u.approxPriceUsd, u.priceBasis,
        u.estimatedYieldGainBuAc, Round(revenuePerAc, 2), u.estimatedRoiPercent,
        u.paybackAcres, u.planterCompatibility, u.performanceBenefit, u.sourceNotes),
      u.category,
      Round(composite, 1),
      None,
      None)
  }

  /** The rows in input order, before the sort. */
  function ScoreAll(ups: seq<Upgrade>, maxRevenue: real, maxPayback: real): seq<Row>
    requires maxRevenue != 0.0 && maxPayback != 0.0
  {
    seq(|ups|, i requires 0 <= i < |ups| => ScoreUpgrade(ups[i], maxRevenue, maxPayback))
  }

  /** The batch scores without error: it is non-empty and neither maximum
      is 0. */
  predicate Scorable(ups: seq<Upgrade>)
  {
    ups != [] && MaxRevenue(ups) != 0.0 && MaxPayback(ups) != 0.0
  }

  /** The ranked rows of a batch that scores without error. */
  function Ranked(ups: seq<Upgrade>): seq<Row>
    requires Scorable(ups)
  {
    SortByScore(ScoreAll(ups, MaxRevenue(ups), MaxPayback(ups)))
  }

  /** The ranking has one row per upgrade: a permutation of the scored
      upgrades, highest score first, and rows with equal scores in
      catalogue order. */
  lemma RankedFacts(ups: seq<Upgrade>)
    requires Scorable(ups)
    ensures |Ranked(ups)| == |ups|
    ensures multiset(Ranked(ups)) == multiset(ScoreAll(ups, MaxRevenue(ups), MaxPayback(ups)))
    ensures SortedDesc(Ranked(ups), ScoreOf)
    ensures forall k :: WithKey(Ranked(ups), ScoreOf, k)
                     == WithKey(ScoreAll(ups, MaxRevenue(ups), MaxPayback(ups)), ScoreOf, k)
  {
    SortDescCorrect(ScoreAll(ups, MaxRevenue(ups), MaxPayback(ups)), ScoreOf);
  }

  /** The factor ranges in a batch of non-negative yield gains and
      paybacks: revenue and payback factors in [0, 100], an upgrade with the
      largest yield gain gets the full revenue factor, the largest payback
      gets payback factor 0 and a zero payback gets 100. */
  lemma FactorBounds(ups: seq<Upgrade>, i: nat)
    requires i < |ups| && MaxRevenue(ups) > 0.0 && MaxPayback(ups) > 0.0
    requires forall k :: 0 <= k < |ups| ==>
      ups[k].estimatedYieldGainBuAc >= 0.0 && ups[k].paybackAcres >= 0.0
    ensures 0.0 <= ShareOfMax(RevenuePerAcre(ups[i].estimatedYieldGainBuAc), MaxRevenue(ups), 100.0) <= 100.0
    ensures ups[i].estimatedYieldGainBuAc == MaxOf(Yields(ups)) ==>
      ShareOfMax(RevenuePerAcre(ups[i].estimatedYieldGainBuAc), MaxRevenue(ups), 100.0) == 100.0
    ensures 0.0 <= InverseShare(ups[i].paybackAcres, MaxPayback(ups)) <= 100.0
    ensures ups[i].paybackAcres == MaxPayback(ups) ==> InverseShare(ups[i].paybackAcres, MaxPayback(ups)) == 0.0
    ensures ups[i].paybackAcres == 0.0 ==> InverseShare(ups[i].paybackAcres, MaxPayback(ups)) == 100.0
  {
    MaxRevenueOfYield(ups);
  }

  /** The scoring loop of `compute_performance_roi`: one row per upgrade,
      appended in catalogue order. */
  method ScoreBatch(ups: seq<Upgrade>, maxRevenue: real, maxPayback: real) returns (results: seq<Row>)
    requires maxRevenue != 0.0 && maxPayback != 0.0
    ensures results == ScoreAll(ups, maxRevenue, maxPayback)
  {
    results := [];
    for i := 0 to |ups|
      invariant results == ScoreAll(ups, maxRevenue, maxPayback)[..i]
    {
      var row := ScoreUpgrade(ups[i], maxRevenue, maxPayback);
      results := results + [row];
    }
  }

  /** `compute_performance_roi`: one row per upgrade, scored against the
      batch maxima, then sorted by score, highest first, ties in input
      order. An empty batch fails at `max`; a batch whose largest payback
      or largest revenue is 0 fails at the division by it. */
  method ComputePerformanceRoi(ups: seq<Upgrade>) returns (res: Result<seq<Row>>)
    ensures ups == [] ==> res == Err(MaxOfEmpty)
    ensures ups != [] && (MaxRevenue(ups) == 0.0 || MaxPayback(ups) == 0.0) ==> res == Err(ZeroDivision)
    ensures Scorable(ups) ==> res == Ok(Ranked(ups))
  {
    if |ups| == 0 {
      return Err(MaxOfEmpty);
    }
    var maxRevenue := MaxRevenue(ups);
    var maxPayback := MaxPayback(ups);
    if maxPayback == 0.0 || maxRevenue == 0.0 {
      return Err(ZeroDivision);
    }
    var results := ScoreBatch(ups, maxRevenue, maxPayback);
    res := Ok(SortByScore(results));
  }

  /** Scoring, `assign_tiers` and the rank numbering of `write_report_csv`,
      in the order `main` runs them. */
  method Analyze(ups: seq<Upgrade>) returns (res: Result<seq<Row>>)
    ensures ups == [] ==> res == Err(MaxOfEmpty)
    ensures ups != [] && (MaxRevenue(ups) == 0.0 || MaxPayback(ups) == 0.0) ==> res == Err(ZeroDivision)
    ensures Scorable(ups) ==> res == Ok(Numbered(Tiered(Ranked(ups))))
  {
    var computed := ComputePerformanceRoi(ups);
    if computed.Err? {
      return computed;
    }
    var ranked := computed.value;
    var a := new Row[|ranked|](i requires 0 <= i < |ranked| => ranked[i]);
    assert a[..] == ranked;
    AssignTiers(a);
    assert a[..] == Tiered(ranked);
    NumberRanks(a);
    res := Ok(a[..]);
  }
}
