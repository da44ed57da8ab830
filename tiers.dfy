/** The four performance / ROI tiers and the fixed score thresholds that
    select them (inclusive lower bounds 70, 50 and 30). */
module Tiers {

  datatype Tier = TopTier | Strong | Moderate | Situational

  /** The label written into the report (`perf_tier` / `roi_tier`). */
  function Label(t: Tier): string
  {
    match t
    case TopTier => "Top Tier"
    case Strong => "Strong"
    case Moderate => "Moderate"
    case Situational => "Situational"
  }

  /** Position of a tier in the order Situational < Moderate < Strong < Top Tier. */
  function Level(t: Tier): nat
  {
    match t
    case Situational => 0
    case Moderate => 1
    case Strong => 2
    case TopTier => 3
  }

  /** The tier of a composite score; each score falls in exactly one band. */
  function TierOf(score: real): (t: Tier)
    ensures t == TopTier <==> 70.0 <= score
    ensures t == Strong <==> 50.0 <= score < 70.0
    ensures t == Moderate <==> 30.0 <= score < 50.0
    ensures t == Situational <==> score < 30.0
  {
    if score >= 70.0 then TopTier
    else if score >= 50.0 then Strong
    else if score >= 30.0 then Moderate
    else Situational
  }

  /** A higher score never yields a lower tier. */
  lemma TierMonotone(a: real, b: real)
    requires a <= b
    ensures Level(TierOf(a)) <= Level(TierOf(b))
  {
  }

  /** Distinct tiers have distinct labels, so counting by label is counting
      by tier. */
  lemma LabelInjective(t: Tier, u: Tier)
    ensures Label(t) == Label(u) <==> t == u
  {
  }
}
