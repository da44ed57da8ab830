/** A scored result row as both analyses build it: the copied input fields
    (`detail`, domain specific), the category, the rounded composite score,
    and the two keys added in place later: the tier (`assign_tiers`) and the
    1-based rank (`write_report_csv`). */
module Records {
  import opened Common
  import opened Tiers
  import opened Sorting

  datatype Scored<D> = Scored(
    detail: D,
    category: string,
    score: real,
    tier: Option<Tier>,
    rank: Option<nat>)

  function ScoreOf<D>(r: Scored<D>): real
  {
    r.score
  }

  /** `results.sort(key=lambda r: r["composite_score"], reverse=True)`. */
  function SortByScore<D>(rows: seq<Scored<D>>): seq<Scored<D>>
  {
    SortDesc(rows, ScoreOf)
  }

  /** Every row carries its tier key. */
  predicate AllTiered<D>(rows: seq<Scored<D>>)
  {
    forall i :: 0 <= i < |rows| ==> rows[i].tier.Some?
  }

  /** The rows after `assign_tiers`. */
  function Tiered<D>(rows: seq<Scored<D>>): seq<Scored<D>>
  {
    seq(|rows|, i requires 0 <= i < |rows| => rows[i].(tier := Some(TierOf(rows[i].score))))
  }

  /** The rows after the numbering loop of `write_report_csv`. */
  function Numbered<D>(rows: seq<Scored<D>>): seq<Scored<D>>
  {
    seq(|rows|, i requires 0 <= i < |rows| => rows[i].(rank := Some(i + 1)))
  }

  /** `assign_tiers`: writes each row's tier in place; nothing else changes. */
  method AssignTiers<D>(a: array<Scored<D>>)
    modifies a
    ensures a[..] == Tiered(old(a[..]))
  {
    for i := 0 to a.Length
      invariant forall j :: 0 <= j < i ==> a[j] == old(a[j]).(tier := Some(TierOf(old(a[j]).score)))
      invariant forall j :: i <= j < a.Length ==> a[j] == old(a[j])
    {
      var score := a[i].score;
      a[i] := a[i].(tier := Some(TierOf(score)));
    }
  }

  /** `for i, row in enumerate(results, 1): row["rank"] = i`. */
  method NumberRanks<D>(a: array<Scored<D>>)
    modifies a
    ensures a[..] == Numbered(old(a[..]))
  {
    for i := 0 to a.Length
      invariant forall j :: 0 <= j < i ==> a[j] == old(a[j]).(rank := Some(j + 1))
      invariant forall j :: i <= j < a.Length ==> a[j] == old(a[j])
    {
      a[i] := a[i].(rank := Some(i + 1));
    }
  }

  /** `assign_tiers` gives every row exactly the tier of its own score and
      changes nothing else: not the length, not the order, no other field. */
  lemma TieredRows<D>(rows: seq<Scored<D>>)
    ensures |Tiered(rows)| == |rows| && AllTiered(Tiered(rows))
    ensures forall i :: 0 <= i < |rows| ==>
      Tiered(rows)[i].tier == Some(TierOf(rows[i].score))
      && Tiered(rows)[i].(tier := rows[i].tier) == rows[i]
  {
  }

  /** Running `assign_tiers` twice is the same as running it once. */
  lemma TieredIdempotent<D>(rows: seq<Scored<D>>)
    ensures Tiered(Tiered(rows)) == Tiered(rows)
  {
  }

  /** On rows ranked by score, tiers never go up further down the list. */
  lemma TieredRankedLevels<D>(rows: seq<Scored<D>>)
    requires SortedDesc(rows, ScoreOf)
    ensures forall i, j :: 0 <= i < j < |rows| ==>
      Level(Tiered(rows)[i].tier.value) >= Level(Tiered(rows)[j].tier.value)
  {
    forall i, j | 0 <= i < j < |rows|
      ensures Level(Tiered(rows)[i].tier.value) >= Level(Tiered(rows)[j].tier.value)
    {
      assert ScoreOf(rows[i]) >= ScoreOf(rows[j]);
      TierMonotone(rows[j].score, rows[i].score);
    }
  }

  /** Ranks are the 1-based positions, so a better rank never has a lower
      score when the rows are ranked by score; nothing else changes. */
  lemma NumberedRows<D>(rows: seq<Scored<D>>)
    ensures |Numbered(rows)| == |rows|
    ensures forall i :: 0 <= i < |rows| ==>
      Numbered(rows)[i].rank == Some(i + 1)
      && Numbered(rows)[i].(rank := rows[i].rank) == rows[i]
    ensures SortedDesc(rows, ScoreOf) ==>
      (forall i, j :: 0 <= i < |rows| && 0 <= j < |rows|
        && Numbered(rows)[i].rank.value < Numbered(rows)[j].rank.value
        ==> Numbered(rows)[i].score >= Numbered(rows)[j].score)
  {
    if SortedDesc(rows, ScoreOf) {
      forall i, j | 0 <= i < |rows| && 0 <= j < |rows| && Numbered(rows)[i].rank.value < Numbered(rows)[j].rank.value
        ensures Numbered(rows)[i].score >= Numbered(rows)[j].score
      {
        assert ScoreOf(rows[i]) >= ScoreOf(rows[j]);
      }
    }
  }

  /** The report rows of a ranked list: still ranked by score, each with
      its 1-based position as rank and the tier of its score. */
  lemma ReportRows<D>(rows: seq<Scored<D>>)
    requires SortedDesc(rows, ScoreOf)
    ensures |Numbered(Tiered(rows))| == |rows|
    ensures SortedDesc(Numbered(Tiered(rows)), ScoreOf)
    ensures forall i :: 0 <= i < |rows| ==>
      Numbered(Tiered(rows))[i].rank == Some(i + 1)
      && Numbered(Tiered(rows))[i].tier == Some(TierOf(Numbered(Tiered(rows))[i].score))
  {
    var report := Numbered(Tiered(rows));
    forall i, j | 0 <= i < j < |report| ensures ScoreOf(report[i]) >= ScoreOf(report[j]) {
      assert ScoreOf(rows[i]) >= ScoreOf(rows[j]);
    }
  }
}
