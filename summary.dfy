/** The aggregates `print_summary` computes over the ranked, tiered rows:
    the number of rows per tier, and the best row of every category with the
    categories ordered by their best score. */
module Summary {
  import opened Common
  import opened Tiers
  import opened Sorting
  import opened Records

  // ---------------------------------------------------------------- tiers

  /** The number of rows whose tier is `t`. */
  function TierCount<D>(rows: seq<Scored<D>>, t: Tier): (n: nat)
    ensures n <= |rows|
  {
    if rows == [] then 0
    else TierCount(rows[..|rows| - 1], t) + (if rows[|rows| - 1].tier == Some(t) then 1 else 0)
  }

  /** `tier_counts[t]` on a `defaultdict(int)`: 0 for a tier never seen. */
  function CountFor(counts: map<Tier, nat>, t: Tier): nat
  {
    if t in counts then counts[t] else 0
  }

  /** The tier-counting loop of `print_summary`. The tier key must be present
      on every row (Python raises `KeyError` otherwise); `assign_tiers`
      always runs first. */
  method CountTiers<D>(rows: seq<Scored<D>>) returns (counts: map<Tier, nat>)
    requires AllTiered(rows)
    ensures forall t :: CountFor(counts, t) == TierCount(rows, t)
    ensures forall t :: t in counts <==> TierCount(rows, t) > 0
  {
    counts := map[];
    for i := 0 to |rows|
      invariant forall t :: CountFor(counts, t) == TierCount(rows[..i], t)
      invariant forall t :: t in counts <==> TierCount(rows[..i], t) > 0
    {
      assert rows[..i + 1][..i] == rows[..i];
      var t := rows[i].tier.value;
      counts := counts[t := CountFor(counts, t) + 1];
    }
    assert rows[..|rows|] == rows;
  }

  /** Every tiered row is counted under exactly one of the four tiers. */
  lemma {:induction false} TierCountsSum<D>(rows: seq<Scored<D>>)
    requires AllTiered(rows)
    ensures TierCount(rows, TopTier) + TierCount(rows, Strong)
          + TierCount(rows, Moderate) + TierCount(rows, Situational) == |rows|
  {
    if rows != [] {
      var init := rows[..|rows| - 1];
      assert forall k :: 0 <= k < |init| ==> init[k] == rows[k];
      assert AllTiered(init);
      TierCountsSum(init);
      var t := rows[|rows| - 1].tier.value;
      assert rows[|rows| - 1].tier == Some(t);
      forall u ensures TierCount(rows, u) == TierCount(init, u) + (if u == t then 1 else 0) {
      }
    }
  }

  // ----------------------------------------------------------- categories

  /** The categories in order of first appearance: the key order of the
      `cat_scores` dictionary. */
  function Categories<D>(rows: seq<Scored<D>>): (cats: seq<string>)
    ensures forall i, j :: 0 <= i < j < |cats| ==> cats[i] != cats[j]
    ensures forall c :: c in cats <==> exists k :: 0 <= k < |rows| && rows[k].category == c
  {
    if rows == [] then []
    else
      var prefix := Categories(rows[..|rows| - 1]);
      var c := rows[|rows| - 1].category;
      assert forall k :: 0 <= k < |rows| - 1 ==> rows[..|rows| - 1][k] == rows[k];
      if c in prefix then prefix else prefix + [c]
  }

  /** The rows of category `c`, in ranked order: `cat_scores[c]`. */
  function InCategory<D>(rows: seq<Scored<D>>, c: string): (g: seq<Scored<D>>)
    ensures |g| <= |rows|
    ensures forall k :: 0 <= k < |g| ==> g[k].category == c && g[k] in rows
  {
    if rows == [] then []
    else
      var g := InCategory(rows[..|rows| - 1], c);
      assert forall x :: x in rows[..|rows| - 1] ==> x in rows;
      g + (if rows[|rows| - 1].category == c then [rows[|rows| - 1]] else [])
  }

  /** Every row of category `c` is in its group: `cat_scores[c]` misses
      none of them. */
  lemma {:induction false} InCategoryComplete<D>(rows: seq<Scored<D>>, c: string)
    ensures forall k :: 0 <= k < |rows| && rows[k].category == c ==> rows[k] in InCategory(rows, c)
  {
    if rows != [] {
      var n := |rows| - 1;
      var init := rows[..n];
      InCategoryComplete(init, c);
      var g := InCategory(init, c);
      assert InCategory(rows, c) == g + (if rows[n].category == c then [rows[n]] else []);
      forall k | 0 <= k < |rows| && rows[k].category == c
        ensures rows[k] in InCategory(rows, c)
      {
        if k < n {
          assert init[k] == rows[k];
          assert rows[k] in g;
        }
      }
    }
  }

  /** Grouping a catalogue split in two gives the group of the first half
      followed by the group of the second: `append` keeps ranked order. */
  lemma {:induction false} InCategoryConcat<D>(a: seq<Scored<D>>, b: seq<Scored<D>>, c: string)
    ensures InCategory(a + b, c) == InCategory(a, c) + InCategory(b, c)
    decreases |b|
  {
    if b == [] {
      assert a + b == a;
    } else {
      var n := |b| - 1;
      InCategoryConcat(a, b[..n], c);
      assert (a + b)[..|a + b| - 1] == a + b[..n];
      assert (a + b)[|a + b| - 1] == b[n];
    }
  }

  /** The first row of a group is the first row of that category in
      `rows`. */
  lemma InCategoryFirst<D>(rows: seq<Scored<D>>, c: string, m: nat)
    requires m < |rows| && rows[m].category == c
    requires forall k :: 0 <= k < m ==> rows[k].category != c
    ensures InCategory(rows, c) != [] && InCategory(rows, c)[0] == rows[m]
  {
    var before, after := rows[..m], rows[m + 1..];
    InCategoryEmpty(before, c);
    assert rows == before + ([rows[m]] + after);
    InCategoryConcat(before, [rows[m]] + after, c);
    InCategoryConcat([rows[m]], after, c);
    assert [rows[m]][..0] == [];
  }

  /** The dictionary's key order is the order of first appearance: each row
      of a later category comes after some row of every earlier category. */
  lemma CategoriesFirstAppearance<D>(rows: seq<Scored<D>>)
    ensures forall i, j, k ::
      0 <= i < j < |Categories(rows)| && 0 <= k < |rows| && rows[k].category == Categories(rows)[j]
      ==> exists m :: 0 <= m < k && rows[m].category == Categories(rows)[i]
  {
    var cats := Categories(rows);
    forall i, j, k | 0 <= i < j < |cats| && 0 <= k < |rows| && rows[k].category == cats[j]
      ensures exists m :: 0 <= m < k && rows[m].category == cats[i]
    {
      CategoryBefore(rows, i, j, k);
    }
  }

  /** One instance of the first-appearance order. */
  lemma {:induction false} CategoryBefore<D>(rows: seq<Scored<D>>, i: nat, j: nat, k: nat)
    requires i < j < |Categories(rows)| && k < |rows| && rows[k].category == Categories(rows)[j]
    ensures exists m :: 0 <= m < k && rows[m].category == Categories(rows)[i]
  {
    var n := |rows| - 1;
    var init, c := rows[..n], rows[n].category;
    var p := Categories(init);
    assert Categories(rows) == if c in p then p else p + [c];
    if j < |p| {
      // both categories already occur in `init`
      var k' := k;
      if k == n {
        assert p[j] in p;
        var w :| 0 <= w < |init| && init[w].category == p[j];
        k' := w;
      } else {
        assert init[k] == rows[k];
      }
      CategoryBefore(init, i, j, k');
      var m :| 0 <= m < k' && init[m].category == p[i];
      assert init[m] == rows[m];
    } else {
      // `Categories(rows)[j]` is the category first seen in the last row
      assert k == n;
      assert p[i] in p;
      var m :| 0 <= m < |init| && init[m].category == p[i];
      assert init[m] == rows[m];
    }
  }

  lemma {:induction false} InCategoryEmpty<D>(rows: seq<Scored<D>>, c: string)
    ensures InCategory(rows, c) == [] <==> c !in Categories(rows)
  {
    if rows != [] {
      InCategoryEmpty(rows[..|rows| - 1], c);
    }
  }

  /** The grouping loop of `print_summary`: `cat_scores[category].append(r)`
      on a `defaultdict(list)`; `order` is the dictionary's key order. */
  method GroupByCategory<D>(rows: seq<Scored<D>>)
    returns (groups: map<string, seq<Scored<D>>>, order: seq<string>)
    ensures order == Categories(rows)
    ensures forall c :: c in groups <==> c in order
    ensures forall c :: c in groups ==> groups[c] == InCategory(rows, c) && groups[c] != []
  {
    groups, order := map[], [];
    for i := 0 to |rows|
      invariant order == Categories(rows[..i])
      invariant forall c :: c in groups <==> c in order
      invariant forall c :: c in groups ==> groups[c] == InCategory(rows[..i], c) && groups[c] != []
    {
      assert rows[..i + 1][..i] == rows[..i];
      var r := rows[i];
      if r.category in groups {
        groups := groups[r.category := groups[r.category] + [r]];
      } else {
        InCategoryEmpty(rows[..i], r.category);
        groups := groups[r.category := [r]];
        order := order + [r.category];
      }
    }
    assert rows[..|rows|] == rows;
  }

  // ------------------------------------------------------- best per category

  /** `max(group, key=lambda r: r["composite_score"])`: Python keeps the
      first row whose score is maximal. */
  function BestIndex<D>(g: seq<Scored<D>>): (b: nat)
    requires g != []
    ensures b < |g|
    ensures forall j :: 0 <= j < |g| ==> g[j].score <= g[b].score
    ensures forall j :: 0 <= j < b ==> g[j].score < g[b].score
  {
    if |g| == 1 then 0
    else
      var b := BestIndex(g[..|g| - 1]);
      assert forall j :: 0 <= j < |g| - 1 ==> g[..|g| - 1][j] == g[j];
      if g[|g| - 1].score > g[b].score then |g| - 1 else b
  }

  function Scores<D>(g: seq<Scored<D>>): (s: seq<real>)
    ensures |s| == |g| && forall k :: 0 <= k < |g| ==> s[k] == g[k].score
  {
    seq(|g|, k requires 0 <= k < |g| => g[k].score)
  }

  /** `max(r["composite_score"] for r in cat_scores[c])`, the sort key of a
      category (0 for a category with no rows, which never occurs). */
  function CategoryTop<D>(rows: seq<Scored<D>>, c: string): real
  {
    var g := InCategory(rows, c);
    if g == [] then 0.0 else MaxOf(Scores(g))
  }

  function CategoryKey<D>(rows: seq<Scored<D>>): string -> real
  {
    c => CategoryTop(rows, c)
  }

  /** `sorted(cat_scores, key=..., reverse=True)`: categories by their best
      score, ties in first-appearance order. */
  function RankedCategories<D>(rows: seq<Scored<D>>): seq<string>
  {
    SortDesc(Categories(rows), CategoryKey(rows))
  }

  /** The ranked categories are the categories, each once, ordered by
      their best score; every one of them has rows. */
  lemma RankedCategoriesFacts<D>(rows: seq<Scored<D>>)
    ensures |RankedCategories(rows)| == |Categories(rows)|
    ensures forall c :: c in RankedCategories(rows) <==> c in Categories(rows)
    ensures forall c :: c in RankedCategories(rows) ==> InCategory(rows, c) != []
    ensures SortedDesc(RankedCategories(rows), CategoryKey(rows))
  {
    var cats := Categories(rows);
    SortDescCorrect(cats, CategoryKey(rows));
    var ranked := RankedCategories(rows);
    forall c ensures c in ranked <==> c in cats {
      assert c in ranked <==> c in multiset(ranked);
      assert c in cats <==> c in multiset(cats);
    }
    forall c | c in ranked ensures InCategory(rows, c) != [] {
      InCategoryEmpty(rows, c);
    }
  }

  /** The (category, best row) pairs the summary lists, in its order. */
  function BestPerCategory<D>(rows: seq<Scored<D>>): seq<(string, Scored<D>)>
  {
    var cats := RankedCategories(rows);
    RankedCategoriesFacts(rows);
    seq(|cats|, i requires 0 <= i < |cats| =>
      var g := InCategory(rows, cats[i]);
      (cats[i], g[BestIndex(g)]))
  }

  // ------------------------------------------------- on rows ranked by score

  /** A category's rows, taken from ranked rows, are themselves ranked. */
  lemma {:induction false} InCategoryRanked<D>(rows: seq<Scored<D>>, c: string)
    requires SortedDesc(rows, ScoreOf)
    ensures SortedDesc(InCategory(rows, c), ScoreOf)
  {
    if rows != [] {
      var n := |rows| - 1;
      var init, last := rows[..n], rows[n];
      SortedPrefix(rows, n, ScoreOf);
      InCategoryRanked(init, c);
      var g := InCategory(init, c);
      if last.category == c {
        assert InCategory(rows, c) == g + [last];
        forall k | 0 <= k < |g| ensures ScoreOf(g[k]) >= ScoreOf(last) {
          assert g[k] in init;
          var m :| 0 <= m < |init| && init[m] == g[k];
          assert init[m] == rows[m];
          assert m < n;
        }
        SortedAppend(g, last, ScoreOf);
      } else {
        assert InCategory(rows, c) == g;
      }
    }
  }

  /** On ranked rows the best row of a category is its first row, and the
      category's top score is that row's score. */
  lemma CategoryBestRanked<D>(rows: seq<Scored<D>>, c: string)
    requires SortedDesc(rows, ScoreOf)
    requires InCategory(rows, c) != []
    ensures BestIndex(InCategory(rows, c)) == 0
    ensures CategoryTop(rows, c) == InCategory(rows, c)[0].score
  {
    var g := InCategory(rows, c);
    InCategoryRanked(rows, c);
    var b := BestIndex(g);
    assert b > 0 ==> ScoreOf(g[0]) >= ScoreOf(g[b]);
    forall k | 0 <= k < |g| ensures Scores(g)[k] <= g[0].score {
      assert k > 0 ==> ScoreOf(g[0]) >= ScoreOf(g[k]);
    }
    MaxOfUnique(Scores(g), g[0].score);
  }

  /** On ranked rows, a category seen before the last row keeps its best
      score, and that score is at least the last row's. */
  lemma CategoryTopExtend<D>(rows: seq<Scored<D>>, c: string)
    requires SortedDesc(rows, ScoreOf) && rows != []
    requires c in Categories(rows[..|rows| - 1])
    ensures CategoryTop(rows, c) == CategoryTop(rows[..|rows| - 1], c)
    ensures CategoryTop(rows[..|rows| - 1], c) >= rows[|rows| - 1].score
  {
    var n := |rows| - 1;
    var init := rows[..n];
    SortedPrefix(rows, n, ScoreOf);
    InCategoryEmpty(init, c);
    InCategoryEmpty(rows, c);
    var g := InCategory(init, c);
    assert InCategory(rows, c)[0] == g[0];
    CategoryBestRanked(init, c);
    CategoryBestRanked(rows, c);
    var m :| 0 <= m < |init| && init[m] == g[0];
    assert init[m] == rows[m];
    assert ScoreOf(rows[m]) >= ScoreOf(rows[n]);
  }

  /** On ranked rows the categories already appear in order of their best
      score, so ordering them changes nothing. */
  lemma {:induction false} CategoriesRanked<D>(rows: seq<Scored<D>>)
    requires SortedDesc(rows, ScoreOf)
    ensures SortedDesc(Categories(rows), CategoryKey(rows))
  {
    if rows != [] {
      var n := |rows| - 1;
      var init, last := rows[..n], rows[n];
      SortedPrefix(rows, n, ScoreOf);
      CategoriesRanked(init);
      var p := Categories(init);
      forall c | c in p ensures CategoryTop(rows, c) == CategoryTop(init, c)
        && CategoryTop(init, c) >= last.score
      {
        CategoryTopExtend(rows, c);
      }
      var key, keyInit := CategoryKey(rows), CategoryKey(init);
      if last.category in p {
        forall i, j | 0 <= i < j < |p| ensures key(p[i]) >= key(p[j]) {
          assert keyInit(p[i]) >= keyInit(p[j]);
        }
      } else {
        InCategoryEmpty(init, last.category);
        assert InCategory(rows, last.category) == [last];
        CategoryBestRanked(rows, last.category);
        forall i, j | 0 <= i < j < |p| ensures key(p[i]) >= key(p[j]) {
          assert keyInit(p[i]) >= keyInit(p[j]);
        }
        assert SortedDesc(p, key);
        SortedAppend(p, last.category, key);
      }
    }
  }

  /** On ranked rows the summary lists the categories in order of first
      appearance, each with the first (highest ranked) row of that category. */
  lemma BestPerCategoryRanked<D>(rows: seq<Scored<D>>)
    requires SortedDesc(rows, ScoreOf)
    ensures RankedCategories(rows) == Categories(rows)
    ensures |BestPerCategory(rows)| == |Categories(rows)|
    ensures forall i :: 0 <= i < |Categories(rows)| ==>
      BestPerCategory(rows)[i].0 == Categories(rows)[i]
      && InCategory(rows, Categories(rows)[i]) != []
      && BestPerCategory(rows)[i].1 == InCategory(rows, Categories(rows)[i])[0]
  {
    CategoriesRanked(rows);
    SortDescOfSorted(Categories(rows), CategoryKey(rows));
    RankedCategoriesFacts(rows);
    forall i | 0 <= i < |Categories(rows)|
      ensures InCategory(rows, Categories(rows)[i]) != []
      && BestPerCategory(rows)[i].1 == InCategory(rows, Categories(rows)[i])[0]
    {
      var c := Categories(rows)[i];
      assert c in RankedCategories(rows);
      CategoryBestRanked(rows, c);
    }
  }

  /** `max(..., key=...)` keeps the first of tied rows: on ranked rows the
      best row printed for a category is the category's first row in ranked
      order, whatever other rows tie with it. */
  lemma BestPerCategoryFirst<D>(rows: seq<Scored<D>>, i: nat, m: nat)
    requires SortedDesc(rows, ScoreOf)
    requires i < |Categories(rows)|
    requires m < |rows| && rows[m].category == Categories(rows)[i]
    requires forall k :: 0 <= k < m ==> rows[k].category != Categories(rows)[i]
    ensures i < |BestPerCategory(rows)| && BestPerCategory(rows)[i] == (Categories(rows)[i], rows[m])
  {
    BestPerCategoryRanked(rows);
    InCategoryFirst(rows, Categories(rows)[i], m);
  }
}
