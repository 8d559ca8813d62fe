/** The two funnels of lines 58-86: per-stage counts over the filtered
    table, pandas' `pct_change().fillna(1)` as a percent string, and the
    label drawn on each funnel segment. */
module Funnel {
  import opened Derive
  import opened Filters
  import Text

  // ---------------------------------------------------------------------
  // Stage counts

  /** `filtered_df[indicator].sum()`: the number of rows whose flag is set. */
  function CountTrue(rows: seq<DerivedRow>, ind: Indicator): (n: nat)
    ensures n <= |rows|
  {
    if rows == [] then 0
    else (if rows[0].Flag(ind) then 1 else 0) + CountTrue(rows[1..], ind)
  }

  /** The sum counts exactly the rows that reached the stage. */
  lemma {:induction false} CountTrueIsRowsReached(rows: seq<DerivedRow>, ind: Indicator)
    ensures CountTrue(rows, ind) == |Where(rows, (r: DerivedRow) => r.Flag(ind))|
    decreases |rows|
  {
    if rows != [] {
      CountTrueIsRowsReached(rows[1..], ind);
    }
  }

  /** What a funnel stage counts: every row (`len(filtered_df)`) or the rows
      with one indicator set. */
  datatype Measure = RowCount | Total(ind: Indicator)

  function Measured(rows: seq<DerivedRow>, m: Measure): (n: nat)
    ensures n <= |rows|
  {
    match m
    case RowCount => |rows|
    case Total(ind) => CountTrue(rows, ind)
  }

  datatype StageSpec = StageSpec(name: string, measure: Measure)

  /** Lines 64-67: MQL to sales opportunity. */
  const MarketingStages: seq<StageSpec> := [
    StageSpec("MQLs", RowCount),
    StageSpec("Lead Stage 2", Total(EnteredStage2)),
    StageSpec("Lead Stage 3", Total(EnteredStage3)),
    StageSpec("Converted to Opportunity", Total(ConvertedToOpportunity))]

  /** Lines 79-84: sales opportunity to closed won. */
  const SalesStages: seq<StageSpec> := [
    StageSpec("Opportunity Stage 1", Total(OppStage1)),
    StageSpec("Stage 2", Total(OppStage2)),
    StageSpec("Stage 3", Total(OppStage3)),
    StageSpec("Stage 4", Total(OppStage4)),
    StageSpec("Stage 5", Total(OppStage5)),
    StageSpec("Closed Won", Total(ClosedWon))]

  /** The `Count` column of a funnel. */
  function Counts(rows: seq<DerivedRow>, stages: seq<StageSpec>): (c: seq<nat>)
    ensures |c| == |stages|
    ensures forall i :: 0 <= i < |c| ==> c[i] <= |rows|
  {
    seq(|stages|, i requires 0 <= i < |stages| => Measured(rows, stages[i].measure))
  }

  // ---------------------------------------------------------------------
  // `pct_change().fillna(1)`

  /** A float as far as this computation needs one. */
  datatype Change = Finite(x: real) | NaN | PosInf

  /** `cur / prev - 1` in floating point: NaN for 0/0, +inf for k/0 with k > 0. */
  function Step(prev: nat, cur: nat): (r: Change)
    ensures r.NaN? <==> prev == 0 && cur == 0
    ensures r.PosInf? <==> prev == 0 && cur > 0
    ensures r.Finite? ==> r.x >= -1.0
  {
    if prev > 0 then Finite(cur as real / prev as real - 1.0)
    else if cur == 0 then NaN
    else PosInf
  }

  /** `Count.pct_change()`: nothing precedes the first entry, so it is NaN. */
  function PctChange(c: seq<nat>): (r: seq<Change>)
    ensures |r| == |c|
  {
    seq(|c|, i requires 0 <= i < |c| => if i == 0 then NaN else Step(c[i - 1], c[i]))
  }

  /** `.fillna(v)`: every NaN, wherever it is, becomes `v`. */
  function FillNa(r: seq<Change>, v: real): (f: seq<Change>)
    ensures |f| == |r|
    ensures forall i :: 0 <= i < |r| ==> !f[i].NaN?
  {
    seq(|r|, i requires 0 <= i < |r| => if r[i].NaN? then Finite(v) else r[i])
  }

  /** `f"({x:.0%})"`; Python prints infinity as "inf" and NaN as "nan". */
  function ChangeText(x: Change): (s: string)
  {
    match x
    case Finite(v) => "(" + Text.PercentOf(v) + ")"
    case PosInf => "(inf%)"
    case NaN => "(nan%)"
  }

  /** The `% of Previous` column (lines 68 and 85). */
  function PercentColumn(c: seq<nat>): (p: seq<string>)
    ensures |p| == |c|
  {
    var filled := FillNa(PctChange(c), 1.0);
    seq(|c|, i requires 0 <= i < |c| => ChangeText(filled[i]))
  }

  lemma HundredPercent()
    ensures ChangeText(Finite(1.0)) == "(100%)"
  {
    assert Text.RoundHalfEven(100.0) == 100;
    assert Text.Decimal(1) == "1";
    assert Text.Decimal(10) == "10";
    assert Text.Decimal(100) == "100";
  }

  /** The first entry, and every step from 0 to 0, reads "(100%)": the NaN
      that `fillna(1)` replaces. A step from 0 to a positive count is
      infinite. */
  lemma PercentAfterNothing(c: seq<nat>, i: nat)
    requires i < |c|
    ensures i == 0 ==> PercentColumn(c)[i] == "(100%)"
    ensures i > 0 && c[i - 1] == 0 && c[i] == 0 ==> PercentColumn(c)[i] == "(100%)"
    ensures i > 0 && c[i - 1] == 0 && c[i] > 0 ==> PercentColumn(c)[i] == "(inf%)"
  {
    HundredPercent();
  }

  /** A step from a positive count shows the relative change, not the ratio:
      at least -100%, and negative exactly when the count drops. */
  lemma PercentRelativeChange(c: seq<nat>, i: nat)
    requires 0 < i < |c| && c[i - 1] > 0
    ensures var rel := (c[i] as real - c[i - 1] as real) / c[i - 1] as real;
      && FillNa(PctChange(c), 1.0)[i] == Finite(rel)
      && rel >= -1.0
      && PercentColumn(c)[i] == "(" + Text.PercentOf(rel) + ")"
      && (PercentColumn(c)[i][1] == '-' <==> c[i] < c[i - 1])
  {
    var prev, cur := c[i - 1] as real, c[i] as real;
    var rel := (cur - prev) / prev;
    RatioMinusOne(cur, prev);
    assert rel >= -1.0 by {
      assert cur / prev >= 0.0;
    }
    assert rel < 0.0 <==> cur < prev by {
      if cur < prev {
        assert cur / prev < prev / prev;
      } else {
        assert cur / prev >= prev / prev;
      }
    }
  }

  /** An unchanged count prints "(0%)". */
  lemma PercentFlat(c: seq<nat>, i: nat)
    requires 0 < i < |c| && c[i - 1] > 0 && c[i] == c[i - 1]
    ensures PercentColumn(c)[i] == "(0%)"
  {
    PercentRelativeChange(c, i);
    assert (c[i] as real - c[i - 1] as real) / c[i - 1] as real == 0.0;
    assert Text.RoundHalfEven(0.0) == 0;
  }

  /** A stage nobody reaches after one somebody reached prints "(-100%)". */
  lemma PercentEmptied(c: seq<nat>, i: nat)
    requires 0 < i < |c| && c[i - 1] > 0 && c[i] == 0
    ensures PercentColumn(c)[i] == "(-100%)"
  {
    PercentRelativeChange(c, i);
    assert (c[i] as real - c[i - 1] as real) / c[i - 1] as real == -1.0;
    assert Text.RoundHalfEven(100.0) == 100;
    assert Text.Decimal(100) == "100" by {
      assert Text.Decimal(1) == "1";
      assert Text.Decimal(10) == "10";
    }
  }

  /** `cur / prev - 1` is the relative change `(cur - prev) / prev`. */
  lemma RatioMinusOne(cur: real, prev: real)
    requires prev > 0.0
    ensures cur / prev - 1.0 == (cur - prev) / prev
  {
    var q := cur / prev;
    var rel := (cur - prev) / prev;
    assert q * prev == cur;
    assert rel * prev == cur - prev;
    var d := rel - (q - 1.0);
    assert d * prev == rel * prev - (q - 1.0) * prev;
    assert d == 0.0 by {
      assert d == (d * prev) / prev;
    }
  }

  /** After `fillna(1)` nothing is NaN; an entry is infinite exactly when a
      positive count follows a zero count. */
  lemma InfiniteOnlyAfterZero(c: seq<nat>, i: nat)
    requires i < |c|
    ensures FillNa(PctChange(c), 1.0)[i].PosInf? <==> i > 0 && c[i - 1] == 0 && c[i] > 0
    ensures FillNa(PctChange(c), 1.0)[i].Finite? <==> !(i > 0 && c[i - 1] == 0 && c[i] > 0)
  {
  }

  // ---------------------------------------------------------------------
  // Labels and funnels

  /** Lines 69 and 86: the count with thousands separators, a line break,
      then the percent string. */
  function Label(count: nat, percent: string): (s: string)
    ensures |s| > |percent| + 1 && s[|s| - |percent|..] == percent && s[|s| - |percent| - 1] == '\n'
  {
    Text.Grouped(count) + "\n" + percent
  }

  /** The label's first line shows the count: dropping its separators and
      reading the digits gives the count back, and the line break follows. */
  lemma LabelShowsCount(count: nat, percent: string)
    ensures var g := Text.Grouped(count);
      && |Label(count, percent)| == |g| + 1 + |percent|
      && Label(count, percent)[|g|] == '\n'
      && Label(count, percent)[|g| + 1..] == percent
      && Text.Value(Text.Ungroup(Label(count, percent)[..|g|])) == count
  {
    var g := Text.Grouped(count);
    assert Label(count, percent)[..|g|] == g;
    Text.GroupedValue(count);
  }

  /** One segment of a funnel chart. */
  datatype StageRow = StageRow(stage: string, count: nat, percent: string, text: string)

  function BuildFunnel(rows: seq<DerivedRow>, stages: seq<StageSpec>): (f: seq<StageRow>)
    ensures |f| == |stages|
  {
    var counts := Counts(rows, stages);
    var percents := PercentColumn(counts);
    seq(|stages|, i requires 0 <= i < |stages| =>
      StageRow(stages[i].name, counts[i], percents[i], Label(counts[i], percents[i])))
  }

  function MarketingFunnel(rows: seq<DerivedRow>): (f: seq<StageRow>)
    ensures |f| == 4
  {
    BuildFunnel(rows, MarketingStages)
  }

  function SalesFunnel(rows: seq<DerivedRow>): (f: seq<StageRow>)
    ensures |f| == 6
  {
    BuildFunnel(rows, SalesStages)
  }

  /** Any funnel keeps its stages in the given order, counts each stage
      independently with a count no larger than the table, opens with
      "(100%)", and labels every stage with its count and its percent. */
  lemma FunnelShape(rows: seq<DerivedRow>, stages: seq<StageSpec>)
    requires |stages| > 0
    ensures var f := BuildFunnel(rows, stages);
      && |f| == |stages|
      && f[0].percent == "(100%)"
      && forall i :: 0 <= i < |f| ==>
        && f[i].stage == stages[i].name
        && f[i].count == Measured(rows, stages[i].measure)
        && f[i].count <= |rows|
        && f[i].percent == PercentColumn(Counts(rows, stages))[i]
        && f[i].text == Label(f[i].count, f[i].percent)
  {
    PercentAfterNothing(Counts(rows, stages), 0);
  }

  /** The marketing funnel: four stages in fixed order, the first counting
      every filtered row and the others at most that many. */
  lemma MarketingFunnelShape(rows: seq<DerivedRow>)
    ensures var f := MarketingFunnel(rows);
      && |f| == 4
      && f[0].stage == "MQLs" && f[1].stage == "Lead Stage 2"
      && f[2].stage == "Lead Stage 3" && f[3].stage == "Converted to Opportunity"
      && f[0].count == |rows|
      && f[1].count == |Where(rows, (r: DerivedRow) => r.Flag(EnteredStage2))|
      && f[2].count == |Where(rows, (r: DerivedRow) => r.Flag(EnteredStage3))|
      && f[3].count == |Where(rows, (r: DerivedRow) => r.Flag(ConvertedToOpportunity))|
      && (forall i :: 0 <= i < 4 ==> f[i].count <= f[0].count)
      && f[0].percent == "(100%)"
  {
    FunnelShape(rows, MarketingStages);
    CountTrueIsRowsReached(rows, EnteredStage2);
    CountTrueIsRowsReached(rows, EnteredStage3);
    CountTrueIsRowsReached(rows, ConvertedToOpportunity);
  }

  /** The indicators the sales stages total, in stage order. */
  const SalesIndicators: seq<Indicator> :=
    [OppStage1, OppStage2, OppStage3, OppStage4, OppStage5, ClosedWon]

  lemma SalesStagesTotal()
    ensures |SalesStages| == |SalesIndicators|
    ensures forall i :: 0 <= i < |SalesStages| ==> SalesStages[i].measure == Total(SalesIndicators[i])
  {
  }

  /** The sales funnel: six stages in fixed order, each the number of
      filtered rows that reached it, opening with "(100%)". */
  lemma SalesFunnelShape(rows: seq<DerivedRow>)
    ensures var f := SalesFunnel(rows);
      && |f| == 6
      && f[0].stage == "Opportunity Stage 1" && f[1].stage == "Stage 2" && f[2].stage == "Stage 3"
      && f[3].stage == "Stage 4" && f[4].stage == "Stage 5" && f[5].stage == "Closed Won"
      && (forall i :: 0 <= i < 6 ==>
            f[i].count == |Where(rows, (r: DerivedRow) => r.Flag(SalesIndicators[i]))|
            && f[i].count <= |rows|)
      && f[0].percent == "(100%)"
  {
    FunnelShape(rows, SalesStages);
    SalesStagesTotal();
    forall i | 0 <= i < 6
      ensures SalesFunnel(rows)[i].count == |Where(rows, (r: DerivedRow) => r.Flag(SalesIndicators[i]))|
    {
      CountTrueIsRowsReached(rows, SalesIndicators[i]);
    }
  }

  /** Counts 10, 5, 2, 0 read "(100%)", "(-50%)", "(-60%)", "(-100%)": each
      step shows the change from the previous stage, not the share kept. */
  lemma HalvingShowsMinusFifty(c: seq<nat>)
    requires |c| == 4 && c[0] == 10 && c[1] == 5 && c[2] == 2 && c[3] == 0
    ensures PercentColumn(c) == ["(100%)", "(-50%)", "(-60%)", "(-100%)"]
  {
    PercentAfterNothing(c, 0);
    ExactDrop(c, 1, 50);
    ExactDrop(c, 2, 60);
    PercentEmptied(c, 3);
    assert Text.Decimal(50) == "50" && Text.Decimal(60) == "60";
    var p := PercentColumn(c);
    assert p[1] == "(-50%)" by {
      assert "(-" + "50" + "%)" == "(-50%)";
    }
    assert p[2] == "(-60%)" by {
      assert "(-" + "60" + "%)" == "(-60%)";
    }
    assert p == [p[0], p[1], p[2], p[3]];
  }

  /** A fall by exactly `k` percent of the previous count prints "(-k%)". */
  lemma ExactDrop(c: seq<nat>, i: nat, k: nat)
    requires 0 < i < |c| && c[i] < c[i - 1]
    requires (c[i - 1] - c[i]) * 100 == k * c[i - 1]
    ensures PercentColumn(c)[i] == "(-" + Text.Decimal(k) + "%)"
  {
    PercentRelativeChange(c, i);
    DropInPercent(c[i - 1], c[i], k);
    assert Text.RoundHalfEven(k as real) == k;
  }

  /** The arithmetic behind ExactDrop, on reals. */
  lemma DropInPercent(p: nat, q: nat, k: nat)
    requires p > 0 && q < p
    requires (p - q) * 100 == k * p
    ensures -100.0 * ((q as real - p as real) / p as real) == k as real
  {
    var prev, cur := p as real, q as real;
    assert (k * p) as real == k as real * prev;
    assert (prev - cur) * 100.0 == k as real * prev;
    var rel := (cur - prev) / prev;
    assert rel * prev == cur - prev;
    var d := -100.0 * rel - k as real;
    assert d * prev == -100.0 * (rel * prev) - k as real * prev;
    assert d * prev == 0.0;
    assert d == (d * prev) / prev;
  }

  /** With no rows left after filtering, every count is 0 and every percent
      reads "(100%)", since each 0/0 step is NaN filled with 1. */
  lemma EmptyTableFunnels()
    ensures forall i :: 0 <= i < |MarketingFunnel([])| ==>
      MarketingFunnel([])[i].count == 0 && MarketingFunnel([])[i].percent == "(100%)"
    ensures forall i :: 0 <= i < |SalesFunnel([])| ==>
      SalesFunnel([])[i].count == 0 && SalesFunnel([])[i].percent == "(100%)"
  {
    forall i | 0 <= i < |MarketingStages|
      ensures MarketingFunnel([])[i].percent == "(100%)"
    {
      PercentAfterNothing(Counts([], MarketingStages), i);
    }
    forall i | 0 <= i < |SalesStages|
      ensures SalesFunnel([])[i].percent == "(100%)"
    {
      PercentAfterNothing(Counts([], SalesStages), i);
    }
  }

  /** Stages are counted independently: a lead can be at stage 3 without
      stage 2, so a later count may exceed an earlier one, and a step up
      from zero shows "(inf%)". */
  lemma LaterStageMayExceedEarlier(row: DerivedRow)
    requires !row.Flag(EnteredStage2) && row.Flag(EnteredStage3) && !row.Flag(ConvertedToOpportunity)
    ensures var f := MarketingFunnel([row]);
      && f[1].count == 0 && f[2].count == 1 && f[2].count > f[1].count
      && f[2].percent == "(inf%)"
  {
    var c := Counts([row], MarketingStages);
    assert [row][1..] == [];
    assert c[1] == 0 && c[2] == 1;
    PercentAfterNothing(c, 2);
  }
}
