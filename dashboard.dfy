/** One run of the script (lines 15-86) on a loaded table and a choice of
    filters, up to the two funnels handed to the chart renderer. */
module Dashboard {
  import opened Cells
  import opened Frames
  import opened Derive
  import opened Filters
  import opened Funnel

  /** What the two charts are drawn from. */
  datatype Funnels = Funnels(marketing: seq<StageRow>, sales: seq<StageRow>)

  /** Both funnels of a filtered table (lines 58-86). */
  function Charts(rows: seq<DerivedRow>): (c: Funnels)
    ensures |c.marketing| == 4 && |c.sales| == 6
  {
    Funnels(MarketingFunnel(rows), SalesFunnel(rows))
  }

  /** `t` is the table of lines 17-37 for the frame `f`, row for row. */
  ghost predicate DerivedRowsOf(f: Frame, t: seq<DerivedRow>)
    requires f.Valid() && HasRequired(f.columns)
  {
    |t| == |f.rows| && forall i :: 0 <= i < |f.rows| ==> DerivedFrom(f, i, t[i])
  }

  /** The charts of any filtered table: four marketing and six sales stages,
      the first marketing stage counting every row and no stage of either
      funnel counting more, both opening with "(100%)". */
  lemma ChartsShape(rows: seq<DerivedRow>)
    ensures var m, s := Charts(rows).marketing, Charts(rows).sales;
      && |m| == 4 && |s| == 6
      && m[0].count == |rows|
      && (forall i :: 0 <= i < 4 ==> m[i].count <= m[0].count)
      && (forall i :: 0 <= i < 6 ==> s[i].count <= m[0].count)
      && m[0].percent == "(100%)" && s[0].percent == "(100%)"
  {
    MarketingFunnelShape(rows);
    SalesFunnelShape(rows);
  }

  /** Filtering never adds leads, so the top of the marketing funnel is at
      most the number of leads in the CSV, and exactly that many when no
      filter is chosen. */
  lemma TopOfFunnel(t: seq<DerivedRow>, sel: Selection)
    ensures Charts(Filtered(t, sel)).marketing[0].count <= |t|
    ensures sel == Selection(AllRegions, [], AllEmails) ==>
      Charts(Filtered(t, sel)).marketing[0].count == |t|
  {
    FilteredIsSubsequence(t, sel);
    ChartsShape(Filtered(t, sel));
    if sel == Selection(AllRegions, [], AllEmails) {
      NoSelectionKeepsAll(t);
    }
  }

  /** A frame has one derived table, so the charts of a run are determined
      by the frame and the selection. */
  lemma DerivedRowsAreUnique(f: Frame, t: seq<DerivedRow>, u: seq<DerivedRow>)
    requires f.Valid() && HasRequired(f.columns)
    requires DerivedRowsOf(f, t) && DerivedRowsOf(f, u)
    ensures t == u
  {
    forall i | 0 <= i < |t|
      ensures t[i] == u[i]
    {
      DerivedRowIsUnique(f, i, t[i], u[i]);
    }
  }

  /** Derive the columns, filter, and build both funnels. The run fails
      with the KeyError of the first required column the CSV lacks, or,
      when an email filter is chosen and no column name contains
      "freemail", with the KeyError for `is_freemail`; otherwise it draws
      the charts of the derived table under the chosen filters. */
  method Run(f: Frame, sel: Selection) returns (r: Result<Funnels>)
    requires f.Valid()
    ensures r.Err? <==>
      KeyError(f.columns).Some? || (sel.email != AllEmails && forall k :: !FreemailAt(f.columns, k))
    ensures r.Err? && KeyError(f.columns).Some? ==> r.error == MissingColumn(KeyError(f.columns).value)
    ensures r.Err? && KeyError(f.columns).None? ==> r.error == MissingColumn("is_freemail")
    ensures r.Ok? ==> exists t :: DerivedRowsOf(f, t) && r.value == Charts(Filtered(t, sel))
  {
    var derived := DeriveColumns(f);
    if derived.Err? {
      return Err(derived.error);
    }
    var filtered := FilterChain(derived.value, sel);
    if filtered.Err? {
      return Err(filtered.error);
    }
    r := Ok(Charts(filtered.value));
    assert DerivedRowsOf(f, derived.value.rows);
  }
}
