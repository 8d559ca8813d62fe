/** The derived columns of lines 17-37: country group and region, the
    freemail flag, and one boolean indicator per funnel stage. */
module Derive {
  import opened Cells
  import opened Frames

  /** The nine stage indicators the script adds to the table. */
  datatype Indicator =
    | EnteredStage2 | EnteredStage3 | ConvertedToOpportunity
    | OppStage1 | OppStage2 | OppStage3 | OppStage4 | OppStage5 | ClosedWon

  /** The CSV column each indicator is read from (lines 29-37). */
  function SourceColumn(ind: Indicator): (name: string)
    ensures name in RequiredColumns
  {
    match ind
    case EnteredStage2 => "Enters Lead Stage 2"
    case EnteredStage3 => "Enters Lead Stage 3"
    case ConvertedToOpportunity => "Converted to Sales Opportunity"
    case OppStage1 => "Enters Opportunity Stage 1"
    case OppStage2 => "Enters Opportunity Stage 2"
    case OppStage3 => "Enters Opportunity Stage 3"
    case OppStage4 => "Enters Opportunity Stage 4"
    case OppStage5 => "Enters Opportunity Stage 5"
    case ClosedWon => "Closed Won Date"
  }

  /** How one source cell becomes an indicator: `== True` for the
      opportunity conversion, `notna()` for every dated stage. */
  predicate StageTest(ind: Indicator, c: Cell) {
    if ind == ConvertedToOpportunity then EqualsBool(c, true) else NotNa(c)
  }

  /** A dated stage is reached exactly when its date is present; the
      conversion exactly when the cell equals True (the bool, or the integer
      1 that Python compares equal to it), so a missing or False cell
      leaves it unset. */
  lemma StageTestMeaning(ind: Indicator, c: Cell)
    ensures ind != ConvertedToOpportunity ==> (StageTest(ind, c) <==> c != Missing)
    ensures ind == ConvertedToOpportunity ==>
      (StageTest(ind, c) <==> c == Boolean(true) || c == Number(1))
  {
  }

  /** The nine indicators of one lead. */
  datatype Stages = Stages(
    enteredStage2: bool,
    enteredStage3: bool,
    convertedToOpportunity: bool,
    oppStage1: bool,
    oppStage2: bool,
    oppStage3: bool,
    oppStage4: bool,
    oppStage5: bool,
    closedWon: bool)
  {
    function Flag(ind: Indicator): bool {
      match ind
      case EnteredStage2 => enteredStage2
      case EnteredStage3 => enteredStage3
      case ConvertedToOpportunity => convertedToOpportunity
      case OppStage1 => oppStage1
      case OppStage2 => oppStage2
      case OppStage3 => oppStage3
      case OppStage4 => oppStage4
      case OppStage5 => oppStage5
      case ClosedWon => closedWon
    }
  }

  /** Nine indicators that agree on every stage are the same. */
  lemma FlagsDetermineStages(a: Stages, b: Stages)
    requires forall ind: Indicator :: a.Flag(ind) == b.Flag(ind)
    ensures a == b
  {
    assert a.Flag(EnteredStage2) == b.Flag(EnteredStage2);
    assert a.Flag(EnteredStage3) == b.Flag(EnteredStage3);
    assert a.Flag(ConvertedToOpportunity) == b.Flag(ConvertedToOpportunity);
    assert a.Flag(OppStage1) == b.Flag(OppStage1);
    assert a.Flag(OppStage2) == b.Flag(OppStage2);
    assert a.Flag(OppStage3) == b.Flag(OppStage3);
    assert a.Flag(OppStage4) == b.Flag(OppStage4);
    assert a.Flag(OppStage5) == b.Flag(OppStage5);
    assert a.Flag(ClosedWon) == b.Flag(ClosedWon);
  }

  /** One lead after derivation. `isFreemail` is a copy of the freemail
      column's cell, or Missing in a table that has no such column. */
  datatype DerivedRow = DerivedRow(
    countryGroup: Cell,
    region: string,
    companySize: Cell,
    isFreemail: Cell,
    stages: Stages)
  {
    function Flag(ind: Indicator): bool {
      stages.Flag(ind)
    }
  }

  /** The derived table; `hasFreemail` says whether the `is_freemail` column
      was created at all (line 24) or only the error of line 26 was shown. */
  datatype DerivedTable = DerivedTable(hasFreemail: bool, rows: seq<DerivedRow>)

  /** Line 18: `replace({"US": "United States"}).fillna("Unknown")`. */
  function CountryGroup(country: Cell): (g: Cell)
    ensures g != Missing
    ensures g == Text("United States") <==> country == Text("US") || country == Text("United States")
  {
    match country
    case Missing => Text("Unknown")
    case Text(s) => if s == "US" then Text("United States") else country
    case _ => country
  }

  /** Line 19: the region of a country group. */
  function RegionName(group: Cell): (r: string)
    ensures r == "US" || r == "Non-US"
    ensures r == "US" <==> group == Text("United States")
  {
    if group == Text("United States") then "US" else "Non-US"
  }

  /** Region has two values only, and is "US" exactly for the countries "US"
      and "United States"; any other country, a missing one included, is
      "Non-US". */
  lemma RegionOfCountry(country: Cell)
    ensures var r := RegionName(CountryGroup(country));
      && (r == "US" || r == "Non-US")
      && (r == "US" <==> country == Text("US") || country == Text("United States"))
      && (country == Missing ==> CountryGroup(country) == Text("Unknown") && r == "Non-US")
  {
  }

  /** The columns read from the CSV, in the order the script first reads
      them; `Company Size` is first read at line 42, after the stages. */
  const RequiredColumns: seq<string> := [
    "Country",
    "Enters Lead Stage 2", "Enters Lead Stage 3", "Converted to Sales Opportunity",
    "Enters Opportunity Stage 1", "Enters Opportunity Stage 2", "Enters Opportunity Stage 3",
    "Enters Opportunity Stage 4", "Enters Opportunity Stage 5", "Closed Won Date",
    "Company Size"]

  predicate HasRequired(columns: seq<string>) {
    forall name :: name in RequiredColumns ==> name in columns
  }

  /** The line of the script that reads each stage column. */
  function SourceLine(ind: Indicator): (line: nat)
    ensures 29 <= line <= 37
  {
    match ind
    case EnteredStage2 => 29
    case EnteredStage3 => 30
    case ConvertedToOpportunity => 31
    case OppStage1 => 32
    case OppStage2 => 33
    case OppStage3 => 34
    case OppStage4 => 35
    case OppStage5 => 36
    case ClosedWon => 37
  }

  /** The KeyError raised by lines 29-37, if any: the stage column, read
      on the earliest line, that the CSV lacks (`StageKeyErrorIsFirst`). */
  function StageKeyError(columns: seq<string>): (r: Option<string>)
    ensures r.None? <==> forall ind :: SourceColumn(ind) in columns
    ensures r.Some? ==> exists ind :: r.value == SourceColumn(ind) && r.value !in columns
  {
    if SourceColumn(EnteredStage2) !in columns then Some(SourceColumn(EnteredStage2))
    else if SourceColumn(EnteredStage3) !in columns then Some(SourceColumn(EnteredStage3))
    else if SourceColumn(ConvertedToOpportunity) !in columns then Some(SourceColumn(ConvertedToOpportunity))
    else if SourceColumn(OppStage1) !in columns then Some(SourceColumn(OppStage1))
    else if SourceColumn(OppStage2) !in columns then Some(SourceColumn(OppStage2))
    else if SourceColumn(OppStage3) !in columns then Some(SourceColumn(OppStage3))
    else if SourceColumn(OppStage4) !in columns then Some(SourceColumn(OppStage4))
    else if SourceColumn(OppStage5) !in columns then Some(SourceColumn(OppStage5))
    else if SourceColumn(ClosedWon) !in columns then Some(SourceColumn(ClosedWon))
    else None
  }

  /** Lines 29-37 raise on the first stage column, in line order, that the
      CSV lacks: every stage read on an earlier line was found. */
  lemma StageKeyErrorIsFirst(columns: seq<string>)
    ensures StageKeyError(columns).Some? ==> exists ind ::
      && StageKeyError(columns).value == SourceColumn(ind)
      && SourceColumn(ind) !in columns
      && forall e :: SourceLine(e) < SourceLine(ind) ==> SourceColumn(e) in columns
  {
    var r := StageKeyError(columns);
    if r.Some? {
      var ind :| r.value == SourceColumn(ind) && r.value !in columns;
      forall e | SourceLine(e) < SourceLine(ind)
        ensures SourceColumn(e) in columns
      {
        StageFoundBefore(columns, ind, e);
      }
    }
  }

  /** In the if-chain of StageKeyError, reaching the branch of `ind` means
      every stage on an earlier line was found. */
  lemma StageFoundBefore(columns: seq<string>, ind: Indicator, e: Indicator)
    requires StageKeyError(columns) == Some(SourceColumn(ind))
    requires SourceLine(e) < SourceLine(ind)
    ensures SourceColumn(e) in columns
  {
    match e
    case EnteredStage2 =>
    case EnteredStage3 =>
    case ConvertedToOpportunity =>
    case OppStage1 =>
    case OppStage2 =>
    case OppStage3 =>
    case OppStage4 =>
    case OppStage5 =>
    case ClosedWon =>
  }

  /** The KeyError the script raises while deriving columns, if any: the
      first required column, in reading order, that the CSV lacks. */
  function KeyError(columns: seq<string>): (r: Option<string>)
    ensures r.None? <==> HasRequired(columns)
    ensures r.Some? ==> r.value in RequiredColumns && r.value !in columns
  {
    if "Country" !in columns then Some("Country")
    else if StageKeyError(columns).Some? then StageKeyError(columns)
    else if "Company Size" !in columns then Some("Company Size")
    else None
  }

  /** The column lookups of lines 18-42 that can raise KeyError. */
  datatype Lookup = CountryLookup | StageLookup(ind: Indicator) | SizeLookup

  function LookupColumn(l: Lookup): (name: string)
    ensures name in RequiredColumns
  {
    match l
    case CountryLookup => "Country"
    case StageLookup(ind) => SourceColumn(ind)
    case SizeLookup => "Company Size"
  }

  /** The line of each lookup: `Country` on line 18, the stages on lines
      29-37, `Company Size` on line 42. */
  function LookupLine(l: Lookup): (line: nat)
    ensures 18 <= line <= 42
  {
    match l
    case CountryLookup => 18
    case StageLookup(ind) => SourceLine(ind)
    case SizeLookup => 42
  }

  /** The error is the one Python raises: the lookup on the earliest line
      whose column the CSV lacks, every earlier lookup having succeeded. */
  lemma KeyErrorIsFirstFailure(columns: seq<string>)
    ensures KeyError(columns).Some? ==> exists l ::
      && LookupColumn(l) == KeyError(columns).value
      && LookupColumn(l) !in columns
      && forall m :: LookupLine(m) < LookupLine(l) ==> LookupColumn(m) in columns
  {
    if "Country" !in columns {
      assert LookupColumn(CountryLookup) == "Country";
    } else if StageKeyError(columns).Some? {
      StageKeyErrorIsFirst(columns);
      var ind :| StageKeyError(columns).value == SourceColumn(ind) && SourceColumn(ind) !in columns
        && forall e :: SourceLine(e) < SourceLine(ind) ==> SourceColumn(e) in columns;
      assert LookupColumn(StageLookup(ind)) == KeyError(columns).value;
    } else if "Company Size" !in columns {
      assert LookupColumn(SizeLookup) == "Company Size";
    }
  }

  /** `df[SourceColumn(ind)]` turned into the indicator column. */
  function FlagColumn(f: Frame, ind: Indicator): (r: Option<seq<bool>>)
    requires f.Valid()
    ensures r.None? <==> SourceColumn(ind) !in f.columns
    ensures r.Some? ==> |r.value| == |f.rows|
    ensures r.Some? ==> forall i :: 0 <= i < |f.rows| ==> r.value[i] == StageTest(ind, At(f, i, SourceColumn(ind)))
  {
    var cells := Column(f, SourceColumn(ind));
    if cells.None? then None
    else Some(seq(|f.rows|, i requires 0 <= i < |f.rows| => StageTest(ind, cells.value[i])))
  }

  /** Lines 29-37: the nine indicator columns, or the KeyError of the first
      stage column the CSV lacks. */
  method DeriveStages(f: Frame) returns (r: Result<seq<Stages>>)
    requires f.Valid()
    ensures r.Err? <==> StageKeyError(f.columns).Some?
    ensures r.Err? ==> r.error == MissingColumn(StageKeyError(f.columns).value)
    ensures r.Ok? ==> |r.value| == |f.rows|
    ensures r.Ok? ==> forall i, ind :: 0 <= i < |f.rows| ==>
      r.value[i].Flag(ind) == StageTest(ind, At(f, i, SourceColumn(ind)))
  {
    var n := |f.rows|;
    var stage2 := FlagColumn(f, EnteredStage2);
    if stage2.None? {
      return Err(MissingColumn(SourceColumn(EnteredStage2)));
    }
    var stage3 := FlagColumn(f, EnteredStage3);
    if stage3.None? {
      return Err(MissingColumn(SourceColumn(EnteredStage3)));
    }
    var converted := FlagColumn(f, ConvertedToOpportunity);
    if converted.None? {
      return Err(MissingColumn(SourceColumn(ConvertedToOpportunity)));
    }
    var opp1 := FlagColumn(f, OppStage1);
    if opp1.None? {
      return Err(MissingColumn(SourceColumn(OppStage1)));
    }
    var opp2 := FlagColumn(f, OppStage2);
    if opp2.None? {
      return Err(MissingColumn(SourceColumn(OppStage2)));
    }
    var opp3 := FlagColumn(f, OppStage3);
    if opp3.None? {
      return Err(MissingColumn(SourceColumn(OppStage3)));
    }
    var opp4 := FlagColumn(f, OppStage4);
    if opp4.None? {
      return Err(MissingColumn(SourceColumn(OppStage4)));
    }
    var opp5 := FlagColumn(f, OppStage5);
    if opp5.None? {
      return Err(MissingColumn(SourceColumn(OppStage5)));
    }
    var won := FlagColumn(f, ClosedWon);
    if won.None? {
      return Err(MissingColumn(SourceColumn(ClosedWon)));
    }
    var stages := seq(n, i requires 0 <= i < n =>
      Stages(stage2.value[i], stage3.value[i], converted.value[i], opp1.value[i], opp2.value[i], opp3.value[i], opp4.value[i], opp5.value[i], won.value[i]));
    assert StageKeyError(f.columns).None?;
    forall i, ind: Indicator | 0 <= i < n
      ensures stages[i].Flag(ind) == StageTest(ind, At(f, i, SourceColumn(ind)))
    {
      match ind
      case EnteredStage2 => assert stages[i].Flag(ind) == stage2.value[i];
      case EnteredStage3 => assert stages[i].Flag(ind) == stage3.value[i];
      case ConvertedToOpportunity => assert stages[i].Flag(ind) == converted.value[i];
      case OppStage1 => assert stages[i].Flag(ind) == opp1.value[i];
      case OppStage2 => assert stages[i].Flag(ind) == opp2.value[i];
      case OppStage3 => assert stages[i].Flag(ind) == opp3.value[i];
      case OppStage4 => assert stages[i].Flag(ind) == opp4.value[i];
      case OppStage5 => assert stages[i].Flag(ind) == opp5.value[i];
      case ClosedWon => assert stages[i].Flag(ind) == won.value[i];
    }
    r := Ok(stages);
  }

  /** What a derived row says about row `i` of the frame. */
  ghost predicate DerivedFrom(f: Frame, i: nat, row: DerivedRow)
    requires f.Valid() && i < |f.rows|
    requires HasRequired(f.columns)
  {
    && row.countryGroup == CountryGroup(At(f, i, "Country"))
    && (row.region == "US" || row.region == "Non-US")
    && (row.region == "US" <==> At(f, i, "Country") == Text("US") || At(f, i, "Country") == Text("United States"))
    && row.companySize == At(f, i, "Company Size")
    && (FirstFreemail(f.columns).Some? ==> row.isFreemail == f.rows[i][FirstFreemail(f.columns).value])
    && (FirstFreemail(f.columns).None? ==> row.isFreemail == Missing)
    && forall ind: Indicator :: row.Flag(ind) == StageTest(ind, At(f, i, SourceColumn(ind)))
  }

  /** A row of the frame has exactly one derived row: the description above
      leaves no field open. */
  lemma DerivedRowIsUnique(f: Frame, i: nat, a: DerivedRow, b: DerivedRow)
    requires f.Valid() && i < |f.rows| && HasRequired(f.columns)
    requires DerivedFrom(f, i, a) && DerivedFrom(f, i, b)
    ensures a == b
  {
    forall ind: Indicator
      ensures a.stages.Flag(ind) == b.stages.Flag(ind)
    {
      assert a.Flag(ind) == b.Flag(ind);
    }
    FlagsDetermineStages(a.stages, b.stages);
  }

  /** Lines 17-37 (with the `Company Size` lookup of line 42): derive every
      column, or stop at the first column the CSV lacks. A missing freemail
      column is not an error here: the script only shows a message and goes
      on without `is_freemail`. */
  method DeriveColumns(f: Frame) returns (r: Result<DerivedTable>)
    requires f.Valid()
    ensures r.Err? <==> KeyError(f.columns).Some?
    ensures r.Err? ==> r.error == MissingColumn(KeyError(f.columns).value)
    ensures r.Ok? ==> |r.value.rows| == |f.rows|
    ensures r.Ok? ==> (r.value.hasFreemail <==> exists k :: FreemailAt(f.columns, k))
    ensures r.Ok? ==> forall i :: 0 <= i < |f.rows| ==> DerivedFrom(f, i, r.value.rows[i])
  {
    var n := |f.rows|;
    var country := Column(f, "Country");
    if country.None? {
      return Err(MissingColumn("Country"));
    }
    var group := seq(n, i requires 0 <= i < n => CountryGroup(country.value[i]));
    var region := seq(n, i requires 0 <= i < n => RegionName(group[i]));

    var found := FirstFreemail(f.columns);
    FirstFreemailIsFirst(f.columns);
    var isFreemail := match found
      case Some(k) => seq(n, i requires 0 <= i < n => f.rows[i][k])
      case None => seq(n, i => Missing);

    var stages := DeriveStages(f);
    if stages.Err? {
      return Err(stages.error);
    }
    var size := Column(f, "Company Size");
    if size.None? {
      return Err(MissingColumn("Company Size"));
    }

    var rows := seq(n, i requires 0 <= i < n =>
      DerivedRow(group[i], region[i], size.value[i], isFreemail[i], stages.value[i]));
    assert KeyError(f.columns).None?;
    forall i | 0 <= i < n
      ensures DerivedFrom(f, i, rows[i])
    {
      var c := At(f, i, "Country");
      assert country.value[i] == c;
      RegionOfCountry(c);
      assert rows[i].countryGroup == CountryGroup(c);
      assert rows[i].region == RegionName(CountryGroup(c));
      assert rows[i].companySize == At(f, i, "Company Size");
      assert rows[i].stages == stages.value[i];
    }
    r := Ok(DerivedTable(found.Some?, rows));
  }
}
