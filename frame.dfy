/** The lead table as the CSV reader hands it over (lines 11-15), column
    lookup by name, and the search for the freemail column (lines 22-26). */
module Frames {
  import opened Cells
  import Text

  /** A table: column names in file order, and one row of cells per lead. */
  datatype Frame = Frame(columns: seq<string>, rows: seq<seq<Cell>>) {
    /** What the CSV reader guarantees: column names are distinct (repeated
        header names are renamed on reading) and every row has one cell per
        column. */
    predicate Valid() {
      && (forall i, j :: 0 <= i < j < |columns| ==> columns[i] != columns[j])
      && (forall r :: 0 <= r < |rows| ==> |rows[r]| == |columns|)
    }
  }

  /** Position of the column called `name`, if the frame has one. */
  function IndexOf(columns: seq<string>, name: string): (r: Option<nat>)
    ensures r.None? <==> name !in columns
    ensures r.Some? ==> r.value < |columns| && columns[r.value] == name
    ensures r.Some? ==> forall j :: 0 <= j < r.value ==> columns[j] != name
  {
    if columns == [] then None
    else if columns[0] == name then Some(0)
    else match IndexOf(columns[1..], name)
      case None => None
      case Some(k) => Some(k + 1)
  }

  /** `df[name]`: the column's cells in row order, or None where pandas
      raises KeyError. */
  function Column(f: Frame, name: string): (r: Option<seq<Cell>>)
    requires f.Valid()
    ensures r.None? <==> name !in f.columns
    ensures r.Some? ==> |r.value| == |f.rows|
  {
    match IndexOf(f.columns, name)
    case None => None
    case Some(k) => Some(seq(|f.rows|, i requires 0 <= i < |f.rows| => f.rows[i][k]))
  }

  /** The cell of row `i` in the column called `name`. */
  function At(f: Frame, i: nat, name: string): Cell
    requires f.Valid() && i < |f.rows| && name in f.columns
  {
    f.rows[i][IndexOf(f.columns, name).value]
  }

  /** `'freemail' in col.lower()`. */
  predicate IsFreemailName(col: string) {
    Text.Contains(Text.Lower(col), "freemail")
  }

  /** Column `k` exists and its name contains "freemail". */
  predicate FreemailAt(columns: seq<string>, k: int) {
    0 <= k < |columns| && IsFreemailName(columns[k])
  }

  /** `[col for col in df.columns if 'freemail' in col.lower()]`, as column
      positions: every matching column, once, in column order. */
  function FreemailColumns(columns: seq<string>): (r: seq<nat>)
    ensures forall k :: k in r ==> FreemailAt(columns, k)
    ensures forall k :: FreemailAt(columns, k) ==> k in r
    ensures forall a, b :: 0 <= a < b < |r| ==> r[a] < r[b]
  {
    if columns == [] then []
    else
      var init := columns[..|columns| - 1];
      var before := FreemailColumns(init);
      assert forall k :: FreemailAt(init, k) <==> FreemailAt(columns, k) && k < |init|;
      forall a | 0 <= a < |before| ensures before[a] < |init| {
        assert before[a] in before;
      }
      before + if IsFreemailName(columns[|columns| - 1]) then [|columns| - 1] else []
  }

  /** `freemail_col[0]` when the list is non-empty. */
  function FirstFreemail(columns: seq<string>): (r: Option<nat>)
    ensures r.Some? ==> r.value < |columns|
  {
    var found := FreemailColumns(columns);
    if |found| > 0 then
      assert found[0] in found;
      Some(found[0])
    else None
  }

  /** The source of `is_freemail` is the first column, in column order, whose
      lower-cased name contains "freemail"; there is none exactly when no
      column name contains it. */
  lemma FirstFreemailIsFirst(columns: seq<string>)
    ensures FirstFreemail(columns).None? <==> forall k :: !FreemailAt(columns, k)
    ensures FirstFreemail(columns).Some? ==>
      var k := FirstFreemail(columns).value;
      FreemailAt(columns, k) && forall j :: 0 <= j < k ==> !FreemailAt(columns, j)
  {
    var found := FreemailColumns(columns);
    if |found| > 0 {
      assert found[0] in found;
      assert forall a :: 0 <= a < |found| ==> found[0] <= found[a];
    }
  }

  /** The match ignores case: a name whose letters at `i..i+8` lower-case to
      "freemail" is a freemail column, whatever their case. */
  lemma FreemailInAnyCase(col: string, i: nat)
    requires i + 8 <= |col|
    requires forall j :: 0 <= j < 8 ==> Text.LowerChar(col[i + j]) == "freemail"[j]
    ensures IsFreemailName(col)
  {
    var lc := Text.Lower(col);
    assert lc[i..i + 8] == "freemail";
    Text.OccurrenceFound(lc, "freemail", i);
  }

  /** A name shorter than "freemail" never matches. */
  lemma ShortNameIsNotFreemail(col: string)
    requires |col| < 8
    ensures !IsFreemailName(col)
  {
    Text.TooLongNotContained(Text.Lower(col), "freemail");
  }

  /** The search ignores case and takes the first match: with a column
      "Is_FreeMail" after a "Country" column, `is_freemail` is read from
      the second column. */
  lemma FreemailSearchIgnoresCase(columns: seq<string>)
    requires columns == ["Country", "Is_FreeMail"]
    ensures FirstFreemail(columns) == Some(1)
  {
    var name := columns[1];
    assert forall j :: 0 <= j < 8 ==> Text.LowerChar(name[3 + j]) == "freemail"[j];
    FreemailInAnyCase(name, 3);
    ShortNameIsNotFreemail(columns[0]);
    FirstFreemailIsFirst(columns);
  }
}
