/** The filter chain of lines 45-56: region, company size and email type,
    each optional, applied one after the other to a copy of the table. */
module Filters {
  import opened Cells
  import opened Derive

  // ---------------------------------------------------------------------
  // Boolean-mask selection and subsequences

  /** `frame[mask]`: the elements that pass `keep`, in their original order. */
  function Where<T>(s: seq<T>, keep: T -> bool): (r: seq<T>)
    ensures |r| <= |s|
    ensures forall x :: x in r ==> x in s && keep(x)
  {
    if s == [] then []
    else (if keep(s[0]) then [s[0]] else []) + Where(s[1..], keep)
  }

  /** `a` is `b` with some elements deleted and the rest kept in order. */
  predicate IsSubsequence<T(==)>(a: seq<T>, b: seq<T>)
    decreases |b|
  {
    if b == [] then a == []
    else IsSubsequence(a, b[1..]) || (a != [] && a[0] == b[0] && IsSubsequence(a[1..], b[1..]))
  }

  lemma {:induction false} SubsequenceShorter<T>(a: seq<T>, b: seq<T>)
    requires IsSubsequence(a, b)
    ensures |a| <= |b|
    decreases |b|
  {
    if b != [] {
      if IsSubsequence(a, b[1..]) {
        SubsequenceShorter(a, b[1..]);
      } else {
        SubsequenceShorter(a[1..], b[1..]);
      }
    }
  }

  /** A mask keeps an order-preserving subsequence of its input. */
  lemma {:induction false} WhereIsSubsequence<T>(s: seq<T>, keep: T -> bool)
    ensures IsSubsequence(Where(s, keep), s)
    ensures |Where(s, keep)| <= |s|
    decreases |s|
  {
    if s != [] {
      WhereIsSubsequence(s[1..], keep);
      var w := Where(s, keep);
      if keep(s[0]) {
        assert w[0] == s[0] && w[1..] == Where(s[1..], keep);
      } else {
        assert w == Where(s[1..], keep);
      }
      SubsequenceShorter(w, s);
    }
  }

  /** How many times each element survives: all its copies when it passes,
      none when it does not. */
  lemma {:induction false} WhereCount<T>(s: seq<T>, keep: T -> bool, x: T)
    ensures multiset(Where(s, keep))[x] == if keep(x) then multiset(s)[x] else 0
    decreases |s|
  {
    if s != [] {
      WhereCount(s[1..], keep, x);
      assert s == [s[0]] + s[1..];
      assert multiset(s) == multiset([s[0]]) + multiset(s[1..]);
    }
  }

  /** A weaker mask keeps a superset of rows, with the order unchanged. */
  lemma {:induction false} WhereMonotone<T>(s: seq<T>, strong: T -> bool, weak: T -> bool)
    requires forall x :: strong(x) ==> weak(x)
    ensures IsSubsequence(Where(s, strong), Where(s, weak))
    decreases |s|
  {
    if s != [] {
      WhereMonotone(s[1..], strong, weak);
      var a, b := Where(s, strong), Where(s, weak);
      if strong(s[0]) {
        assert a[0] == b[0] && a[1..] == Where(s[1..], strong) && b[1..] == Where(s[1..], weak);
      } else if weak(s[0]) {
        assert a == Where(s[1..], strong) && b[1..] == Where(s[1..], weak);
      } else {
        assert a == Where(s[1..], strong) && b == Where(s[1..], weak);
      }
    }
  }

  /** Masking twice is masking once with both conditions. */
  lemma {:induction false} WhereWhere<T>(s: seq<T>, first: T -> bool, second: T -> bool, both: T -> bool)
    requires forall x :: both(x) == (first(x) && second(x))
    ensures Where(Where(s, first), second) == Where(s, both)
    decreases |s|
  {
    if s != [] {
      WhereWhere(s[1..], first, second, both);
      var w := Where(s, first);
      if first(s[0]) {
        assert w[0] == s[0] && w[1..] == Where(s[1..], first);
        assert Where(w, second) == (if second(s[0]) then [s[0]] else []) + Where(w[1..], second);
      } else {
        assert w == Where(s[1..], first);
      }
    }
  }

  /** Masks that agree on every element select the same rows. */
  lemma {:induction false} WhereSame<T>(s: seq<T>, p: T -> bool, q: T -> bool)
    requires forall x :: p(x) == q(x)
    ensures Where(s, p) == Where(s, q)
    decreases |s|
  {
    if s != [] {
      WhereSame(s[1..], p, q);
    }
  }

  /** A mask every element passes keeps the whole table. */
  lemma {:induction false} WhereAll<T>(s: seq<T>, keep: T -> bool)
    requires forall x :: keep(x)
    ensures Where(s, keep) == s
    decreases |s|
  {
    if s != [] {
      WhereAll(s[1..], keep);
    }
  }

  // ---------------------------------------------------------------------
  // The three filters

  /** The choices of the three sidebar widgets (lines 41-43). */
  datatype RegionChoice = AllRegions | USOnly | NonUSOnly
  datatype EmailChoice = AllEmails | FreemailOnly | CorporateOnly
  datatype Selection = Selection(region: RegionChoice, companySizes: seq<Cell>, email: EmailChoice)

  /** Lines 46-49. */
  predicate RegionPasses(choice: RegionChoice, row: DerivedRow) {
    match choice
    case AllRegions => true
    case USOnly => row.region == "US"
    case NonUSOnly => row.region == "Non-US"
  }

  /** Lines 51-52: an empty selection filters nothing; otherwise `isin`. */
  predicate SizePasses(sizes: seq<Cell>, row: DerivedRow) {
    |sizes| == 0 || row.companySize in sizes
  }

  /** Lines 53-56: `is_freemail == True` or `== False`. */
  predicate EmailPasses(choice: EmailChoice, row: DerivedRow) {
    match choice
    case AllEmails => true
    case FreemailOnly => EqualsBool(row.isFreemail, true)
    case CorporateOnly => EqualsBool(row.isFreemail, false)
  }

  predicate Passes(sel: Selection, row: DerivedRow) {
    RegionPasses(sel.region, row) && SizePasses(sel.companySizes, row) && EmailPasses(sel.email, row)
  }

  /** The filtered table, stated all at once: the rows that pass every
      active filter. */
  function Filtered(rows: seq<DerivedRow>, sel: Selection): (r: seq<DerivedRow>)
    ensures |r| <= |rows|
    ensures forall row :: row in r ==> row in rows && Passes(sel, row)
  {
    Where(rows, (row: DerivedRow) => Passes(sel, row))
  }

  /** Lines 45-56, step by step: start from a copy of the table and re-bind
      it to the rows each active filter keeps. An email filter on a table
      without `is_freemail` raises KeyError. */
  method FilterChain(t: DerivedTable, sel: Selection) returns (r: Result<seq<DerivedRow>>)
    ensures r.Err? <==> sel.email != AllEmails && !t.hasFreemail
    ensures r.Err? ==> r.error == MissingColumn("is_freemail")
    ensures r.Ok? ==> r.value == Filtered(t.rows, sel)
  {
    var byRegion := (row: DerivedRow) => RegionPasses(sel.region, row);
    var bySize := (row: DerivedRow) => RegionPasses(sel.region, row) && SizePasses(sel.companySizes, row);

    var filtered := t.rows;
    if sel.region == USOnly {
      filtered := Where(filtered, (row: DerivedRow) => row.region == "US");
      WhereSame(t.rows, (row: DerivedRow) => row.region == "US", byRegion);
    } else if sel.region == NonUSOnly {
      filtered := Where(filtered, (row: DerivedRow) => row.region == "Non-US");
      WhereSame(t.rows, (row: DerivedRow) => row.region == "Non-US", byRegion);
    } else {
      WhereAll(t.rows, byRegion);
    }
    assert filtered == Where(t.rows, byRegion);

    if |sel.companySizes| > 0 {
      var isin := (row: DerivedRow) => row.companySize in sel.companySizes;
      filtered := Where(filtered, isin);
      WhereWhere(t.rows, byRegion, isin, bySize);
    } else {
      WhereSame(t.rows, byRegion, bySize);
    }
    assert filtered == Where(t.rows, bySize);

    var all := (row: DerivedRow) => Passes(sel, row);
    if sel.email == FreemailOnly {
      if !t.hasFreemail {
        return Err(MissingColumn("is_freemail"));
      }
      var isTrue := (row: DerivedRow) => EqualsBool(row.isFreemail, true);
      filtered := Where(filtered, isTrue);
      WhereWhere(t.rows, bySize, isTrue, all);
    } else if sel.email == CorporateOnly {
      if !t.hasFreemail {
        return Err(MissingColumn("is_freemail"));
      }
      var isFalse := (row: DerivedRow) => EqualsBool(row.isFreemail, false);
      filtered := Where(filtered, isFalse);
      WhereWhere(t.rows, bySize, isFalse, all);
    } else {
      WhereSame(t.rows, bySize, all);
    }
    r := Ok(filtered);
  }

  // ---------------------------------------------------------------------
  // What filtering promises

  /** Filtering only removes rows: the result is an order-preserving
      subsequence of the table, so never longer. */
  lemma FilteredIsSubsequence(rows: seq<DerivedRow>, sel: Selection)
    ensures IsSubsequence(Filtered(rows, sel), rows)
    ensures |Filtered(rows, sel)| <= |rows|
  {
    WhereIsSubsequence(rows, (r: DerivedRow) => Passes(sel, r));
  }

  /** A row survives exactly when it passes every active filter, and then
      as often as it occurs in the table. */
  lemma FilteredKeepsPassingRows(rows: seq<DerivedRow>, sel: Selection, row: DerivedRow)
    ensures multiset(Filtered(rows, sel))[row] == if Passes(sel, row) then multiset(rows)[row] else 0
    ensures row in Filtered(rows, sel) <==> row in rows && Passes(sel, row)
  {
    WhereCount(rows, (r: DerivedRow) => Passes(sel, r), row);
  }

  /** With region "All", no company size chosen and email "All", the
      filtered table is the derived table. */
  lemma NoSelectionKeepsAll(rows: seq<DerivedRow>)
    ensures Filtered(rows, Selection(AllRegions, [], AllEmails)) == rows
  {
    WhereAll(rows, (r: DerivedRow) => Passes(Selection(AllRegions, [], AllEmails), r));
  }

  /** `narrow` selects at least as much as `wide`: it keeps or adds each
      filter, and chooses company sizes only from those `wide` chose. */
  predicate Narrower(narrow: Selection, wide: Selection) {
    && (wide.region == AllRegions || narrow.region == wide.region)
    && (|wide.companySizes| == 0 ||
        (|narrow.companySizes| > 0 && forall c :: c in narrow.companySizes ==> c in wide.companySizes))
    && (wide.email == AllEmails || narrow.email == wide.email)
  }

  /** Adding a selection never brings a row back: the narrower result is a
      subsequence of the wider one, so never longer. */
  lemma NarrowingKeepsFewer(rows: seq<DerivedRow>, narrow: Selection, wide: Selection)
    requires Narrower(narrow, wide)
    ensures IsSubsequence(Filtered(rows, narrow), Filtered(rows, wide))
    ensures |Filtered(rows, narrow)| <= |Filtered(rows, wide)|
  {
    WhereMonotone(rows, (r: DerivedRow) => Passes(narrow, r), (r: DerivedRow) => Passes(wide, r));
    SubsequenceShorter(Filtered(rows, narrow), Filtered(rows, wide));
  }

  /** A lead whose freemail cell is missing passes neither email filter. */
  lemma MissingFreemailFailsEmailFilters(row: DerivedRow)
    requires row.isFreemail == Missing
    ensures !EmailPasses(FreemailOnly, row) && !EmailPasses(CorporateOnly, row)
  {
  }

  /** Four leads, two from the United States and two from Germany: "US only"
      keeps exactly the two US leads, in table order. */
  lemma USOnlyKeepsUSRows(us1: DerivedRow, de1: DerivedRow, us2: DerivedRow, de2: DerivedRow)
    requires us1.region == RegionName(CountryGroup(Text("United States")))
    requires us2.region == RegionName(CountryGroup(Text("United States")))
    requires de1.region == RegionName(CountryGroup(Text("Germany")))
    requires de2.region == RegionName(CountryGroup(Text("Germany")))
    ensures Filtered([us1, de1, us2, de2], Selection(USOnly, [], AllEmails)) == [us1, us2]
  {
    var rows := [us1, de1, us2, de2];
    var keep := (r: DerivedRow) => Passes(Selection(USOnly, [], AllEmails), r);
    assert rows[1..] == [de1, us2, de2];
    assert rows[1..][1..] == [us2, de2];
    assert rows[1..][1..][1..] == [de2];
    RegionOfCountry(Text("United States"));
    RegionOfCountry(Text("Germany"));
    assert Text("Germany") != Text("US") && Text("Germany") != Text("United States");
    assert keep(us1) && keep(us2) && !keep(de1) && !keep(de2);
    assert Where([de2], keep) == [];
    assert Where([us2, de2], keep) == [us2];
    assert Where([de1, us2, de2], keep) == [us2];
    assert Where(rows, keep) == [us1, us2];
  }
}
