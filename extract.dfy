/** `extract_test_dates`: which rows of the dates table become dates.
    HTML is not modelled; the parser's findings are given as an abstract
    table whose rows carry the text of their `th scope="row"` cell. */
module Extract {
  import opened Text

  datatype Option<T> = None | Some(value: T)

  /** One `tr` of the dates table: the text of its `th scope="row"` cell,
      or None when the row has no such cell. */
  datatype Row = Row(dateCell: Option<string>)

  /** What looking up the dates table in a page gives: the table's rows
      (header row included), no such table, or a parser failure (the
      catch-all handler). */
  datatype TableLookup = Table(rows: seq<Row>) | NoTable | ParseError

  /** A fetched page: its text, and what the parser finds in it. */
  datatype Document = Document(text: string, lookup: TableLookup)

  /** What every extracted date looks like: non-empty, already trimmed,
      with at least one digit. */
  predicate IsDate(d: string) {
    d != [] && Trim(d) == d && HasDigit(d)
  }

  /** The date a row contributes, if any. The cell must be present, must
      not be blank once trimmed and must contain a digit (tested on the
      untrimmed text); the trimmed text is kept. Since a digit is never
      whitespace, the blank test never rejects a cell the digit test
      accepts, so a row contributes exactly when its cell has a digit. */
  function RowDate(row: Row): (d: Option<string>)
    ensures d.Some? <==> row.dateCell.Some? && HasDigit(row.dateCell.value)
    ensures d.Some? ==> d.value == Trim(row.dateCell.value)
  {
    match row.dateCell
    case None => None
    case Some(text) =>
      DigitSurvivesTrim(text);
      if Trim(text) != [] && HasDigit(text) then Some(Trim(text)) else None
  }

  /** The digit test looks at the untrimmed text, yet a text that passes
      it trims to a date: trimming removes only whitespace, never a digit. */
  lemma DigitSurvivesTrim(text: string)
    ensures HasDigit(text) ==> IsDate(Trim(text))
  {
    TrimKeepsDigits(text);
    TrimIdempotent(text);
  }

  /** The dates of a run of body rows, in row order, one per row that
      contributes one. */
  function DatesOf(rows: seq<Row>): (dates: seq<string>)
    ensures |dates| <= |rows|
  {
    if rows == [] then []
    else
      match RowDate(rows[0])
      case Some(d) => [d] + DatesOf(rows[1..])
      case None => DatesOf(rows[1..])
  }

  /** The dates of a whole table: the header row `rows[0]` is skipped. */
  function TableDates(rows: seq<Row>): (dates: seq<string>)
    ensures |rows| <= 1 ==> dates == []
    ensures dates == [] || |dates| < |rows|
    ensures forall i :: 0 <= i < |dates| ==> IsDate(dates[i])
  {
    if rows == [] then []
    else
      DatesOfAreDates(rows[1..]);
      DatesOf(rows[1..])
  }

  /** What `extract_test_dates` returns for a page (None is a failed fetch). */
  function ExtractedDates(page: Option<Document>): (dates: seq<string>)
    ensures forall i :: 0 <= i < |dates| ==> IsDate(dates[i])
  {
    if page.None? || page.value.text == [] then []
    else
      match page.value.lookup
      case Table(rows) => TableDates(rows)
      case NoTable => []
      case ParseError => []
  }

  /** Every extracted date is non-empty, trimmed and contains a digit. */
  lemma {:induction false} DatesOfAreDates(rows: seq<Row>)
    ensures forall i :: 0 <= i < |DatesOf(rows)| ==> IsDate(DatesOf(rows)[i])
  {
    if rows != [] {
      DatesOfAreDates(rows[1..]);
      match rows[0].dateCell
      case None =>
      case Some(text) => DigitSurvivesTrim(text);
    }
  }

  /** The trimmed texts of all body rows that have a date cell, qualifying
      or not. */
  function CellTexts(rows: seq<Row>): seq<string> {
    if rows == [] then []
    else
      match rows[0].dateCell
      case Some(text) => [Trim(text)] + CellTexts(rows[1..])
      case None => CellTexts(rows[1..])
  }

  /** `xs` is `ys` with some elements left out, order kept. */
  predicate IsSubsequence(xs: seq<string>, ys: seq<string>)
    decreases |ys|
  {
    xs == [] ||
    (ys != [] &&
     ((xs[0] == ys[0] && IsSubsequence(xs[1..], ys[1..])) || IsSubsequence(xs, ys[1..])))
  }

  /** Rows are handled one at a time and independently: the dates of two
      runs of rows are the dates of the first followed by those of the
      second. This is what keeps row order and duplicates. */
  lemma {:induction false} DatesOfAppend(a: seq<Row>, b: seq<Row>)
    ensures DatesOf(a + b) == DatesOf(a) + DatesOf(b)
  {
    if a == [] {
      assert a + b == b;
    } else {
      assert (a + b)[0] == a[0];
      assert (a + b)[1..] == a[1..] + b;
      DatesOfAppend(a[1..], b);
    }
  }

  /** One more row appends its date, if it has one. */
  lemma DatesOfSnoc(rows: seq<Row>, r: Row)
    ensures DatesOf(rows + [r]) ==
            if RowDate(r).Some? then DatesOf(rows) + [RowDate(r).value] else DatesOf(rows)
  {
    DatesOfAppend(rows, [r]);
    assert [r][1..] == [];
  }

  /** A row that contributes nothing (no cell, a blank cell, a cell
      without a digit) can be removed without changing the result; a row
      that contributes adds its date exactly at its own position. */
  lemma RowContribution(a: seq<Row>, r: Row, b: seq<Row>)
    ensures RowDate(r).None? ==> DatesOf(a + [r] + b) == DatesOf(a + b)
    ensures RowDate(r).Some? ==> DatesOf(a + [r] + b) == DatesOf(a) + [RowDate(r).value] + DatesOf(b)
  {
    DatesOfAppend(a + [r], b);
    DatesOfAppend(a, [r]);
    DatesOfAppend(a, b);
    assert [r][1..] == [];
    assert DatesOf([r]) == if RowDate(r).Some? then [RowDate(r).value] else [];
    if RowDate(r).None? {
      assert DatesOf(a + [r]) == DatesOf(a);
    }
  }

  /** A string is an extracted date exactly when some row contributes it. */
  lemma {:induction false} DatesOfMembership(rows: seq<Row>, d: string)
    ensures d in DatesOf(rows) <==> exists i :: 0 <= i < |rows| && RowDate(rows[i]) == Some(d)
  {
    if rows != [] {
      DatesOfMembership(rows[1..], d);
      if exists i :: 0 <= i < |rows| && RowDate(rows[i]) == Some(d) {
        var i :| 0 <= i < |rows| && RowDate(rows[i]) == Some(d);
        if i > 0 {
          assert rows[1..][i - 1] == rows[i];
        }
      }
      if exists i :: 0 <= i < |rows| - 1 && RowDate(rows[1..][i]) == Some(d) {
        var i :| 0 <= i < |rows| - 1 && RowDate(rows[1..][i]) == Some(d);
        assert rows[i + 1] == rows[1..][i];
      }
    }
  }

  /** The extracted dates are a subsequence of the trimmed cell texts. */
  lemma {:induction false} DatesOfSubsequence(rows: seq<Row>)
    ensures IsSubsequence(DatesOf(rows), CellTexts(rows))
  {
    if rows != [] {
      DatesOfSubsequence(rows[1..]);
      var rest := DatesOf(rows[1..]);
      match rows[0].dateCell
      case None =>
      case Some(text) =>
        var ys := CellTexts(rows);
        assert ys[1..] == CellTexts(rows[1..]);
        if RowDate(rows[0]).Some? {
          assert DatesOf(rows)[1..] == rest;
        }
    }
  }

  /** The header row never contributes: two tables that differ only in
      their first row have the same dates. */
  lemma HeaderIgnored(h1: Row, h2: Row, body: seq<Row>)
    ensures TableDates([h1] + body) == TableDates([h2] + body) == DatesOf(body)
  {
  }

  /** The loop of `extract_test_dates` over `rows[1:]`. */
  method CollectDates(rows: seq<Row>) returns (dates: seq<string>)
    ensures dates == TableDates(rows)
  {
    var body := if rows == [] then [] else rows[1..];
    dates := [];
    for i := 0 to |body|
      invariant dates == DatesOf(body[..i])
    {
      var cell := body[i].dateCell;
      if cell.Some? && Trim(cell.value) != [] && HasDigit(cell.value) {
        dates := dates + [Trim(cell.value)];
      }
      DatesOfSnoc(body[..i], body[i]);
      assert body[..i + 1] == body[..i] + [body[i]];
    }
    assert body[..|body|] == body;
  }

  /** `extract_test_dates`: an absent or empty page, a page without the
      table, and a parser failure all give the empty list. */
  method ExtractTestDates(page: Option<Document>) returns (dates: seq<string>)
    ensures dates == ExtractedDates(page)
    ensures page.None? || page.value.text == [] || !page.value.lookup.Table? ==> dates == []
    ensures page.Some? && page.value.text != [] && page.value.lookup.Table? ==>
              dates == TableDates(page.value.lookup.rows)
  {
    if page.None? || page.value.text == [] {
      return [];
    }
    match page.value.lookup
    case Table(rows) =>
      dates := CollectDates(rows);
    case NoTable =>
      dates := [];
    case ParseError =>
      dates := [];
  }
}
