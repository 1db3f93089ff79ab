/** The bulk-import CSV reader (`parseCSV` of the bulk-upload route): a
    naive reader that splits lines on '\n' and fields on ',' with no
    quoting, checks the header, the column count of every line and the
    price type, and coerces each cell by its column name. The first problem
    aborts the whole parse. */
module CsvParse {
  import opened Text
  import opened Wrappers
  import opened Catalog

  /** A parsed data line: column key to coerced cell. */
  type Row = map<string, Cell>

  datatype ParseError =
    | TooFewLines
    | MissingHeaders(names: seq<string>)
    | ColumnCountMismatch(line: nat, expected: nat, got: nat)
    | InvalidPriceType(line: nat, value: string)

  /** The outcome of a parse step: a value, or the error that was thrown. */
  datatype Parse<T> = Done(value: T) | Error(error: ParseError)

  /** The text of the thrown error. */
  function Message(e: ParseError): string {
    match e
    case TooFewLines => "CSV must contain header and at least one data row"
    case MissingHeaders(names) => "Missing required headers: " + Join(names, ", ")
    case ColumnCountMismatch(line, expected, got) =>
      "Row " + NatToString(line) + ": Column count mismatch. Expected " + NatToString(expected)
      + ", got " + NatToString(got)
    case InvalidPriceType(line, value) =>
      "Row " + NatToString(line) + ": Invalid price_type '" + value + "'. Must be fixed or non_fixed"
  }

  /** The columns a header must name, in the order they are reported. */
  const Required: seq<string> := ["manufacturer_part_number", "manufacturer", "name", "price_type"]

  /** `csvContent.trim().split('\n')`. */
  function Lines(content: string): seq<string> {
    Split(Trim(content), '\n')
  }

  /** `fields.map(h => h.trim().toLowerCase())`. */
  function NormaliseHeaders(fields: seq<string>): (r: seq<string>)
    ensures |r| == |fields|
  {
    if fields == [] then [] else [ToLower(Trim(fields[0]))] + NormaliseHeaders(fields[1..])
  }

  /** `fields.map(v => v.trim())`. */
  function TrimAll(fields: seq<string>): (r: seq<string>)
    ensures |r| == |fields|
  {
    if fields == [] then [] else [Trim(fields[0])] + TrimAll(fields[1..])
  }

  /** Fields already trimmed are kept as they are. */
  lemma {:induction false} TrimAllTrimmed(fields: seq<string>)
    requires forall k :: 0 <= k < |fields| ==> Trimmed(fields[k])
    ensures TrimAll(fields) == fields
  {
    if fields != [] {
      TrimOfTrimmed(fields[0]);
      TrimAllTrimmed(fields[1..]);
    }
  }

  /** Header names already trimmed and in lower case are kept as they are. */
  lemma {:induction false} NormaliseHeadersPlain(fields: seq<string>)
    requires forall k :: 0 <= k < |fields| ==> Trimmed(fields[k])
    requires forall k, i :: 0 <= k < |fields| && 0 <= i < |fields[k]| ==> !('A' <= fields[k][i] <= 'Z')
    ensures NormaliseHeaders(fields) == fields
  {
    if fields != [] {
      TrimOfTrimmed(fields[0]);
      ToLowerOfLower(fields[0]);
      NormaliseHeadersPlain(fields[1..]);
    }
  }

  /** `line.split(',').map(h => h.trim().toLowerCase())`. */
  function HeaderNames(line: string): seq<string> {
    NormaliseHeaders(Split(line, ','))
  }

  /** `line.split(',').map(v => v.trim())`. */
  function FieldValues(line: string): seq<string> {
    TrimAll(Split(line, ','))
  }

  /** `a` occurs in `b` with its order kept. */
  predicate IsSubsequence(a: seq<string>, b: seq<string>)
    decreases |b|
  {
    |a| == 0 || (|b| > 0 && if a[0] == b[0] then IsSubsequence(a[1..], b[1..]) else IsSubsequence(a, b[1..]))
  }

  /** `req.filter(h => !headers.includes(h))`: exactly the names of `req`
      that `headers` lacks, in the order of `req`. */
  function MissingFrom(req: seq<string>, headers: seq<string>): (r: seq<string>)
    ensures forall x :: x in r <==> x in req && x !in headers
    ensures IsSubsequence(r, req)
  {
    if req == [] then []
    else
      var rest := MissingFrom(req[1..], headers);
      if req[0] in headers then rest else [req[0]] + rest
  }

  /** The column a header writes: `rating_hp` and `rating_kw` are aliases. */
  function KeyOf(h: string): string {
    if h == "rating_hp" then "power_rating_hp"
    else if h == "rating_kw" then "power_rating_kw"
    else h
  }

  /** Only the two short aliases are renamed. */
  lemma KeyOfAliases(h: string)
    ensures KeyOf(h) == "power_rating_hp" <==> h == "rating_hp" || h == "power_rating_hp"
    ensures KeyOf(h) == "power_rating_kw" <==> h == "rating_kw" || h == "power_rating_kw"
    ensures h != "rating_hp" && h != "rating_kw" ==> KeyOf(h) == h
  {
  }

  predicate IsDecimalColumn(h: string) {
    h == "unit_price" || h == "repair_price" || h == "rating_hp" || h == "power_rating_hp"
    || h == "rating_kw" || h == "power_rating_kw"
  }

  predicate IsPriceType(v: string) {
    v == "fixed" || v == "non_fixed"
  }

  /** The coercion of one trimmed cell under header `h`; `None` is the
      thrown invalid-price-type error. */
  function Coerce(h: string, v: string): (r: Option<Cell>)
    ensures r.None? <==> h == "price_type" && !IsPriceType(v)
  {
    if h == "estimated_lead_time_days" then Some(if v != "" then IntOf(v) else Null)
    else if IsDecimalColumn(h) then Some(if v != "" then FloatOf(v) else Null)
    else if h == "is_repairable" then Some(Flag(ToLower(v) == "true"))
    else if h == "price_type" then (if IsPriceType(v) then Some(Text(v)) else None)
    else Some(if v != "" then Text(v) else Null)
  }

  /** The coercion table: blank cells become null (except the flag and the
      price type), the lead time is read as an integer, prices and power
      ratings as decimals, `is_repairable` is true iff it reads "true" in
      any capitalisation, the price type is kept only when valid, and any
      other column keeps its text. */
  lemma CoerceTable(h: string, v: string)
    ensures h == "price_type" && IsPriceType(v) ==> Coerce(h, v) == Some(Text(v))
    ensures h == "is_repairable" ==> Coerce(h, v) == Some(Flag(ToLower(v) == "true"))
    ensures v == "" && h != "is_repairable" && h != "price_type" ==> Coerce(h, v) == Some(Null)
    ensures v != "" && h == "estimated_lead_time_days" ==> Coerce(h, v) == Some(IntOf(v))
    ensures v != "" && IsDecimalColumn(h) ==> Coerce(h, v) == Some(FloatOf(v))
    ensures (v != "" && h != "estimated_lead_time_days" && !IsDecimalColumn(h)
             && h != "is_repairable" && h != "price_type") ==> Coerce(h, v) == Some(Text(v))
  {
  }

  /** The spellings `is_repairable` accepts: any capitalisation of "true"
      is true, anything else (blank included) is false. */
  lemma RepairableSpellings()
    ensures Coerce("is_repairable", "TRUE") == Some(Flag(true))
    ensures Coerce("is_repairable", "True") == Some(Flag(true))
    ensures Coerce("is_repairable", "true") == Some(Flag(true))
    ensures Coerce("is_repairable", "") == Some(Flag(false))
    ensures Coerce("is_repairable", "yes") == Some(Flag(false))
  {
    assert ToLower("TRUE") == "true";
    assert ToLower("True") == "true";
    assert ToLower("yes") != "true";
  }

  /** The row object after the `forEach` has visited headers `0..k`. */
  function FillRow(headers: seq<string>, values: seq<string>, k: nat, line: nat): (r: Parse<Row>)
    requires |values| == |headers| && k <= |headers|
    ensures r.Error? ==> r.error.InvalidPriceType? && r.error.line == line
  {
    if k == 0 then Done(map[])
    else
      match FillRow(headers, values, k - 1, line)
      case Error(e) => Error(e)
      case Done(row) =>
        match Coerce(headers[k - 1], values[k - 1])
        case None => Error(InvalidPriceType(line, values[k - 1]))
        case Some(c) => Done(row[KeyOf(headers[k - 1]) := c])
  }

  /** The trimmed fields of every line. */
  function Table(lines: seq<string>): (r: seq<seq<string>>)
    ensures |r| == |lines|
    ensures forall i :: 0 <= i < |lines| ==> r[i] == FieldValues(lines[i])
  {
    if lines == [] then [] else [FieldValues(lines[0])] + Table(lines[1..])
  }

  /** A line's fields are well formed when there is one per header and a
      valid price type under every `price_type` header. */
  predicate WellFormed(headers: seq<string>, values: seq<string>) {
    |values| == |headers|
    && forall j :: 0 <= j < |headers| && headers[j] == "price_type" ==> IsPriceType(values[j])
  }

  /** The parse of the fields of data line number `lineNo` (1-based). */
  function ParseLine(headers: seq<string>, values: seq<string>, lineNo: nat): (r: Parse<Row>)
    ensures r.Error? ==> (r.error.ColumnCountMismatch? || r.error.InvalidPriceType?)
    ensures r.Error? && r.error.ColumnCountMismatch? ==> r.error.line == lineNo
    ensures r.Error? && r.error.InvalidPriceType? ==> r.error.line == lineNo
  {
    if |values| != |headers| then Error(ColumnCountMismatch(lineNo, |headers|, |values|))
    else FillRow(headers, values, |headers|, lineNo)
  }

  /** The rows of data lines `1..n` of `table`, or the first error among them. */
  function ParseRows(headers: seq<string>, table: seq<seq<string>>, n: nat): (r: Parse<seq<Row>>)
    requires 1 <= n <= |table|
    ensures r.Done? ==> |r.value| == n - 1
  {
    if n == 1 then Done([])
    else
      match ParseRows(headers, table, n - 1)
      case Error(e) => Error(e)
      case Done(rows) =>
        match ParseLine(headers, table[n - 1], n)
        case Error(e) => Error(e)
        case Done(row) => Done(rows + [row])
  }

  /** The checks of `parseCSV` once the input is cut into lines and fields:
      `headers` are the normalised names of line 0, `table` the fields of
      every line. */
  function ParseWith(headers: seq<string>, table: seq<seq<string>>): (r: Parse<seq<Row>>)
    ensures r.Done? ==> |r.value| == |table| - 1
  {
    if |table| < 2 then Error(TooFewLines)
    else
      var missing := MissingFrom(Required, headers);
      if |missing| > 0 then Error(MissingHeaders(missing))
      else ParseRows(headers, table, |table|)
  }

  /** What `parseCSV(content)` returns or throws. */
  function ParseSpec(content: string): (r: Parse<seq<Row>>)
    ensures r.Done? ==> |r.value| == |Lines(content)| - 1
  {
    var lines := Lines(content);
    ParseWith(HeaderNames(lines[0]), Table(lines))
  }

  // ---------------------------------------------------------------------
  // The reader as the source writes it: a loop over lines, a loop over
  // headers filling a mutable row, and a throw that ends both.

  /** The `forEach` over the headers of one line. */
  method BuildRow(headers: seq<string>, values: seq<string>, line: nat) returns (r: Parse<Row>)
    requires |values| == |headers|
    ensures r == FillRow(headers, values, |headers|, line)
  {
    var row: Row := map[];
    var j := 0;
    while j < |headers|
      invariant 0 <= j <= |headers|
      invariant FillRow(headers, values, j, line) == Done(row)
    {
      var c := Coerce(headers[j], values[j]);
      if c.None? {
        FillErrorPersists(headers, values, j + 1, |headers|, line);
        return Error(InvalidPriceType(line, values[j]));
      }
      row := row[KeyOf(headers[j]) := c.value];
      j := j + 1;
    }
    return Done(row);
  }

  /** The `for` loop over the data lines `1..|lines| - 1`. */
  method ParseDataLines(headers: seq<string>, lines: seq<string>) returns (r: Parse<seq<Row>>)
    requires |lines| >= 1
    ensures r == ParseRows(headers, Table(lines), |lines|)
  {
    ghost var table := Table(lines);
    var data: seq<Row> := [];
    var i := 1;
    while i < |lines|
      invariant 1 <= i <= |lines|
      invariant ParseRows(headers, table, i) == Done(data)
      invariant |data| == i - 1
    {
      var values := FieldValues(lines[i]);
      assert values == table[i];
      if |values| != |headers| {
        ErrorPersists(headers, table, i + 1, |lines|);
        return Error(ColumnCountMismatch(i + 1, |headers|, |values|));
      }
      var row := BuildRow(headers, values, i + 1);
      assert row == ParseLine(headers, values, i + 1);
      if row.Error? {
        ErrorPersists(headers, table, i + 1, |lines|);
        return Error(row.error);
      }
      data := data + [row.value];
      i := i + 1;
    }
    return Done(data);
  }

  /** `parseCSV`. */
  method ParseCsv(content: string) returns (r: Parse<seq<Row>>)
    ensures r == ParseSpec(content)
    ensures |Lines(content)| < 2 ==> r == Error(TooFewLines)
  {
    var lines := Lines(content);
    if |lines| < 2 {
      return Error(TooFewLines);
    }
    var headers := HeaderNames(lines[0]);
    var missing := MissingFrom(Required, headers);
    if |missing| > 0 {
      return Error(MissingHeaders(missing));
    }
    r := ParseDataLines(headers, lines);
  }

  // ---------------------------------------------------------------------
  // Properties of the specification.

  lemma {:induction false} FillErrorPersists(headers: seq<string>, values: seq<string>, k: nat, m: nat, line: nat)
    requires |values| == |headers| && k <= m <= |headers|
    requires FillRow(headers, values, k, line).Error?
    ensures FillRow(headers, values, m, line) == FillRow(headers, values, k, line)
    decreases m - k
  {
    if k < m {
      FillErrorPersists(headers, values, k, m - 1, line);
    }
  }

  /** Once a line fails, every longer prefix fails with the same error:
      nothing after the first bad line is looked at. */
  lemma {:induction false} ErrorPersists(headers: seq<string>, table: seq<seq<string>>, n: nat, m: nat)
    requires 1 <= n <= m <= |table|
    requires ParseRows(headers, table, n).Error?
    ensures ParseRows(headers, table, m) == ParseRows(headers, table, n)
    decreases m - n
  {
    if n < m {
      ErrorPersists(headers, table, n, m - 1);
    }
  }

  lemma {:induction false} FillRowDoneIff(headers: seq<string>, values: seq<string>, k: nat, line: nat)
    requires |values| == |headers| && k <= |headers|
    ensures FillRow(headers, values, k, line).Done?
            <==> forall j :: 0 <= j < k && headers[j] == "price_type" ==> IsPriceType(values[j])
  {
    if k > 0 {
      FillRowDoneIff(headers, values, k - 1, line);
    }
  }

  lemma ParseLineDoneIff(headers: seq<string>, values: seq<string>, lineNo: nat)
    ensures ParseLine(headers, values, lineNo).Done? <==> WellFormed(headers, values)
  {
    if |values| == |headers| {
      FillRowDoneIff(headers, values, |headers|, lineNo);
    }
  }

  /** The data lines parse iff every one of them is well formed. */
  lemma {:induction false} ParseRowsDoneIff(headers: seq<string>, table: seq<seq<string>>, n: nat)
    requires 1 <= n <= |table|
    ensures ParseRows(headers, table, n).Done?
            <==> forall i :: 1 <= i < n ==> WellFormed(headers, table[i])
  {
    if n > 1 {
      ParseRowsDoneIff(headers, table, n - 1);
      ParseLineDoneIff(headers, table[n - 1], n);
    }
  }

  /** A failed data line is reported by its own line number, and it is the
      first line that is not well formed. */
  lemma {:induction false} ParseRowsFirstError(headers: seq<string>, table: seq<seq<string>>, n: nat)
    requires 1 <= n <= |table|
    requires ParseRows(headers, table, n).Error?
    ensures var e := ParseRows(headers, table, n).error;
            (e.ColumnCountMismatch? || e.InvalidPriceType?)
            && 2 <= e.line <= n
            && !WellFormed(headers, table[e.line - 1])
            && forall i :: 1 <= i < e.line - 1 ==> WellFormed(headers, table[i])
  {
    if ParseRows(headers, table, n - 1).Error? {
      ParseRowsFirstError(headers, table, n - 1);
    } else {
      ParseRowsDoneIff(headers, table, n - 1);
      ParseLineDoneIff(headers, table[n - 1], n);
    }
  }

  /** Parsing succeeds iff there are a header and at least one data line,
      the header names every required column and every data line is well
      formed. */
  lemma ParseWithDoneIff(headers: seq<string>, table: seq<seq<string>>)
    ensures ParseWith(headers, table).Done?
            <==> |table| >= 2
                 && (forall x :: x in Required ==> x in headers)
                 && (forall i :: 1 <= i < |table| ==> WellFormed(headers, table[i]))
  {
    if |table| >= 2 {
      var missing := MissingFrom(Required, headers);
      if |missing| > 0 {
        assert missing[0] in missing;
      } else {
        assert forall x :: x in Required ==> x in headers;
      }
      ParseRowsDoneIff(headers, table, |table|);
    }
  }

  /** The same, stated on the CSV text. */
  lemma ParseSpecDoneIff(content: string)
    ensures var lines := Lines(content);
            ParseSpec(content).Done?
            <==> |lines| >= 2
                 && (forall x :: x in Required ==> x in HeaderNames(lines[0]))
                 && (forall i :: 1 <= i < |lines| ==> WellFormed(HeaderNames(lines[0]), FieldValues(lines[i])))
  {
    var lines := Lines(content);
    ParseWithDoneIff(HeaderNames(lines[0]), Table(lines));
  }

  /** A missing required column is reported, with all missing names in the
      order of `Required`. */
  lemma MissingHeadersReported(content: string)
    requires |Lines(content)| >= 2
    requires exists x :: x in Required && x !in HeaderNames(Lines(content)[0])
    ensures ParseSpec(content).Error? && ParseSpec(content).error.MissingHeaders?
    ensures var names := ParseSpec(content).error.names;
            IsSubsequence(names, Required)
            && forall x :: x in names <==> x in Required && x !in HeaderNames(Lines(content)[0])
  {
    var headers := HeaderNames(Lines(content)[0]);
    var x :| x in Required && x !in headers;
    assert x in MissingFrom(Required, headers);
  }

  /** A data line that is not well formed makes the row parse fail at that
      line or at an earlier one. */
  lemma BadLineAbortsRows(headers: seq<string>, table: seq<seq<string>>, i: nat)
    requires 1 <= i < |table|
    requires !WellFormed(headers, table[i])
    ensures ParseRows(headers, table, |table|).Error?
    ensures var e := ParseRows(headers, table, |table|).error;
            (e.ColumnCountMismatch? || e.InvalidPriceType?) && 2 <= e.line <= i + 1
  {
    ParseRowsDoneIff(headers, table, |table|);
    ParseRowsFirstError(headers, table, |table|);
  }

  /** A data line that is not well formed makes the whole parse fail, with
      an error that cites a line number no later than its own (no partial
      result). */
  lemma BadLineAbortsParse(content: string, i: nat)
    requires 1 <= i < |Lines(content)|
    requires !WellFormed(HeaderNames(Lines(content)[0]), FieldValues(Lines(content)[i]))
    ensures ParseSpec(content).Error?
    ensures var e := ParseSpec(content).error;
            e.MissingHeaders? || ((e.ColumnCountMismatch? || e.InvalidPriceType?) && 2 <= e.line <= i + 1)
  {
    var lines := Lines(content);
    var headers := HeaderNames(lines[0]);
    if |MissingFrom(Required, headers)| == 0 {
      BadLineAbortsRows(headers, Table(lines), i);
    }
  }

  /** `j` is the last header writing the same column as header `j`. */
  predicate LastForKey(headers: seq<string>, j: nat, k: nat)
    requires j < k <= |headers|
  {
    forall j' :: j < j' < k ==> KeyOf(headers[j']) != KeyOf(headers[j])
  }

  /** The columns headers `0..k` write. */
  function HeaderKeys(headers: seq<string>, k: nat): set<string>
    requires k <= |headers|
  {
    if k == 0 then {} else HeaderKeys(headers, k - 1) + {KeyOf(headers[k - 1])}
  }

  /** A filled row has one column per header key and no other. */
  lemma {:induction false} FillRowKeys(headers: seq<string>, values: seq<string>, k: nat, line: nat)
    requires |values| == |headers| && k <= |headers|
    requires FillRow(headers, values, k, line).Done?
    ensures FillRow(headers, values, k, line).value.Keys == HeaderKeys(headers, k)
  {
    if k > 0 {
      FillRowKeys(headers, values, k - 1, line);
    }
  }

  /** Each column of a filled row holds the coercion of the cell under the
      LAST header writing that column. */
  lemma {:induction false} FillRowValues(headers: seq<string>, values: seq<string>, k: nat, line: nat, j: nat)
    requires |values| == |headers| && j < k <= |headers|
    requires FillRow(headers, values, k, line).Done?
    requires LastForKey(headers, j, k)
    ensures Coerce(headers[j], values[j]).Some?
    ensures KeyOf(headers[j]) in FillRow(headers, values, k, line).value
    ensures FillRow(headers, values, k, line).value[KeyOf(headers[j])] == Coerce(headers[j], values[j]).value
  {
    var prev := FillRow(headers, values, k - 1, line);
    assert prev.Done?;
    if j < k - 1 {
      assert LastForKey(headers, j, k - 1);
      FillRowValues(headers, values, k - 1, line, j);
      assert KeyOf(headers[k - 1]) != KeyOf(headers[j]);
    }
  }

  /** Row `r` of a successful parse is the parse of data line `r + 1`. */
  lemma {:induction false} ParsedRowIsLine(headers: seq<string>, table: seq<seq<string>>, n: nat, r: nat)
    requires 1 <= n <= |table|
    requires ParseRows(headers, table, n).Done?
    requires r < n - 1
    ensures r < |ParseRows(headers, table, n).value|
    ensures ParseLine(headers, table[r + 1], r + 2).Done?
    ensures ParseRows(headers, table, n).value[r] == ParseLine(headers, table[r + 1], r + 2).value
  {
    var prev := ParseRows(headers, table, n - 1);
    assert prev.Done?;
    var line := ParseLine(headers, table[n - 1], n);
    assert line.Done?;
    assert ParseRows(headers, table, n).value == prev.value + [line.value];
    if r < n - 2 {
      ParsedRowIsLine(headers, table, n - 1, r);
    }
  }

  /** Every row of a successful parse: its data line's cells coerced by
      column, aliases folded, the last duplicate header winning. */
  lemma ParsedRowCells(headers: seq<string>, table: seq<seq<string>>, n: nat, r: nat, j: nat)
    requires 1 <= n <= |table|
    requires ParseRows(headers, table, n).Done?
    requires r < n - 1 && j < |headers| && LastForKey(headers, j, |headers|)
    ensures r < |ParseRows(headers, table, n).value|
    ensures var row := ParseRows(headers, table, n).value[r];
            var values := table[r + 1];
            |values| == |headers|
            && KeyOf(headers[j]) in row
            && Coerce(headers[j], values[j]).Some?
            && row[KeyOf(headers[j])] == Coerce(headers[j], values[j]).value
  {
    ParsedRowIsLine(headers, table, n, r);
    assert |table[r + 1]| == |headers|;
    FillRowValues(headers, table[r + 1], |headers|, r + 2, j);
  }

  /** A column that is neither numeric nor the repairability flag. */
  predicate IsTextColumn(key: string) {
    key != "estimated_lead_time_days" && !IsDecimalColumn(key) && key != "is_repairable"
  }

  /** A text column of a filled row holds null or a non-blank text. */
  lemma {:induction false} FillRowTextCells(headers: seq<string>, values: seq<string>, k: nat, line: nat, key: string)
    requires |values| == |headers| && k <= |headers|
    requires FillRow(headers, values, k, line).Done?
    requires key in FillRow(headers, values, k, line).value && IsTextColumn(key)
    ensures var c := FillRow(headers, values, k, line).value[key];
            c == Null || (c.Text? && c.s != "")
  {
    var h := headers[k - 1];
    if KeyOf(h) == key {
      KeyOfAliases(h);
      CoerceTable(h, values[k - 1]);
    } else {
      FillRowTextCells(headers, values, k - 1, line, key);
    }
  }

  lemma RowsTextCells(headers: seq<string>, table: seq<seq<string>>, n: nat, r: nat, key: string)
    requires 1 <= n <= |table| && ParseRows(headers, table, n).Done? && r < n - 1
    requires key in ParseRows(headers, table, n).value[r] && IsTextColumn(key)
    ensures var c := ParseRows(headers, table, n).value[r][key];
            c == Null || (c.Text? && c.s != "")
  {
    ParsedRowIsLine(headers, table, n, r);
    var values := table[r + 1];
    assert |values| == |headers|;
    FillRowTextCells(headers, values, |headers|, r + 2, key);
  }

  /** Every text column of every parsed row holds null or a non-blank text. */
  lemma ParsedTextCells(content: string, r: nat, key: string)
    requires ParseSpec(content).Done? && r < |ParseSpec(content).value|
    requires key in ParseSpec(content).value[r] && IsTextColumn(key)
    ensures var c := ParseSpec(content).value[r][key];
            c == Null || (c.Text? && c.s != "")
  {
    var lines := Lines(content);
    var headers := HeaderNames(lines[0]);
    var table := Table(lines);
    assert ParseSpec(content) == ParseRows(headers, table, |lines|);
    RowsTextCells(headers, table, |lines|, r, key);
  }
}
