/** The bulk-upload endpoint (`POST /api/admin/parts/bulk-upload`): three
    whole-request checks, the CSV parse, then one commit per parsed row
    (insert the part, insert its details row for the chosen organisation,
    delete the part again if that fails, then link it to the chosen
    application), each row's outcome tallied into `{success, failed,
    errors}`. Store writes answer from a list of per-row replies, so every
    pattern of failure can be stated. */
module BulkImport {
  import opened Text
  import opened Wrappers
  import opened Catalog
  import opened CsvParse
  import Js

  /** The store's answers to the writes of one row. */
  datatype RowFaults = RowFaults(
    partInsert: StoreReply,
    detailsInsert: StoreReply,
    compensation: StoreReply,
    linkInsert: StoreReply)

  const NoFaults := RowFaults(Ok, Ok, Ok, Ok)

  /** Row `i`'s replies; rows past the end of the list meet no failure. */
  function FaultAt(faults: seq<RowFaults>, i: nat): RowFaults {
    if i < |faults| then faults[i] else NoFaults
  }

  /** `row.key`. A column the CSV did not have reads as `undefined`, which
      the insert leaves out, so the column gets its null default. */
  function Lookup(row: Row, key: string): Cell {
    if key in row then row[key] else Null
  }

  /** JavaScript truthiness of a cell. Numeric cells count as truthy: the
      columns this is asked about never hold one (`ParsedTextCells`). */
  predicate Truthy(c: Cell) {
    match c
    case Null => false
    case Text(s) => s != ""
    case Flag(b) => b
    case IntOf(_) => true
    case FloatOf(_) => true
    case Json(v) => Js.Truthy(v)
  }

  /** `value || null`. */
  function OrNull(c: Cell): (r: Cell)
    ensures Truthy(c) ==> r == c
    ensures !Truthy(c) ==> r == Null
  {
    if Truthy(c) then c else Null
  }

  /** The per-row required-field check. */
  predicate HasRequired(row: Row) {
    && Truthy(Lookup(row, "manufacturer_part_number"))
    && Truthy(Lookup(row, "manufacturer"))
    && Truthy(Lookup(row, "name"))
    && Truthy(Lookup(row, "price_type"))
  }

  /** The `parts` record a row inserts. Specifications, machine, assembly
      and stock quantity are not part of it and take their defaults. */
  function PartFromRow(row: Row): PartRow {
    PartRow(
      manufacturerPartNumber := Lookup(row, "manufacturer_part_number"),
      clientPartNumber := Lookup(row, "client_part_number"),
      name := Lookup(row, "name"),
      description := Lookup(row, "description"),
      specifications := Null,
      machine := Null,
      assembly := Null,
      manufacturer := Lookup(row, "manufacturer"),
      partType := Lookup(row, "part_type"),
      voltage := Lookup(row, "voltage"),
      shaftSize := Lookup(row, "shaft_size"),
      gearboxRatio := Lookup(row, "gearbox_ratio"),
      powerRatingHp := Lookup(row, "power_rating_hp"),
      powerRatingKw := Lookup(row, "power_rating_kw"),
      stockQuantity := Null,
      leadTimeDays := Lookup(row, "estimated_lead_time_days"),
      priceType := Lookup(row, "price_type"),
      unitPrice := Lookup(row, "unit_price"),
      repairPrice := Lookup(row, "repair_price"),
      isRepairable := Truthy(Lookup(row, "is_repairable")))
  }

  /** The `parts` record with the machine and assembly columns the reader
      parses, the template fills in and the format guide lists, kept. */
  function PlacedPartFromRow(row: Row): (p: PartRow)
    ensures p.machine == Lookup(row, "machine") && p.assembly == Lookup(row, "assembly")
    ensures p.(machine := Null, assembly := Null) == PartFromRow(row)
  {
    PartFromRow(row).(machine := Lookup(row, "machine"), assembly := Lookup(row, "assembly"))
  }

  /** The details record a row inserts for part `id`: the organisation's
      terms are the part's own defaults, and its item number is the client
      part number (or null). */
  function DetailsFromRow(row: Row, id: nat, org: string): (d: DetailsRow)
    ensures d.partId == id && d.organizationId == org
    ensures d.itemNumber == OrNull(PartFromRow(row).clientPartNumber)
    ensures d.leadTimeDays == PartFromRow(row).leadTimeDays
    ensures d.priceType == PartFromRow(row).priceType
    ensures d.unitPrice == PartFromRow(row).unitPrice
    ensures d.isRepairable == PartFromRow(row).isRepairable
    ensures d.repairPrice == PartFromRow(row).repairPrice
  {
    DetailsRow(
      partId := id,
      organizationId := org,
      itemNumber := OrNull(Lookup(row, "client_part_number")),
      leadTimeDays := Lookup(row, "estimated_lead_time_days"),
      priceType := Lookup(row, "price_type"),
      unitPrice := Lookup(row, "unit_price"),
      isRepairable := Truthy(Lookup(row, "is_repairable")),
      repairPrice := Lookup(row, "repair_price"))
  }

  /** The tables after one row's commit, and the message it threw (none
      when the row counts as a success). */
  datatype Step = Step(tables: Tables, error: Option<string>)

  const MissingFields := "Missing required fields"
  const DetailsFailed := "Organization details creation failed: "

  /** One iteration of the row loop. `app == ""` means no application was
      chosen. */
  function CommitRow(t: Tables, row: Row, org: string, app: string, f: RowFaults): Step {
    if !HasRequired(row) then Step(t, Some(MissingFields))
    else if f.partInsert.Fail? then Step(t, Some(f.partInsert.message))
    else
      var id := t.nextId;
      var inserted := t.(parts := t.parts[id := PartFromRow(row)], nextId := id + 1);
      if f.detailsInsert.Fail? then
        var undone := if f.compensation.Ok? then inserted.(parts := inserted.parts - {id}) else inserted;
        Step(undone, Some(DetailsFailed + f.detailsInsert.message))
      else
        var detailed := inserted.(details := inserted.details + [DetailsFromRow(row, id, org)]);
        if app != "" && f.linkInsert.Ok? then
          Step(detailed.(links := detailed.links + [LinkRow(id, app, org)]), None)
        else Step(detailed, None)
  }

  /** Which rows fail and with what message, read off the row and its
      replies alone: missing required fields, then the part insert, then
      the details insert. The compensating delete and the application link
      play no part. */
  function RowError(row: Row, f: RowFaults): Option<string> {
    if !HasRequired(row) then Some(MissingFields)
    else if f.partInsert.Fail? then Some(f.partInsert.message)
    else if f.detailsInsert.Fail? then Some(DetailsFailed + f.detailsInsert.message)
    else None
  }

  /** `results`. */
  datatype Tally = Tally(success: nat, failed: nat, errors: seq<string>)

  datatype Run = Run(tables: Tables, tally: Tally)

  /** The entry `errors` gets for row index `i` (CSV line `i + 2`). */
  function RowMessage(i: nat, msg: string): string {
    "Row " + NatToString(i + 2) + ": " + msg
  }

  /** The loop after rows `0..n`. */
  function ImportRows(t: Tables, rows: seq<Row>, org: string, app: string, faults: seq<RowFaults>, n: nat): Run
    requires n <= |rows|
  {
    if n == 0 then Run(t, Tally(0, 0, []))
    else
      var prev := ImportRows(t, rows, org, app, faults, n - 1);
      var step := CommitRow(prev.tables, rows[n - 1], org, app, FaultAt(faults, n - 1));
      var c := prev.tally;
      match step.error
      case None => Run(step.tables, c.(success := c.success + 1))
      case Some(msg) => Run(step.tables, c.(failed := c.failed + 1, errors := c.errors + [RowMessage(n - 1, msg)]))
  }

  /** The HTTP answer: an error with its status, or the tally. */
  datatype Response = Rejected(status: nat, error: string) | Completed(results: Tally)

  datatype Outcome = Outcome(tables: Tables, response: Response)

  /** The endpoint. `file` is the uploaded file's text (`None` when no file
      was sent); `org` and `app` are the form fields, `""` when absent;
      `organizations` and `applications` are the rows the two lookups see. */
  function UploadSpec(t: Tables, organizations: set<string>, applications: set<(string, string)>,
                      file: Option<string>, org: string, app: string, faults: seq<RowFaults>): (r: Outcome)
    ensures r.response.Rejected? ==> r.tables == t && r.response.status == 400
  {
    if file.None? then Outcome(t, Rejected(400, "No file provided"))
    else if org == "" then Outcome(t, Rejected(400, "Organization ID is required"))
    else if org !in organizations then Outcome(t, Rejected(400, "Invalid organization"))
    else if app != "" && (app, org) !in applications then
      Outcome(t, Rejected(400, "Invalid application for this organization"))
    else
      match ParseSpec(file.value)
      case Error(e) => Outcome(t, Rejected(400, "CSV parsing error: " + Message(e)))
      case Done(rows) =>
        var run := ImportRows(t, rows, org, app, faults, |rows|);
        Outcome(run.tables, Completed(run.tally))
  }

  // ---------------------------------------------------------------------
  // The endpoint as the source writes it, against the store object.

  /** The body of the row loop's `try`. */
  method CommitRowTo(store: PartsStore, row: Row, org: string, app: string, f: RowFaults) returns (error: Option<string>)
    modifies store`parts, store`nextId, store`details, store`links
    ensures Step(store.State(), error) == CommitRow(old(store.State()), row, org, app, f)
  {
    if !HasRequired(row) {
      return Some(MissingFields);
    }
    var id := store.InsertPart(PartFromRow(row), f.partInsert);
    if f.partInsert.Fail? {
      return Some(f.partInsert.message);
    }
    var ok := store.InsertDetails([DetailsFromRow(row, id, org)], f.detailsInsert);
    if !ok {
      store.DeletePart(id, f.compensation);
      return Some(DetailsFailed + f.detailsInsert.message);
    }
    if app != "" {
      // A failed link is only logged.
      var linked := store.InsertLinks([LinkRow(id, app, org)], f.linkInsert);
    }
    return None;
  }

  /** `POST` of the bulk-upload route. */
  method Upload(store: PartsStore, file: Option<string>, org: string, app: string, faults: seq<RowFaults>)
    returns (response: Response)
    modifies store`parts, store`nextId, store`details, store`links
    ensures Outcome(store.State(), response)
            == UploadSpec(old(store.State()), store.organizations, store.applications, file, org, app, faults)
  {
    if file.None? {
      return Rejected(400, "No file provided");
    }
    if org == "" {
      return Rejected(400, "Organization ID is required");
    }
    if org !in store.organizations {
      return Rejected(400, "Invalid organization");
    }
    if app != "" && (app, org) !in store.applications {
      return Rejected(400, "Invalid application for this organization");
    }
    var parsed := ParseCsv(file.value);
    if parsed.Error? {
      return Rejected(400, "CSV parsing error: " + Message(parsed.error));
    }
    var results := ImportAll(store, parsed.value, org, app, faults);
    return Completed(results);
  }

  /** The row loop. */
  method ImportAll(store: PartsStore, rows: seq<Row>, org: string, app: string, faults: seq<RowFaults>)
    returns (results: Tally)
    modifies store`parts, store`nextId, store`details, store`links
    ensures Run(store.State(), results) == ImportRows(old(store.State()), rows, org, app, faults, |rows|)
  {
    ghost var t0 := store.State();
    var success, failed, errors := 0, 0, [];
    for i := 0 to |rows|
      invariant Run(store.State(), Tally(success, failed, errors)) == ImportRows(t0, rows, org, app, faults, i)
    {
      var error := CommitRowTo(store, rows[i], org, app, FaultAt(faults, i));
      match error
      case None =>
        success := success + 1;
      case Some(msg) =>
        failed := failed + 1;
        errors := errors + [RowMessage(i, msg)];
    }
    return Tally(success, failed, errors);
  }

  // ---------------------------------------------------------------------
  // Properties.

  /** A row's failure and message depend only on the row and the replies
      to its part and details inserts, never on the tables. */
  lemma CommitRowOutcome(t: Tables, row: Row, org: string, app: string, f: RowFaults)
    ensures CommitRow(t, row, org, app, f).error == RowError(row, f)
  {
  }

  /** Every parsed row is tallied once: `success + failed` is the number
      of rows and there is one error message per failure. */
  lemma {:induction false} TallyCounts(t: Tables, rows: seq<Row>, org: string, app: string, faults: seq<RowFaults>, n: nat)
    requires n <= |rows|
    ensures var c := ImportRows(t, rows, org, app, faults, n).tally;
            c.success + c.failed == n && |c.errors| == c.failed
  {
    if n > 0 {
      TallyCounts(t, rows, org, app, faults, n - 1);
    }
  }

  /** The indices below `n` of the rows that fail, in increasing order. */
  function FailedRows(rows: seq<Row>, faults: seq<RowFaults>, n: nat): seq<nat>
    requires n <= |rows|
  {
    if n == 0 then []
    else FailedRows(rows, faults, n - 1) + (if RowError(rows[n - 1], FaultAt(faults, n - 1)).Some? then [n - 1] else [])
  }

  lemma {:induction false} FailedRowsExact(rows: seq<Row>, faults: seq<RowFaults>, n: nat)
    requires n <= |rows|
    ensures forall i: nat :: i in FailedRows(rows, faults, n) <==> i < n && RowError(rows[i], FaultAt(faults, i)).Some?
    ensures forall a, b :: 0 <= a < b < |FailedRows(rows, faults, n)| ==> FailedRows(rows, faults, n)[a] < FailedRows(rows, faults, n)[b]
    ensures forall a :: 0 <= a < |FailedRows(rows, faults, n)| ==> FailedRows(rows, faults, n)[a] < n
  {
    if n > 0 {
      FailedRowsExact(rows, faults, n - 1);
      var prev := FailedRows(rows, faults, n - 1);
      var last: seq<nat> := if RowError(rows[n - 1], FaultAt(faults, n - 1)).Some? then [n - 1] else [];
      assert FailedRows(rows, faults, n) == prev + last;
      assert forall i: nat :: i in prev + last <==> i in prev || i in last;
    }
  }

  /** The errors of rows `0..n` are the messages of the failing rows, in
      row order. */
  predicate ErrorsMatch(c: Tally, rows: seq<Row>, faults: seq<RowFaults>, n: nat)
    requires n <= |rows|
  {
    var fr := FailedRows(rows, faults, n);
    |c.errors| == |fr|
    && forall k :: 0 <= k < |fr| ==>
         fr[k] < n && RowError(rows[fr[k]], FaultAt(faults, fr[k])).Some?
         && c.errors[k] == RowMessage(fr[k], RowError(rows[fr[k]], FaultAt(faults, fr[k])).value)
  }

  lemma ErrorsMatchStep(c: Tally, rows: seq<Row>, faults: seq<RowFaults>, n: nat, error: Option<string>)
    requires 0 < n <= |rows|
    requires ErrorsMatch(c, rows, faults, n - 1)
    requires error == RowError(rows[n - 1], FaultAt(faults, n - 1))
    ensures error.None? ==> ErrorsMatch(c, rows, faults, n)
    ensures error.Some? ==> ErrorsMatch(c.(errors := c.errors + [RowMessage(n - 1, error.value)]), rows, faults, n)
  {
    FailedRowsExact(rows, faults, n - 1);
    var prev := FailedRows(rows, faults, n - 1);
    if error.Some? {
      assert FailedRows(rows, faults, n) == prev + [n - 1];
    } else {
      assert FailedRows(rows, faults, n) == prev;
    }
  }

  /** `errors` lists the failing rows in row order, each as
      "Row <line>: <message>" with the row's own message, and there are as
      many of them as `failed` counts. */
  lemma {:induction false} ErrorsInRowOrder(t: Tables, rows: seq<Row>, org: string, app: string, faults: seq<RowFaults>, n: nat)
    requires n <= |rows|
    ensures var c := ImportRows(t, rows, org, app, faults, n).tally;
            ErrorsMatch(c, rows, faults, n) && c.failed == |FailedRows(rows, faults, n)|
  {
    if n > 0 {
      ErrorsInRowOrder(t, rows, org, app, faults, n - 1);
      var prev := ImportRows(t, rows, org, app, faults, n - 1);
      var f := FaultAt(faults, n - 1);
      CommitRowOutcome(prev.tables, rows[n - 1], org, app, f);
      ErrorsMatchStep(prev.tally, rows, faults, n, RowError(rows[n - 1], f));
    }
  }

  /** The tally does not depend on the tables it starts from, nor on the
      replies to compensating deletes and application links: a failed link
      is not a failed row. */
  lemma {:induction false} TallyIgnoresLinksAndUndo(t1: Tables, t2: Tables, rows: seq<Row>, org: string, app: string,
                                                    f1: seq<RowFaults>, f2: seq<RowFaults>, n: nat)
    requires n <= |rows|
    requires forall i :: 0 <= i < n ==> FaultAt(f1, i).partInsert == FaultAt(f2, i).partInsert
                                        && FaultAt(f1, i).detailsInsert == FaultAt(f2, i).detailsInsert
    ensures ImportRows(t1, rows, org, app, f1, n).tally == ImportRows(t2, rows, org, app, f2, n).tally
  {
    if n > 0 {
      TallyIgnoresLinksAndUndo(t1, t2, rows, org, app, f1, f2, n - 1);
      CommitRowOutcome(ImportRows(t1, rows, org, app, f1, n - 1).tables, rows[n - 1], org, app, FaultAt(f1, n - 1));
      CommitRowOutcome(ImportRows(t2, rows, org, app, f2, n - 1).tables, rows[n - 1], org, app, FaultAt(f2, n - 1));
    }
  }

  /** One commit keeps referential integrity. */
  lemma CommitRowValid(t: Tables, row: Row, org: string, app: string, f: RowFaults)
    requires Valid(t)
    ensures Valid(CommitRow(t, row, org, app, f).tables)
  {
    if HasRequired(row) && f.partInsert.Ok? && f.detailsInsert.Fail? && f.compensation.Ok? {
      assert Unreferenced(t, t.nextId);
    }
  }

  /** The import keeps referential integrity: no details or application
      row ever names a part that is not there. */
  lemma {:induction false} ImportValid(t: Tables, rows: seq<Row>, org: string, app: string, faults: seq<RowFaults>, n: nat)
    requires n <= |rows| && Valid(t)
    ensures Valid(ImportRows(t, rows, org, app, faults, n).tables)
  {
    if n > 0 {
      ImportValid(t, rows, org, app, faults, n - 1);
      CommitRowValid(ImportRows(t, rows, org, app, faults, n - 1).tables, rows[n - 1], org, app, FaultAt(faults, n - 1));
    }
  }

  /** What the tables held before is still there: old parts keep their
      rows, and details and application rows are only appended. */
  predicate Extends(t: Tables, u: Tables) {
    && t.nextId <= u.nextId
    && (forall id :: id in t.parts ==> id in u.parts && u.parts[id] == t.parts[id])
    && t.details <= u.details
    && t.links <= u.links
  }

  lemma CommitRowExtends(t: Tables, row: Row, org: string, app: string, f: RowFaults)
    requires Valid(t)
    ensures Extends(t, CommitRow(t, row, org, app, f).tables)
  {
  }

  lemma {:induction false} ImportKeepsOld(t: Tables, rows: seq<Row>, org: string, app: string, faults: seq<RowFaults>, n: nat)
    requires n <= |rows| && Valid(t)
    ensures Extends(t, ImportRows(t, rows, org, app, faults, n).tables)
  {
    if n > 0 {
      ImportKeepsOld(t, rows, org, app, faults, n - 1);
      var prev := ImportRows(t, rows, org, app, faults, n - 1).tables;
      ImportValid(t, rows, org, app, faults, n - 1);
      CommitRowExtends(prev, rows[n - 1], org, app, FaultAt(faults, n - 1));
    }
  }

  /** Every compensating delete among rows `0..n` succeeds. */
  predicate AllUndone(faults: seq<RowFaults>, n: nat) {
    forall i :: 0 <= i < n ==> FaultAt(faults, i).compensation.Ok?
  }

  /** Every part that is in `u` but not in `t` has a details row for `org`. */
  predicate NewPartsDetailed(t: Tables, u: Tables, org: string) {
    forall id :: id in u.parts && id !in t.parts ==> HasDetails(u.details, id, org)
  }

  lemma HasDetailsGrows(details: seq<DetailsRow>, more: seq<DetailsRow>, id: nat, org: string)
    requires HasDetails(details, id, org)
    ensures HasDetails(details + more, id, org)
  {
    var k :| 0 <= k < |details| && details[k].partId == id && details[k].organizationId == org;
    assert (details + more)[k] == details[k];
  }

  lemma CommitRowDetailed(t0: Tables, t: Tables, row: Row, org: string, app: string, f: RowFaults)
    requires NewPartsDetailed(t0, t, org) && f.compensation.Ok?
    ensures NewPartsDetailed(t0, CommitRow(t, row, org, app, f).tables, org)
  {
    var u := CommitRow(t, row, org, app, f).tables;
    if HasRequired(row) && f.partInsert.Ok? && f.detailsInsert.Ok? {
      var id := t.nextId;
      var d := DetailsFromRow(row, id, org);
      assert u.details == t.details + [d];
      forall x | x in u.parts && x !in t0.parts
        ensures HasDetails(u.details, x, org)
      {
        if x == id {
          assert u.details[|t.details|] == d;
        } else {
          HasDetailsGrows(t.details, [d], x, org);
        }
      }
    }
  }

  /** When every compensating delete succeeds, no row of the import leaves
      behind a part without a details row for the chosen organisation. */
  lemma {:induction false} NewPartsHaveDetails(t: Tables, rows: seq<Row>, org: string, app: string, faults: seq<RowFaults>, n: nat)
    requires n <= |rows| && AllUndone(faults, n)
    ensures NewPartsDetailed(t, ImportRows(t, rows, org, app, faults, n).tables, org)
  {
    if n > 0 {
      NewPartsHaveDetails(t, rows, org, app, faults, n - 1);
      CommitRowDetailed(t, ImportRows(t, rows, org, app, faults, n - 1).tables, rows[n - 1], org, app, FaultAt(faults, n - 1));
    }
  }

  /** Every part that is in `u` but not in `t` has neither a machine nor
      an assembly. */
  predicate NewPartsUnplaced(t: Tables, u: Tables) {
    forall id :: id in u.parts && id !in t.parts ==> u.parts[id].machine == Null && u.parts[id].assembly == Null
  }

  lemma CommitRowUnplaced(t0: Tables, t: Tables, row: Row, org: string, app: string, f: RowFaults)
    requires NewPartsUnplaced(t0, t)
    ensures NewPartsUnplaced(t0, CommitRow(t, row, org, app, f).tables)
  {
  }

  /** Whatever the file holds, no part the import adds records a machine or
      an assembly. */
  lemma {:induction false} ImportDropsPlacement(t: Tables, rows: seq<Row>, org: string, app: string, faults: seq<RowFaults>, n: nat)
    requires n <= |rows|
    ensures NewPartsUnplaced(t, ImportRows(t, rows, org, app, faults, n).tables)
  {
    if n > 0 {
      ImportDropsPlacement(t, rows, org, app, faults, n - 1);
      CommitRowUnplaced(t, ImportRows(t, rows, org, app, faults, n - 1).tables, rows[n - 1], org, app, FaultAt(faults, n - 1));
    }
  }

  lemma CommitRowCount(t: Tables, row: Row, org: string, app: string, f: RowFaults)
    requires Valid(t) && f.compensation.Ok?
    ensures |CommitRow(t, row, org, app, f).tables.parts| == |t.parts| + if CommitRow(t, row, org, app, f).error.None? then 1 else 0
  {
    var id := t.nextId;
    assert id !in t.parts;
    if HasRequired(row) && f.partInsert.Ok? && f.detailsInsert.Fail? {
      assert t.parts[id := PartFromRow(row)] - {id} == t.parts;
    }
  }

  /** When every compensating delete succeeds, the import adds exactly one
      part per successful row. */
  lemma {:induction false} PartsAddedEqualsSuccess(t: Tables, rows: seq<Row>, org: string, app: string, faults: seq<RowFaults>, n: nat)
    requires n <= |rows| && Valid(t) && AllUndone(faults, n)
    ensures var run := ImportRows(t, rows, org, app, faults, n);
            |run.tables.parts| == |t.parts| + run.tally.success
  {
    if n > 0 {
      PartsAddedEqualsSuccess(t, rows, org, app, faults, n - 1);
      ImportValid(t, rows, org, app, faults, n - 1);
      CommitRowCount(ImportRows(t, rows, org, app, faults, n - 1).tables, rows[n - 1], org, app, FaultAt(faults, n - 1));
    }
  }

  /** Every text column of `row` holds null or a non-blank text. */
  predicate TextCellsNonBlank(row: Row) {
    forall key :: key in row && IsTextColumn(key) ==> row[key] == Null || (row[key].Text? && row[key].s != "")
  }

  /** On such a row the required-field check asks exactly that the four
      required columns are present and not null. */
  lemma RequiredMeansNonNull(row: Row)
    requires TextCellsNonBlank(row)
    ensures HasRequired(row) <==> (forall key :: key in Required ==> key in row && row[key] != Null)
  {
    assert IsTextColumn("manufacturer_part_number") && IsTextColumn("manufacturer");
    assert IsTextColumn("name") && IsTextColumn("price_type");
  }

  /** Every parsed row is such a row. */
  lemma ParsedRowsNonBlank(content: string, r: nat)
    requires ParseSpec(content).Done? && r < |ParseSpec(content).value|
    ensures TextCellsNonBlank(ParseSpec(content).value[r])
  {
    var row := ParseSpec(content).value[r];
    forall key | key in row && IsTextColumn(key)
      ensures row[key] == Null || (row[key].Text? && row[key].s != "")
    {
      ParsedTextCells(content, r, key);
    }
  }

  /** A completed upload tallies every data line of the file. */
  lemma UploadCountsLines(t: Tables, organizations: set<string>, applications: set<(string, string)>,
                          content: string, org: string, app: string, faults: seq<RowFaults>)
    requires UploadSpec(t, organizations, applications, Some(content), org, app, faults).response.Completed?
    ensures var c := UploadSpec(t, organizations, applications, Some(content), org, app, faults).response.results;
            c.success + c.failed == |Lines(content)| - 1 && |c.errors| == c.failed
  {
    assert org != "" && org in organizations && !(app != "" && (app, org) !in applications);
    var parsed := ParseSpec(content);
    assert parsed.Done?;
    var rows := parsed.value;
    assert |rows| == |Lines(content)| - 1;
    var run := ImportRows(t, rows, org, app, faults, |rows|);
    assert UploadSpec(t, organizations, applications, Some(content), org, app, faults) == Outcome(run.tables, Completed(run.tally));
    TallyCounts(t, rows, org, app, faults, |rows|);
  }

  /** The organisation and application are checked before the file is
      read: when either check fails, the answer is the same whatever the
      file holds. */
  lemma ChecksPrecedeParsing(t: Tables, organizations: set<string>, applications: set<(string, string)>,
                             c1: string, c2: string, org: string, app: string, faults: seq<RowFaults>)
    requires org == "" || org !in organizations || (app != "" && (app, org) !in applications)
    ensures UploadSpec(t, organizations, applications, Some(c1), org, app, faults)
            == UploadSpec(t, organizations, applications, Some(c2), org, app, faults)
  {
  }

  /** An invalid price type on any data line rejects the whole file: no
      row is committed. */
  lemma InvalidPriceTypeRejectsFile(t: Tables, organizations: set<string>, applications: set<(string, string)>,
                                    content: string, org: string, app: string, faults: seq<RowFaults>, i: nat, j: nat)
    requires org != "" && org in organizations && (app == "" || (app, org) in applications)
    requires 1 <= i < |Lines(content)|
    requires var headers := HeaderNames(Lines(content)[0]);
             var values := FieldValues(Lines(content)[i]);
             j < |headers| && headers[j] == "price_type" && |values| == |headers| && !IsPriceType(values[j])
    ensures var out := UploadSpec(t, organizations, applications, Some(content), org, app, faults);
            out.tables == t && out.response.Rejected? && out.response.status == 400
            && StartsWith(out.response.error, "CSV parsing error: ")
  {
    BadLineAbortsParse(content, i);
    var out := UploadSpec(t, organizations, applications, Some(content), org, app, faults);
    assert out.response.error == "CSV parsing error: " + Message(ParseSpec(content).error);
  }
}
