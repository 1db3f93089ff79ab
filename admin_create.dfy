/** Part creation (`POST /api/admin/parts`): the required-field check, the
    `parts` insert, one batch insert of organisation-details records built
    from `organization_access`, then a loop that inserts the application
    rows each access entry lists under `applications`. Only the part insert
    can fail the request; the other writes are logged and ignored. */
module AdminCreate {
  import opened Text
  import opened Js
  import C = Catalog

  const MissingFieldsMessage := "Missing required fields: manufacturer_part_number, name, price_type, stock_quantity"

  /** The request's required-field check. `stock_quantity` only has to be
      present (`null` passes); `manufacturer` is not asked for. */
  predicate PassesValidation(body: JsObject) {
    && Truthy(Get(body, "manufacturer_part_number"))
    && Truthy(Get(body, "name"))
    && Truthy(Get(body, "price_type"))
    && Get(body, "stock_quantity") != Undefined
  }

  /** A request value written to a column as it is: `undefined` and `null`
      store null. */
  function CellOf(v: JsVal): (c: C.Cell)
    ensures (v == Undefined || v == Null) <==> c == C.Null
  {
    match v
    case Undefined => C.Null
    case Null => C.Null
    case Str(s) => C.Text(s)
    case Bool(b) => C.Flag(b)
    case _ => C.Json(v)
  }

  /** `v ? parseFloat(v) : null`. */
  function FloatOrNull(v: JsVal): (c: C.Cell)
    ensures Truthy(v) ==> c == C.FloatOf(RawText(v))
    ensures !Truthy(v) ==> c == C.Null
  {
    if Truthy(v) then C.FloatOf(RawText(v)) else C.Null
  }

  /** `v ? parseInt(v) : null`. */
  function IntOrNull(v: JsVal): (c: C.Cell)
    ensures Truthy(v) ==> c == C.IntOf(RawText(v))
    ensures !Truthy(v) ==> c == C.Null
  {
    if Truthy(v) then C.IntOf(RawText(v)) else C.Null
  }

  /** An identifier as the text the database is sent. */
  function IdText(v: JsVal): string {
    if v.Str? then v.s else RawText(v)
  }

  /** The `parts` record inserted for a request body. */
  function PartFromBody(body: JsObject): C.PartRow {
    C.PartRow(
      manufacturerPartNumber := CellOf(Get(body, "manufacturer_part_number")),
      clientPartNumber := CellOf(Get(body, "client_part_number")),
      name := CellOf(Get(body, "name")),
      description := CellOf(Get(body, "description")),
      specifications := CellOf(Get(body, "specifications")),
      machine := CellOf(Get(body, "machine")),
      assembly := CellOf(Get(body, "assembly")),
      manufacturer := CellOf(Get(body, "manufacturer")),
      partType := CellOf(Get(body, "part_type")),
      voltage := CellOf(Get(body, "voltage")),
      shaftSize := CellOf(Get(body, "shaft_size")),
      gearboxRatio := CellOf(Get(body, "gearbox_ratio")),
      powerRatingHp := FloatOrNull(Get(body, "power_rating_hp")),
      powerRatingKw := FloatOrNull(Get(body, "power_rating_kw")),
      stockQuantity := C.IntOf(RawText(Get(body, "stock_quantity"))),
      leadTimeDays := IntOrNull(Get(body, "estimated_lead_time_days")),
      priceType := CellOf(Get(body, "price_type")),
      unitPrice := FloatOrNull(Get(body, "unit_price")),
      repairPrice := FloatOrNull(Get(body, "repair_price")),
      isRepairable := Truthy(Get(body, "is_repairable")))
  }

  /** The organisation-details record one access entry gives part `id`.
      The entry's own `price_type` is kept when truthy and is otherwise
      'non_fixed'; every other term is null (or false) unless the entry
      carries a truthy value for it. */
  function DetailsFor(access: JsVal, id: nat): (d: C.DetailsRow)
    ensures d.partId == id && d.organizationId == IdText(Field(access, "organization_id"))
    ensures !Truthy(Field(access, "price_type")) ==> d.priceType == C.Text("non_fixed")
    ensures !Truthy(Field(access, "unit_price")) ==> d.unitPrice == C.Null
    ensures !Truthy(Field(access, "is_repairable")) ==> !d.isRepairable
    ensures !Truthy(Field(access, "organization_item_number")) ==> d.itemNumber == C.Null
    ensures !Truthy(Field(access, "estimated_lead_time_days")) ==> d.leadTimeDays == C.Null
    ensures !Truthy(Field(access, "repair_price")) ==> d.repairPrice == C.Null
  {
    C.DetailsRow(
      partId := id,
      organizationId := IdText(Field(access, "organization_id")),
      itemNumber := CellOf(Or(Field(access, "organization_item_number"), Null)),
      leadTimeDays := CellOf(Or(Field(access, "estimated_lead_time_days"), Null)),
      priceType := CellOf(Or(Field(access, "price_type"), Str("non_fixed"))),
      unitPrice := FloatOrNull(Field(access, "unit_price")),
      isRepairable := Truthy(Field(access, "is_repairable")),
      repairPrice := FloatOrNull(Field(access, "repair_price")))
  }

  /** What `v && v.length > 0 && v.map(...)` meets: nothing to do, a
      non-empty array, or a value that passes the length test but has no
      `map` (a non-empty string, an object whose `length` is above zero),
      which throws. Values without a `length` are skipped. */
  datatype ArrayLike = Skipped | Items(items: seq<JsVal>) | Throws

  /** `n > 0` for the `length` field of an object: a number above zero, or
      `true`, which compares as 1. */
  predicate PositiveLength(n: JsVal) {
    || (n.Num? && n.text != "0" && n.text != "NaN" && !(|n.text| > 0 && n.text[0] == '-'))
    || n == Bool(true)
  }

  function NonEmptyArray(v: JsVal): (r: ArrayLike)
    ensures r.Items? ==> v == List(r.items) && |r.items| > 0
    ensures !Truthy(v) ==> r == Skipped
  {
    if v.List? then (if |v.items| > 0 then Items(v.items) else Skipped)
    else if HasNoMap(v) then Throws
    else Skipped
  }

  /** A value other than an array that passes `v.length > 0`. */
  predicate HasNoMap(v: JsVal) {
    (v.Str? && |v.s| > 0) || (v.Object? && PositiveLength(Get(v.fields, "length")))
  }

  /** A non-empty array is mapped; a non-empty string, or an object whose
      `length` is above zero, passes the test and throws at `map`; every
      other value is skipped. */
  lemma NonEmptyArrayCases(v: JsVal)
    ensures NonEmptyArray(v).Items? <==> v.List? && |v.items| > 0
    ensures NonEmptyArray(v) == Throws <==> (v.Str? && |v.s| > 0) || (v.Object? && PositiveLength(Get(v.fields, "length")))
  {
  }

  /** Reading a field of `null` or `undefined` throws. */
  predicate Readable(v: JsVal) {
    v != Null && v != Undefined
  }

  function DetailsRecords(entries: seq<JsVal>, id: nat): (r: seq<C.DetailsRow>)
    ensures |r| == |entries|
    ensures forall k :: 0 <= k < |entries| ==> r[k] == DetailsFor(entries[k], id)
  {
    seq(|entries|, k requires 0 <= k < |entries| => DetailsFor(entries[k], id))
  }

  /** The application rows one access entry asks for. */
  function LinkRecords(apps: seq<JsVal>, id: nat, org: JsVal): (r: seq<C.LinkRow>)
    ensures |r| == |apps|
    ensures forall k :: 0 <= k < |apps| ==> r[k] == C.LinkRow(id, IdText(apps[k]), IdText(org))
  {
    seq(|apps|, k requires 0 <= k < |apps| => C.LinkRow(id, IdText(apps[k]), IdText(org)))
  }

  /** The store's answers: to the part insert, to the details batch, and to
      the application batch of each access entry in turn (entries past the
      end of the list meet no failure). */
  datatype CreateReplies = CreateReplies(part: C.StoreReply, details: C.StoreReply, links: seq<C.StoreReply>)

  function LinkReply(replies: CreateReplies, k: nat): C.StoreReply {
    if k < |replies.links| then replies.links[k] else C.Ok
  }

  datatype Response = Created(id: nat) | Failed(status: nat, error: string)

  datatype Outcome = Outcome(tables: C.Tables, response: Response)

  /** The application loop over entries `0..n`: the tables it leaves, and
      whether it threw. */
  datatype LoopState = LoopState(tables: C.Tables, threw: bool)

  function LinkLoop(t: C.Tables, entries: seq<JsVal>, id: nat, replies: CreateReplies, n: nat): (r: LoopState)
    requires n <= |entries|
    ensures r.tables.parts == t.parts && r.tables.details == t.details && r.tables.nextId == t.nextId
    ensures t.links <= r.tables.links
  {
    if n == 0 then LoopState(t, false)
    else
      var prev := LinkLoop(t, entries, id, replies, n - 1);
      if prev.threw then prev
      else
        var e := entries[n - 1];
        match NonEmptyArray(Field(e, "applications"))
        case Skipped => prev
        case Throws => LoopState(prev.tables, true)
        case Items(apps) =>
          if LinkReply(replies, n - 1).Ok? then
            LoopState(prev.tables.(links := prev.tables.links + LinkRecords(apps, id, Field(e, "organization_id"))), false)
          else prev
  }

  const InternalError := Failed(500, "Internal server error")

  /** Every entry can have its fields read. */
  predicate AllReadable(entries: seq<JsVal>) {
    forall k :: 0 <= k < |entries| ==> Readable(entries[k])
  }

  /** The tables once part `t.nextId` is inserted. */
  function WithPart(t: C.Tables, p: C.PartRow): (u: C.Tables)
    ensures u.parts == t.parts[t.nextId := p] && u.nextId == t.nextId + 1
    ensures u.details == t.details && u.links == t.links
  {
    t.(parts := t.parts[t.nextId := p], nextId := t.nextId + 1)
  }

  /** The tables once the details batch for `entries` has been answered. */
  function WithDetails(t: C.Tables, entries: seq<JsVal>, id: nat, reply: C.StoreReply): (u: C.Tables)
    ensures u.parts == t.parts && u.nextId == t.nextId && u.links == t.links
    ensures u.details == if reply.Ok? then t.details + DetailsRecords(entries, id) else t.details
  {
    if reply.Ok? then t.(details := t.details + DetailsRecords(entries, id)) else t
  }

  /** The writes for `organization_access` after part `id` was created. */
  function AccessSpec(created: C.Tables, access: ArrayLike, id: nat, replies: CreateReplies): Outcome {
    match access
    case Skipped => Outcome(created, Created(id))
    case Throws => Outcome(created, InternalError)
    case Items(entries) =>
      if !AllReadable(entries) then Outcome(created, InternalError)
      else
        var loop := LinkLoop(WithDetails(created, entries, id, replies.details), entries, id, replies, |entries|);
        Outcome(loop.tables, if loop.threw then InternalError else Created(id))
  }

  /** The endpoint on tables `t`. */
  function CreateSpec(t: C.Tables, body: JsObject, replies: CreateReplies): (r: Outcome)
    ensures !PassesValidation(body) ==> r == Outcome(t, Failed(400, MissingFieldsMessage))
    ensures replies.part.Fail? ==> r.tables == t
    ensures PassesValidation(body) ==> r.response.Created? || r.response.status == 500
  {
    if !PassesValidation(body) then Outcome(t, Failed(400, MissingFieldsMessage))
    else if replies.part.Fail? then Outcome(t, Failed(500, "Failed to create part"))
    else AccessSpec(WithPart(t, PartFromBody(body)), NonEmptyArray(Get(body, "organization_access")), t.nextId, replies)
  }

  // ---------------------------------------------------------------------
  // The handler as the source writes it.

  /** `POST`. */
  method Create(store: C.PartsStore, body: JsObject, replies: CreateReplies) returns (response: Response)
    modifies store`parts, store`nextId, store`details, store`links
    ensures Outcome(store.State(), response) == CreateSpec(old(store.State()), body, replies)
  {
    if !PassesValidation(body) {
      return Failed(400, MissingFieldsMessage);
    }
    var id := store.InsertPart(PartFromBody(body), replies.part);
    if replies.part.Fail? {
      return Failed(500, "Failed to create part");
    }
    response := WriteAccess(store, NonEmptyArray(Get(body, "organization_access")), id, replies);
  }

  /** The `organization_access` block: the details batch, then the loop. */
  method WriteAccess(store: C.PartsStore, access: ArrayLike, id: nat, replies: CreateReplies) returns (response: Response)
    modifies store`details, store`links
    ensures Outcome(store.State(), response) == AccessSpec(old(store.State()), access, id, replies)
  {
    match access
    case Skipped =>
      return Created(id);
    case Throws =>
      return InternalError;
    case Items(entries) =>
      if !AllReadable(entries) {
        return InternalError;
      }
      // A failed details insert is only logged.
      var detailsOk := store.InsertDetails(DetailsRecords(entries, id), replies.details);
      var threw := LinkAll(store, entries, id, replies);
      response := if threw then InternalError else Created(id);
  }

  /** The `for...of` loop inserting each entry's application rows. */
  method LinkAll(store: C.PartsStore, entries: seq<JsVal>, id: nat, replies: CreateReplies) returns (threw: bool)
    modifies store`links
    ensures LoopState(store.State(), threw) == LinkLoop(old(store.State()), entries, id, replies, |entries|)
  {
    ghost var t0 := store.State();
    threw := false;
    for n := 0 to |entries|
      invariant LinkLoop(t0, entries, id, replies, n) == LoopState(store.State(), false)
    {
      var e := entries[n];
      match NonEmptyArray(Field(e, "applications"))
      case Skipped =>
      case Throws =>
        LinkLoopThrowPersists(t0, entries, id, replies, n + 1, |entries|);
        return true;
      case Items(apps) =>
        // A failed application insert is only logged.
        var linked := store.InsertLinks(LinkRecords(apps, id, Field(e, "organization_id")), LinkReply(replies, n));
    }
  }

  // ---------------------------------------------------------------------
  // Properties.

  /** A valid body whose part insert succeeds, with a non-empty list of
      readable access entries whose loop does not throw, creates the part;
      the tables are those the loop leaves. */
  lemma CreateWithAccess(t: C.Tables, body: JsObject, replies: CreateReplies, entries: seq<JsVal>)
    requires PassesValidation(body) && replies.part.Ok?
    requires Get(body, "organization_access") == List(entries) && |entries| > 0 && AllReadable(entries)
    requires var detailed := WithDetails(WithPart(t, PartFromBody(body)), entries, t.nextId, replies.details);
      !LinkLoop(detailed, entries, t.nextId, replies, |entries|).threw
    ensures var detailed := WithDetails(WithPart(t, PartFromBody(body)), entries, t.nextId, replies.details);
      CreateSpec(t, body, replies) == Outcome(LinkLoop(detailed, entries, t.nextId, replies, |entries|).tables, Created(t.nextId))
  {
  }

  /** A turn of the loop over an entry that lists applications, with the
      insert answered, appends that entry's application rows. */
  lemma LinkLoopAppends(t: C.Tables, entries: seq<JsVal>, id: nat, replies: CreateReplies, n: nat, apps: seq<JsVal>)
    requires 0 < n <= |entries| && !LinkLoop(t, entries, id, replies, n - 1).threw
    requires NonEmptyArray(Field(entries[n - 1], "applications")) == Items(apps) && LinkReply(replies, n - 1).Ok?
    ensures var prev := LinkLoop(t, entries, id, replies, n - 1).tables;
      LinkLoop(t, entries, id, replies, n)
        == LoopState(prev.(links := prev.links + LinkRecords(apps, id, Field(entries[n - 1], "organization_id"))), false)
  {
  }

  /** A turn of the loop over an entry without applications changes nothing. */
  lemma LinkLoopSkips(t: C.Tables, entries: seq<JsVal>, id: nat, replies: CreateReplies, n: nat)
    requires 0 < n <= |entries| && NonEmptyArray(Field(entries[n - 1], "applications")) == Skipped
    ensures LinkLoop(t, entries, id, replies, n) == LinkLoop(t, entries, id, replies, n - 1)
  {
  }

  lemma {:induction false} LinkLoopThrowPersists(t: C.Tables, entries: seq<JsVal>, id: nat, replies: CreateReplies, n: nat, m: nat)
    requires n <= m <= |entries| && LinkLoop(t, entries, id, replies, n).threw
    ensures LinkLoop(t, entries, id, replies, m) == LinkLoop(t, entries, id, replies, n)
    decreases m - n
  {
    if n < m {
      LinkLoopThrowPersists(t, entries, id, replies, n, m - 1);
    }
  }

  /** Whether the loop throws depends only on the entries, not on the
      tables or on any store reply. */
  lemma {:induction false} LinkLoopThrowIgnoresReplies(t1: C.Tables, t2: C.Tables, entries: seq<JsVal>, id: nat,
                                                        r1: CreateReplies, r2: CreateReplies, n: nat)
    requires n <= |entries|
    ensures LinkLoop(t1, entries, id, r1, n).threw == LinkLoop(t2, entries, id, r2, n).threw
  {
    if n > 0 {
      LinkLoopThrowIgnoresReplies(t1, t2, entries, id, r1, r2, n - 1);
    }
  }

  /** The answer to a valid request depends only on the part insert: a
      failed details insert or failed application inserts never fail the
      creation. */
  lemma CreateResponseIgnoresLaterWrites(t: C.Tables, body: JsObject, r1: CreateReplies, r2: CreateReplies)
    requires r1.part == r2.part
    ensures CreateSpec(t, body, r1).response == CreateSpec(t, body, r2).response
  {
    if PassesValidation(body) && r1.part.Ok? {
      var access := NonEmptyArray(Get(body, "organization_access"));
      if access.Items? && AllReadable(access.items) {
        var created := WithPart(t, PartFromBody(body));
        LinkLoopThrowIgnoresReplies(WithDetails(created, access.items, t.nextId, r1.details),
                                    WithDetails(created, access.items, t.nextId, r2.details),
                                    access.items, t.nextId, r1, r2, |access.items|);
      }
    }
  }

  /** A valid request whose part insert succeeds creates the part under a
      fresh id. */
  lemma CreateInsertsPart(t: C.Tables, body: JsObject, replies: CreateReplies)
    requires C.Valid(t) && PassesValidation(body) && replies.part.Ok?
    ensures var r := CreateSpec(t, body, replies);
            t.nextId !in t.parts
            && r.tables.parts == t.parts[t.nextId := PartFromBody(body)]
            && (r.response.Created? ==> r.response.id == t.nextId)
  {
  }

  /** Every application row the loop adds comes from the `applications`
      list of some access entry, with that entry's organisation. */
  lemma {:induction false} LinkLoopSources(t: C.Tables, entries: seq<JsVal>, id: nat, replies: CreateReplies, n: nat, j: nat)
    requires n <= |entries|
    requires |t.links| <= j < |LinkLoop(t, entries, id, replies, n).tables.links|
    ensures var l := LinkLoop(t, entries, id, replies, n).tables.links[j];
            exists k, a :: 0 <= k < n && NonEmptyArray(Field(entries[k], "applications")).Items?
                        && 0 <= a < |NonEmptyArray(Field(entries[k], "applications")).items|
                        && l == C.LinkRow(id, IdText(NonEmptyArray(Field(entries[k], "applications")).items[a]),
                                          IdText(Field(entries[k], "organization_id")))
  {
    var prev := LinkLoop(t, entries, id, replies, n - 1);
    var cur := LinkLoop(t, entries, id, replies, n);
    if j < |prev.tables.links| {
      LinkLoopSources(t, entries, id, replies, n - 1, j);
      assert cur.tables.links[j] == prev.tables.links[j];
    } else {
      var e := entries[n - 1];
      var arr := NonEmptyArray(Field(e, "applications"));
      assert !prev.threw && arr.Items? && LinkReply(replies, n - 1).Ok?;
      var rows := LinkRecords(arr.items, id, Field(e, "organization_id"));
      assert cur.tables.links == prev.tables.links + rows;
      var a := j - |prev.tables.links|;
      assert cur.tables.links[j] == rows[a];
    }
  }

  /** An access entry without an `applications` list never yields an
      application row, whatever else it carries (an `application_id`, say). */
  lemma {:induction false} LinkLoopSkipsEntriesWithoutApplications(t: C.Tables, entries: seq<JsVal>, id: nat, replies: CreateReplies, n: nat)
    requires n <= |entries|
    requires forall k :: 0 <= k < n ==> !Truthy(Field(entries[k], "applications"))
    ensures LinkLoop(t, entries, id, replies, n) == LoopState(t, false)
  {
    if n > 0 {
      LinkLoopSkipsEntriesWithoutApplications(t, entries, id, replies, n - 1);
    }
  }

  /** Creation keeps referential integrity: details and application rows
      only ever name the part just created. */
  lemma CreateValid(t: C.Tables, body: JsObject, replies: CreateReplies)
    requires C.Valid(t)
    ensures C.Valid(CreateSpec(t, body, replies).tables)
  {
    if PassesValidation(body) && replies.part.Ok? {
      var id := t.nextId;
      var created := WithPart(t, PartFromBody(body));
      assert C.Valid(created);
      var access := NonEmptyArray(Get(body, "organization_access"));
      if access.Items? && AllReadable(access.items) {
        var detailed := WithDetails(created, access.items, id, replies.details);
        assert C.Valid(detailed);
        var n := |access.items|;
        var out := LinkLoop(detailed, access.items, id, replies, n).tables;
        forall j | 0 <= j < |out.links|
          ensures out.links[j].partId in out.parts
        {
          if j < |detailed.links| {
            assert out.links[j] == detailed.links[j];
          } else {
            LinkLoopSources(detailed, access.items, id, replies, n, j);
          }
        }
      }
    }
  }
}
