/** The create form: its initial fields, field edits, and what its request
    meets at `POST /api/admin/parts`. The access-entry list and the submit
    step are those of `AccessForm`. */
module CreateForm {
  import opened Text
  import opened Js
  import opened Collections
  import opened AccessForm
  import AdminCreate
  import C = Catalog

  /** The form's fields when it opens: every text and number field empty,
      `price_type` 'fixed', `is_repairable` false. There is no
      `stock_quantity` field. */
  const InitialForm: JsObject := map[
    "manufacturer_part_number" := Str(""),
    "client_part_number" := Str(""),
    "name" := Str(""),
    "description" := Str(""),
    "machine" := Str(""),
    "assembly" := Str(""),
    "manufacturer" := Str(""),
    "part_type" := Str(""),
    "voltage" := Str(""),
    "shaft_size" := Str(""),
    "gearbox_ratio" := Str(""),
    "power_rating_hp" := Str(""),
    "power_rating_kw" := Str(""),
    "estimated_lead_time_days" := Str(""),
    "price_type" := Str("fixed"),
    "unit_price" := Str(""),
    "repair_price" := Str(""),
    "is_repairable" := Bool(false),
    "specifications" := Str("")]

  /** `handleInputChange(field, value)`: the value is stored as given. */
  function SetField(form: JsObject, field: string, value: JsVal): (r: JsObject)
    ensures Get(r, field) == value
    ensures forall key :: key != field ==> Get(r, key) == Get(form, key)
    ensures forall key :: key in r <==> key in form || key == field
  {
    form[field := value]
  }

  /** The form has no stock quantity to send. */
  predicate NoStock(form: JsObject) {
    "stock_quantity" !in form
  }

  // Properties

  lemma InitialFormShape()
    ensures NoStock(InitialForm) && Get(InitialForm, "stock_quantity") == Undefined
    ensures Get(InitialForm, "price_type") == Str("fixed") && Get(InitialForm, "is_repairable") == Bool(false)
    ensures !Complete(InitialForm)
  {
  }

  /** The form has no input for the stock quantity: editing any other field
      never adds one. */
  lemma SetFieldKeepsNoStock(form: JsObject, field: string, value: JsVal)
    requires NoStock(form) && field != "stock_quantity"
    ensures NoStock(SetField(form, field, value))
  {
  }

  /** Choosing "No specific application" stores '__none__' in the entry;
      only the payload turns it into `undefined`. */
  lemma NoApplicationKeptUntilSubmit(entries: seq<Entry>, index: nat)
    requires index < |entries|
    ensures var e := Update(entries, index, "application_id", Str(NoApplication))[index];
      Get(e, "application_id") == Str("__none__") && Get(PayloadEntry(e), "application_id") == Undefined
  {
  }

  /** Every request the form sends is refused by the endpoint with 400 and
      changes nothing: the body never carries `stock_quantity`, which the
      endpoint requires. */
  lemma SubmittedFormRejected(form: JsObject, entries: seq<Entry>, t: C.Tables, replies: AdminCreate.CreateReplies)
    requires NoStock(form) && Submit(form, entries).Sent?
    ensures AdminCreate.CreateSpec(t, Submit(form, entries).body, replies)
         == AdminCreate.Outcome(t, AdminCreate.Failed(400, AdminCreate.MissingFieldsMessage))
  {
    assert Get(Submit(form, entries).body, "stock_quantity") == Undefined;
  }

  /** Each object of `organization_access` lacks the keys the endpoint reads
      for applications and prices. */
  lemma PayloadLacksEndpointKeys(entries: seq<Entry>)
    ensures var p := AccessPayload(entries);
      forall k :: 0 <= k < |p| ==>
        && Field(p[k], "applications") == Undefined
        && Field(p[k], "unit_price") == Undefined
        && Field(p[k], "price_type") == Undefined
  {
  }

  /** Even when a stock quantity is supplied, what the admin chose per
      organisation is lost: no application row is written, and every
      details row gets price type 'non_fixed' and no unit price. */
  lemma ChosenApplicationsAndPricesDropped(form: JsObject, entries: seq<Entry>, stock: JsVal, t: C.Tables, replies: AdminCreate.CreateReplies)
    requires Submit(form, entries).Sent?
    ensures var r := AdminCreate.CreateSpec(t, Submit(form, entries).body["stock_quantity" := stock], replies);
      && r.tables.links == t.links
      && |t.details| <= |r.tables.details|
      && forall k :: |t.details| <= k < |r.tables.details| ==>
           r.tables.details[k].priceType == C.Text("non_fixed") && r.tables.details[k].unitPrice == C.Null
  {
    var body := Submit(form, entries).body["stock_quantity" := stock];
    var payload := AccessPayload(entries);
    PayloadLacksEndpointKeys(entries);
    assert Get(body, "organization_access") == List(payload);
    if AdminCreate.PassesValidation(body) && replies.part.Ok? {
      var created := AdminCreate.WithPart(t, AdminCreate.PartFromBody(body));
      assert AdminCreate.CreateSpec(t, body, replies)
          == AdminCreate.AccessSpec(created, AdminCreate.NonEmptyArray(List(payload)), t.nextId, replies);
      AccessWithoutEndpointKeys(created, payload, t.nextId, replies);
    }
  }

  /** The access block, for entries without `applications`, `unit_price`
      and `price_type`: no application row, and only default-priced
      details rows. */
  lemma AccessWithoutEndpointKeys(created: C.Tables, payload: seq<JsVal>, id: nat, replies: AdminCreate.CreateReplies)
    requires forall k :: 0 <= k < |payload| ==>
        && Field(payload[k], "applications") == Undefined
        && Field(payload[k], "unit_price") == Undefined
        && Field(payload[k], "price_type") == Undefined
    ensures var r := AdminCreate.AccessSpec(created, AdminCreate.NonEmptyArray(List(payload)), id, replies);
      && r.tables.links == created.links
      && |created.details| <= |r.tables.details|
      && forall k :: |created.details| <= k < |r.tables.details| ==>
           r.tables.details[k].priceType == C.Text("non_fixed") && r.tables.details[k].unitPrice == C.Null
  {
    var access := AdminCreate.NonEmptyArray(List(payload));
    var r := AdminCreate.AccessSpec(created, access, id, replies);
    if access.Items? && AdminCreate.AllReadable(access.items) {
      var detailed := AdminCreate.WithDetails(created, payload, id, replies.details);
      assert r.tables == detailed by {
        assert access.items == payload;
        AdminCreate.LinkLoopSkipsEntriesWithoutApplications(detailed, payload, id, replies, |payload|);
      }
      assert forall k :: |created.details| <= k < |detailed.details| ==>
          detailed.details[k].priceType == C.Text("non_fixed") && detailed.details[k].unitPrice == C.Null
      by {
        DefaultDetailsRecords(payload, id);
        forall k | |created.details| <= k < |detailed.details|
          ensures detailed.details[k].priceType == C.Text("non_fixed") && detailed.details[k].unitPrice == C.Null
        {
          assert detailed.details[k] == AdminCreate.DetailsRecords(payload, id)[k - |created.details|];
        }
      }
    } else {
      assert r.tables == created;
    }
  }

  /** Details records built from entries without `unit_price` and
      `price_type` are priced 'non_fixed' with no unit price. */
  lemma DefaultDetailsRecords(payload: seq<JsVal>, id: nat)
    requires forall k :: 0 <= k < |payload| ==>
        Field(payload[k], "unit_price") == Undefined && Field(payload[k], "price_type") == Undefined
    ensures forall k :: 0 <= k < |payload| ==>
        && AdminCreate.DetailsRecords(payload, id)[k].priceType == C.Text("non_fixed")
        && AdminCreate.DetailsRecords(payload, id)[k].unitPrice == C.Null
  {
    forall k | 0 <= k < |payload|
      ensures AdminCreate.DetailsRecords(payload, id)[k].priceType == C.Text("non_fixed")
      ensures AdminCreate.DetailsRecords(payload, id)[k].unitPrice == C.Null
    {
      assert !Truthy(Field(payload[k], "price_type")) && !Truthy(Field(payload[k], "unit_price"));
      assert AdminCreate.DetailsRecords(payload, id)[k] == AdminCreate.DetailsFor(payload[k], id);
    }
  }

  // A form the endpoint accepts, for comparison.

  /** The create form with a stock quantity field, starting at '0'. */
  const InitialFormWithStock: JsObject := InitialForm["stock_quantity" := Str("0")]

  /** A form that carries a stock quantity passes the endpoint's check
      whenever it passes its own, and then creates the part. */
  lemma FormWithStockAccepted(form: JsObject, entries: seq<Entry>, t: C.Tables, replies: AdminCreate.CreateReplies)
    requires Get(form, "stock_quantity") != Undefined && Submit(form, entries).Sent?
    ensures AdminCreate.PassesValidation(Submit(form, entries).body)
    ensures C.Valid(t) && replies.part.Ok? ==>
      AdminCreate.CreateSpec(t, Submit(form, entries).body, replies).tables.parts
        == t.parts[t.nextId := AdminCreate.PartFromBody(Submit(form, entries).body)]
  {
    var body := Submit(form, entries).body;
    assert Get(body, "stock_quantity") == Get(form, "stock_quantity");
    if C.Valid(t) && replies.part.Ok? {
      AdminCreate.CreateInsertsPart(t, body, replies);
    }
  }

  /** The stock field survives edits of every other field. */
  lemma StockFieldKept(form: JsObject, field: string, value: JsVal)
    requires Get(form, "stock_quantity") != Undefined && field != "stock_quantity"
    ensures Get(SetField(form, field, value), "stock_quantity") != Undefined
  {
  }

  lemma InitialFormWithStockShape()
    ensures Get(InitialFormWithStock, "stock_quantity") == Str("0")
    ensures forall key :: key != "stock_quantity" ==> Get(InitialFormWithStock, key) == Get(InitialForm, key)
  {
  }

  // The access entry the endpoint reads, for comparison.

  /** An access entry in the shape the endpoint reads: the chosen
      application as a one-element `applications` list, and the custom
      price as `unit_price`. */
  function EndpointEntry(e: Entry): (r: Entry)
    ensures Get(r, "organization_id") == Get(e, "organization_id")
  {
    var sent := PayloadEntry(e);
    var app := Get(sent, "application_id");
    map[
      "organization_id" := Get(sent, "organization_id"),
      "applications" := if Truthy(app) then List([app]) else Undefined,
      "unit_price" := Get(sent, "custom_price")]
  }

  /** Sent in that shape, the chosen application becomes the entry's
      `applications` list, and the custom price the details row's unit
      price when it parses to a non-zero number (and null otherwise). */
  lemma EndpointEntryKeepsChoices(e: Entry, id: nat)
    ensures var app := Get(e, "application_id");
      Truthy(app) && app != Str(NoApplication) ==>
        AdminCreate.NonEmptyArray(Field(Object(EndpointEntry(e)), "applications")) == AdminCreate.Items([app])
    ensures var d := AdminCreate.DetailsFor(Object(EndpointEntry(e)), id);
      var price := Get(e, "custom_price");
      d.unitPrice == if !Truthy(Get(e, "use_default_pricing")) && Truthy(price) && ParsesNonZero(RawText(price))
                     then C.FloatOf(RawText(price)) else C.Null
  {
    EndpointEntryFields(e);
    var sent := Get(PayloadEntry(e), "custom_price");
    var d := AdminCreate.DetailsFor(Object(EndpointEntry(e)), id);
    assert Field(Object(EndpointEntry(e)), "unit_price") == sent;
    assert d.unitPrice == AdminCreate.FloatOrNull(sent);
    if sent != Undefined {
      assert sent == ParsedFloat(RawText(Get(e, "custom_price")));
    }
  }

  /** The `organization_access` list in the endpoint's shape. */
  function EndpointObjects(kept: seq<Entry>): (r: seq<JsVal>)
    ensures |r| == |kept|
    ensures forall k :: 0 <= k < |kept| ==> r[k] == Object(EndpointEntry(kept[k]))
  {
    seq(|kept|, k requires 0 <= k < |kept| => Object(EndpointEntry(kept[k])))
  }

  /** The form's request with its access entries in the endpoint's shape. */
  function EndpointBody(form: JsObject, entries: seq<Entry>): (body: JsObject)
    ensures forall key :: key != "organization_access" ==> Get(body, key) == Get(form, key)
    ensures Get(body, "organization_access") == List(EndpointObjects(Keep(entries, WithOrganization())))
  {
    form["organization_access" := List(EndpointObjects(Keep(entries, WithOrganization())))]
  }

  /** The two fields of an entry in the endpoint's shape the link loop reads. */
  lemma EndpointEntryFields(e: Entry)
    ensures var app := Get(PayloadEntry(e), "application_id");
      Field(Object(EndpointEntry(e)), "applications") == if Truthy(app) then List([app]) else Undefined
    ensures Field(Object(EndpointEntry(e)), "organization_id") == Get(e, "organization_id")
  {
  }

  /** With every application insert answered, the link loop over entries
      that each list at most one application (`apps[j]`, when truthy) never
      throws, and writes the application row of every entry that lists one. */
  lemma {:induction false} SingleApplicationLinks(t: C.Tables, objects: seq<JsVal>, apps: seq<JsVal>, orgs: seq<JsVal>,
                                                  id: nat, replies: AdminCreate.CreateReplies, n: nat)
    requires n <= |objects| == |apps| == |orgs|
    requires forall j :: 0 <= j < |objects| ==>
      && Field(objects[j], "applications") == (if Truthy(apps[j]) then List([apps[j]]) else Undefined)
      && Field(objects[j], "organization_id") == orgs[j]
    requires forall j :: 0 <= j < |replies.links| ==> replies.links[j].Ok?
    ensures var loop := AdminCreate.LinkLoop(t, objects, id, replies, n);
      && !loop.threw
      && forall j :: 0 <= j < n && Truthy(apps[j]) ==>
           C.LinkRow(id, AdminCreate.IdText(apps[j]), AdminCreate.IdText(orgs[j])) in loop.tables.links
  {
    if n > 0 {
      SingleApplicationLinks(t, objects, apps, orgs, id, replies, n - 1);
      var prev := AdminCreate.LinkLoop(t, objects, id, replies, n - 1);
      var cur := AdminCreate.LinkLoop(t, objects, id, replies, n);
      var app := apps[n - 1];
      assert AdminCreate.LinkReply(replies, n - 1).Ok?;
      if Truthy(app) {
        var row := C.LinkRow(id, AdminCreate.IdText(app), AdminCreate.IdText(orgs[n - 1]));
        AdminCreate.LinkLoopAppends(t, objects, id, replies, n, [app]);
        assert AdminCreate.LinkRecords([app], id, orgs[n - 1]) == [row];
        assert cur.tables.links == prev.tables.links + [row];
      } else {
        AdminCreate.LinkLoopSkips(t, objects, id, replies, n);
      }
    }
  }

  /** The applications the entries in the endpoint's shape list. */
  function ChosenApplications(kept: seq<Entry>): (r: seq<JsVal>)
    ensures |r| == |kept|
    ensures forall j :: 0 <= j < |kept| ==> r[j] == Get(PayloadEntry(kept[j]), "application_id")
  {
    seq(|kept|, j requires 0 <= j < |kept| => Get(PayloadEntry(kept[j]), "application_id"))
  }

  function Organizations(kept: seq<Entry>): (r: seq<JsVal>)
    ensures |r| == |kept|
    ensures forall j :: 0 <= j < |kept| ==> r[j] == Get(kept[j], "organization_id")
  {
    seq(|kept|, j requires 0 <= j < |kept| => Get(kept[j], "organization_id"))
  }

  /** Entries in the endpoint's shape list at most their chosen application. */
  lemma EndpointObjectsShape(kept: seq<Entry>)
    ensures var objects := EndpointObjects(kept);
      var apps := ChosenApplications(kept);
      var orgs := Organizations(kept);
      forall j :: 0 <= j < |objects| ==>
        && Field(objects[j], "applications") == (if Truthy(apps[j]) then List([apps[j]]) else Undefined)
        && Field(objects[j], "organization_id") == orgs[j]
  {
    forall j | 0 <= j < |kept|
      ensures Field(EndpointObjects(kept)[j], "applications")
           == (if Truthy(ChosenApplications(kept)[j]) then List([ChosenApplications(kept)[j]]) else Undefined)
      ensures Field(EndpointObjects(kept)[j], "organization_id") == Organizations(kept)[j]
    {
      EndpointEntryFields(kept[j]);
    }
  }

  /** Sent in the endpoint's shape, with a stock quantity and every write
      answered, the request creates the part and, for every access entry,
      writes the application row of the chosen application and a details
      row priced with the entry's custom price. */
  lemma EndpointRequestKeepsChoices(form: JsObject, entries: seq<Entry>, t: C.Tables, replies: AdminCreate.CreateReplies, k: nat)
    requires Complete(form) && Get(form, "stock_quantity") != Undefined
    requires replies.part.Ok? && replies.details.Ok? && forall j :: 0 <= j < |replies.links| ==> replies.links[j].Ok?
    requires k < |Keep(entries, WithOrganization())|
    ensures var e := Keep(entries, WithOrganization())[k];
      var r := AdminCreate.CreateSpec(t, EndpointBody(form, entries), replies);
      var app := Get(e, "application_id");
      var price := Get(e, "custom_price");
      var org := AdminCreate.IdText(Get(e, "organization_id"));
      && r.response == AdminCreate.Created(t.nextId)
      && (Truthy(app) && app != Str(NoApplication) ==> C.LinkRow(t.nextId, AdminCreate.IdText(app), org) in r.tables.links)
      && |t.details| + k < |r.tables.details|
      && r.tables.details[|t.details| + k].organizationId == org
      && r.tables.details[|t.details| + k].unitPrice ==
           if !Truthy(Get(e, "use_default_pricing")) && Truthy(price) && ParsesNonZero(RawText(price))
           then C.FloatOf(RawText(price)) else C.Null
  {
    var kept := Keep(entries, WithOrganization());
    var e := kept[k];
    var body := EndpointBody(form, entries);
    var objects := EndpointObjects(kept);
    var id := t.nextId;
    var detailed := AdminCreate.WithDetails(AdminCreate.WithPart(t, AdminCreate.PartFromBody(body)), objects, id, replies.details);
    EndpointCreateOutcome(form, entries, t, replies);
    var loop := AdminCreate.LinkLoop(detailed, objects, id, replies, |kept|);
    assert loop.tables.links == AdminCreate.CreateSpec(t, body, replies).tables.links;
    assert ChosenApplications(kept)[k] == Get(PayloadEntry(e), "application_id");
    assert loop.tables.details == t.details + AdminCreate.DetailsRecords(objects, id);
    assert loop.tables.details[|t.details| + k] == AdminCreate.DetailsFor(objects[k], id);
    EndpointEntryKeepsChoices(e, id);
  }

  /** The corrected request passes the endpoint's check, and its access
      block runs to the end without throwing. */
  lemma EndpointCreateOutcome(form: JsObject, entries: seq<Entry>, t: C.Tables, replies: AdminCreate.CreateReplies)
    requires Complete(form) && Get(form, "stock_quantity") != Undefined
    requires replies.part.Ok? && forall j :: 0 <= j < |replies.links| ==> replies.links[j].Ok?
    requires |Keep(entries, WithOrganization())| > 0
    ensures var kept := Keep(entries, WithOrganization());
      var objects := EndpointObjects(kept);
      var body := EndpointBody(form, entries);
      var detailed := AdminCreate.WithDetails(AdminCreate.WithPart(t, AdminCreate.PartFromBody(body)), objects, t.nextId, replies.details);
      var loop := AdminCreate.LinkLoop(detailed, objects, t.nextId, replies, |kept|);
      && AdminCreate.CreateSpec(t, body, replies) == AdminCreate.Outcome(loop.tables, AdminCreate.Created(t.nextId))
      && forall j :: 0 <= j < |kept| && Truthy(ChosenApplications(kept)[j]) ==>
           C.LinkRow(t.nextId, AdminCreate.IdText(ChosenApplications(kept)[j]), AdminCreate.IdText(Organizations(kept)[j])) in loop.tables.links
  {
    var kept := Keep(entries, WithOrganization());
    var objects := EndpointObjects(kept);
    var body := EndpointBody(form, entries);
    var created := AdminCreate.WithPart(t, AdminCreate.PartFromBody(body));
    var detailed := AdminCreate.WithDetails(created, objects, t.nextId, replies.details);
    EndpointObjectsShape(kept);
    SingleApplicationLinks(detailed, objects, ChosenApplications(kept), Organizations(kept), t.nextId, replies, |kept|);
    assert AdminCreate.PassesValidation(body) by {
      assert Get(body, "manufacturer_part_number") == Get(form, "manufacturer_part_number");
      assert Get(body, "name") == Get(form, "name");
      assert Get(body, "price_type") == Get(form, "price_type");
      assert Get(body, "stock_quantity") == Get(form, "stock_quantity");
    }
    assert AdminCreate.AllReadable(objects);
    AdminCreate.CreateWithAccess(t, body, replies, objects);
  }
}
