/** The edit form's starting state, built from the part the admin API
    returns: the form's fields and one access entry per (organisation,
    application) pair the part is scoped to. */
module EditForm {
  import opened Text
  import opened Js
  import opened Wrappers
  import opened AccessForm

  /** The text fields copied as they are (`value || ''`). */
  const TextFields: seq<string> := [
    "manufacturer_part_number", "client_part_number", "name", "description",
    "machine", "assembly", "manufacturer", "part_type", "voltage",
    "shaft_size", "gearbox_ratio"]

  /** The numeric fields, shown as `String(value)` when truthy and '' otherwise. */
  const NumberFields: seq<string> := [
    "power_rating_hp", "power_rating_kw", "estimated_lead_time_days",
    "unit_price", "repair_price"]

  /** `value ? String(value) : ''`: a zero, like a missing value, shows as
      an empty field. */
  function NumberText(v: JsVal): (r: JsVal)
    ensures r.Str?
    ensures Truthy(v) ==> r == Str(RawText(v))
    ensures !Truthy(v) ==> r == Str("")
  {
    if Truthy(v) then Str(RawText(v)) else Str("")
  }

  /** The text fields of the form. */
  function TextsOf(part: JsObject): (m: JsObject)
    ensures forall f :: f in m <==> f in TextFields
    ensures forall f :: f in m ==> m[f] == Or(Get(part, f), Str(""))
  {
    map f | f in TextFields :: Or(Get(part, f), Str(""))
  }

  /** The numeric fields of the form. */
  function NumbersOf(part: JsObject): (m: JsObject)
    ensures forall f :: f in m <==> f in NumberFields
    ensures forall f :: f in m ==> m[f] == NumberText(Get(part, f))
  {
    map f | f in NumberFields :: NumberText(Get(part, f))
  }

  lemma FieldListsDisjoint()
    ensures forall f :: f in NumberFields ==> f !in TextFields && f != "price_type" && f != "is_repairable"
    ensures forall f :: f in TextFields ==> f != "price_type" && f != "is_repairable"
  {
  }

  /** The form fields for `part` (the `part` object of the response). */
  function FormInit(part: JsObject): (form: JsObject)
    ensures forall f :: f in TextFields ==> Get(form, f) == Or(Get(part, f), Str(""))
    ensures forall f :: f in NumberFields ==> Get(form, f) == NumberText(Get(part, f))
    ensures Get(form, "price_type") == Or(Get(part, "price_type"), Str("fixed"))
    ensures Get(form, "is_repairable") == Bool(Truthy(Get(part, "is_repairable")))
  {
    FieldListsDisjoint();
    (TextsOf(part) + NumbersOf(part))["price_type" := Or(Get(part, "price_type"), Str("fixed"))]["is_repairable" := Bool(Truthy(Get(part, "is_repairable")))]
  }

  /** `org.applications && org.applications.length > 0`. */
  function Applications(org: JsVal): seq<JsVal> {
    var apps := Field(org, "applications");
    if apps.List? then apps.items else []
  }

  /** The access entry for `org`, scoped to application `app` or to none. */
  function EntryFor(org: JsVal, app: Option<JsVal>): (e: Entry)
    ensures Get(e, "organization_id") == Field(org, "id")
    ensures Get(e, "application_id") == (if app.None? then Undefined else Field(app.value, "id"))
    ensures Get(e, "use_default_pricing") == Bool(!Truthy(Field(org, "unit_price")))
    ensures Get(e, "custom_price") == NumberText(Field(org, "unit_price"))
  {
    var price := Field(org, "unit_price");
    var e := map[
      "organization_id" := Field(org, "id"),
      "use_default_pricing" := Bool(!Truthy(price)),
      "custom_price" := NumberText(price)];
    if app.None? then e else e["application_id" := Field(app.value, "id")]
  }

  /** The entries one organisation of the part becomes. */
  function EntriesFor(org: JsVal): (r: seq<Entry>)
    ensures |r| == if |Applications(org)| > 0 then |Applications(org)| else 1
  {
    var apps := Applications(org);
    if |apps| > 0 then seq(|apps|, k requires 0 <= k < |apps| => EntryFor(org, Some(apps[k])))
    else [EntryFor(org, None)]
  }

  /** `organizations.map(...).flat()`. */
  function Flatten(orgs: seq<JsVal>): (r: seq<Entry>) {
    if |orgs| == 0 then []
    else Flatten(orgs[..|orgs| - 1]) + EntriesFor(orgs[|orgs| - 1])
  }

  /** `partData.organizations?.map(...).flat() || []`. */
  function InitialEntries(part: JsObject): seq<Entry> {
    var orgs := Get(part, "organizations");
    if orgs.List? then Flatten(orgs.items) else []
  }

  /** The number of entries an organisation gives: one per application, and
      one when it has none. */
  function EntryCount(orgs: seq<JsVal>): nat {
    if |orgs| == 0 then 0
    else
      var k := |Applications(orgs[|orgs| - 1])|;
      EntryCount(orgs[..|orgs| - 1]) + if k > 0 then k else 1
  }

  // Properties

  /** Flattening gives every organisation max(1, k) entries. */
  lemma {:induction false} FlattenLength(orgs: seq<JsVal>)
    ensures |Flatten(orgs)| == EntryCount(orgs)
  {
    if |orgs| > 0 {
      FlattenLength(orgs[..|orgs| - 1]);
    }
  }

  /** The access list the form starts with: one entry per application of
      every organisation of the part (one for an organisation without any),
      and none when the part lists no organisations. */
  lemma InitialEntriesCount(part: JsObject)
    ensures var orgs := Get(part, "organizations");
      |InitialEntries(part)| == if orgs.List? then EntryCount(orgs.items) else 0
  {
    var orgs := Get(part, "organizations");
    if orgs.List? {
      FlattenLength(orgs.items);
    }
  }

  /** Every flattened entry belongs to one of the part's organisations and
      takes its pricing from that organisation's `unit_price`. */
  lemma {:induction false} FlattenEntriesFromOrganizations(orgs: seq<JsVal>, j: nat)
    requires j < |Flatten(orgs)|
    ensures exists i :: (0 <= i < |orgs|
      && Get(Flatten(orgs)[j], "organization_id") == Field(orgs[i], "id")
      && Get(Flatten(orgs)[j], "use_default_pricing") == Bool(!Truthy(Field(orgs[i], "unit_price")))
      && Get(Flatten(orgs)[j], "custom_price") == NumberText(Field(orgs[i], "unit_price")))
  {
    var init := orgs[..|orgs| - 1];
    var last := orgs[|orgs| - 1];
    if j < |Flatten(init)| {
      FlattenEntriesFromOrganizations(init, j);
      var i :| 0 <= i < |init| && Get(Flatten(init)[j], "organization_id") == Field(init[i], "id")
        && Get(Flatten(init)[j], "use_default_pricing") == Bool(!Truthy(Field(init[i], "unit_price")))
        && Get(Flatten(init)[j], "custom_price") == NumberText(Field(init[i], "unit_price"));
      assert orgs[i] == init[i];
    } else {
      var e := EntriesFor(last)[j - |Flatten(init)|];
      assert Flatten(orgs)[j] == e;
      assert Get(e, "organization_id") == Field(orgs[|orgs| - 1], "id");
    }
  }

  /** An organisation with applications gives one entry per application,
      in their order, each scoped to it. */
  lemma EntriesPerApplication(org: JsVal, k: nat)
    requires k < |Applications(org)|
    ensures Get(EntriesFor(org)[k], "application_id") == Field(Applications(org)[k], "id")
  {
  }

  /** Default pricing is on exactly when the organisation's price is
      missing or zero, and then the custom price field is empty. */
  lemma DefaultPricingWhenNoPrice(org: JsVal, e: Entry)
    requires e in EntriesFor(org)
    ensures Get(e, "use_default_pricing") == Bool(true) <==> !Truthy(Field(org, "unit_price"))
    ensures Get(e, "use_default_pricing") == Bool(true) ==> Get(e, "custom_price") == Str("")
  {
  }

  /** A form built from a part whose required fields are set passes the
      submit check. */
  lemma InitialFormComplete(part: JsObject)
    requires Truthy(Get(part, "manufacturer_part_number")) && Truthy(Get(part, "name"))
    requires Truthy(Get(part, "manufacturer"))
    ensures Complete(FormInit(part))
  {
    var form := FormInit(part);
    assert "manufacturer_part_number" in TextFields && "name" in TextFields && "manufacturer" in TextFields;
  }
}
