/** What the two part forms (create and edit) share: the list of
    organisation-access entries the admin edits, the required-field check on
    submit, and the request body built from the form and the entries. Both
    forms hold an entry as a plain object
    `{organization_id, application_id?, use_default_pricing, custom_price?}`,
    so an entry is a `JsObject` here. */
module AccessForm {
  import opened Text
  import opened Js
  import opened Collections

  type Entry = JsObject

  /** The sentinel the application select stores for "No specific application". */
  const NoApplication := "__none__"

  const RequiredMessage := "Please fill in all required fields: Manufacturer Part Number, Name, Manufacturer, and Price Type"

  /** The entry `addOrganizationAccess` appends. */
  const NewEntry: Entry := map["organization_id" := Str(""), "use_default_pricing" := Bool(true)]

  /** `addOrganizationAccess`. */
  function Add(entries: seq<Entry>): (r: seq<Entry>)
    ensures |r| == |entries| + 1 && r[..|entries|] == entries
    ensures Get(r[|entries|], "organization_id") == Str("") && Get(r[|entries|], "use_default_pricing") == Bool(true)
    ensures Get(r[|entries|], "application_id") == Undefined && Get(r[|entries|], "custom_price") == Undefined
  {
    entries + [NewEntry]
  }

  /** `removeOrganizationAccess(index)`: the entries whose position is not
      `index`; an index outside the list removes nothing. */
  function Remove(entries: seq<Entry>, index: int): (r: seq<Entry>)
    ensures 0 <= index < |entries| ==> |r| == |entries| - 1
    ensures !(0 <= index < |entries|) ==> r == entries
  {
    if 0 <= index < |entries| then entries[..index] + entries[index + 1..] else entries
  }

  /** `updateOrganizationAccess(index, field, value)`: the entry at `index`
      gets `value || undefined` under `field`. */
  function Update(entries: seq<Entry>, index: int, field: string, value: JsVal): (r: seq<Entry>)
    ensures |r| == |entries|
  {
    seq(|entries|, i requires 0 <= i < |entries| => if i == index then entries[i][field := OrUndefined(value)] else entries[i])
  }

  /** Whether `filter(access => access.organization_id)` keeps the entry. */
  predicate HasOrganization(e: Entry) {
    Truthy(Get(e, "organization_id"))
  }

  function WithOrganization(): Entry -> bool {
    (e: Entry) => HasOrganization(e)
  }

  /** The object one kept entry becomes in the request. */
  function PayloadEntry(e: Entry): (r: Entry)
    ensures Get(r, "organization_id") == Get(e, "organization_id")
    ensures Get(r, "use_default_pricing") == Get(e, "use_default_pricing")
    ensures Get(e, "application_id") == Str(NoApplication) ==> Get(r, "application_id") == Undefined
    ensures Get(e, "application_id") != Str(NoApplication) ==> Get(r, "application_id") == Get(e, "application_id")
    ensures Get(r, "custom_price") != Undefined <==>
              !Truthy(Get(e, "use_default_pricing")) && Truthy(Get(e, "custom_price"))
    ensures Get(r, "custom_price") != Undefined ==> Get(r, "custom_price") == ParsedFloat(RawText(Get(e, "custom_price")))
  {
    var app := Get(e, "application_id");
    var useDefault := Get(e, "use_default_pricing");
    var price := Get(e, "custom_price");
    map[
      "organization_id" := Get(e, "organization_id"),
      "application_id" := if app == Str(NoApplication) then Undefined else app,
      "use_default_pricing" := useDefault,
      "custom_price" := if !Truthy(useDefault) && Truthy(price) then ParsedFloat(RawText(price)) else Undefined]
  }

  /** `organization_access` in the request body. */
  function AccessPayload(entries: seq<Entry>): (r: seq<JsVal>)
    ensures |r| == |Keep(entries, WithOrganization())|
  {
    var kept := Keep(entries, WithOrganization());
    seq(|kept|, k requires 0 <= k < |kept| => Object(PayloadEntry(kept[k])))
  }

  /** The four fields the submit handler insists on. */
  predicate Complete(form: JsObject) {
    && Truthy(Get(form, "manufacturer_part_number"))
    && Truthy(Get(form, "name"))
    && Truthy(Get(form, "manufacturer"))
    && Truthy(Get(form, "price_type"))
  }

  datatype Submission = Rejected(message: string) | Sent(body: JsObject)

  /** `handleSubmit` up to the request: an incomplete form is rejected with
      the message and nothing is sent; otherwise the body is the form's
      fields with `organization_access` added. */
  function Submit(form: JsObject, entries: seq<Entry>): (r: Submission)
    ensures r.Rejected? <==> !Complete(form)
    ensures r.Rejected? ==> r.message == RequiredMessage
  {
    if !Complete(form) then Rejected(RequiredMessage)
    else Sent(form["organization_access" := List(AccessPayload(entries))])
  }

  // Properties

  /** Removing the entry just added gives back the list. */
  lemma RemoveUndoesAdd(entries: seq<Entry>)
    ensures Remove(Add(entries), |entries|) == entries
  {
  }

  /** Removal drops exactly the entry at `index` and keeps the others in order. */
  lemma RemoveKeepsOthers(entries: seq<Entry>, index: nat)
    requires index < |entries|
    ensures var r := Remove(entries, index);
      forall k :: 0 <= k < |r| ==> r[k] == entries[if k < index then k else k + 1]
  {
  }

  /** An update changes only `field` of the entry at `index`, and stores a
      falsy value as `undefined`. */
  lemma UpdateTouchesOneField(entries: seq<Entry>, index: nat, field: string, value: JsVal)
    requires index < |entries|
    ensures var r := Update(entries, index, field, value);
      && (forall k :: 0 <= k < |r| && k != index ==> r[k] == entries[k])
      && Get(r[index], field) == (if Truthy(value) then value else Undefined)
      && (forall key :: key != field ==> Get(r[index], key) == Get(entries[index], key))
  {
  }

  /** Unticking "use default pricing" stores `undefined`, not `false`; the
      payload still reads it as "no default pricing". */
  lemma UntickedDefaultIsUndefined(entries: seq<Entry>, index: nat)
    requires index < |entries|
    ensures var e := Update(entries, index, "use_default_pricing", Bool(false))[index];
      Get(e, "use_default_pricing") == Undefined
      && (Truthy(Get(e, "custom_price")) ==> Get(PayloadEntry(e), "custom_price") != Undefined)
  {
  }

  /** The payload keeps exactly the entries with an organisation, in order. */
  lemma PayloadKeepsEntriesWithOrganization(entries: seq<Entry>)
    ensures forall e :: e in Keep(entries, WithOrganization()) <==> e in entries && HasOrganization(e)
    ensures var r := AccessPayload(entries);
      forall k :: 0 <= k < |r| ==> r[k].Object? && HasOrganization(r[k].fields)
  {
    var kept := Keep(entries, WithOrganization());
    KeepMembers(entries, WithOrganization());
    forall k | 0 <= k < |kept|
      ensures HasOrganization(PayloadEntry(kept[k]))
    {
      assert kept[k] in kept;
    }
  }

  /** Adding an entry and sending at once sends nothing more: the new entry
      has no organisation. */
  lemma NewEntryNotSent(entries: seq<Entry>)
    ensures AccessPayload(Add(entries)) == AccessPayload(entries)
  {
    assert Add(entries)[..|entries|] == entries;
  }
}
