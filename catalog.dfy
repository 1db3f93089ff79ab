/** The relational tables behind the parts catalogue (`parts`,
    `part_organization_details`, `part_applications`) and a store object
    whose write operations take the database's answer as a parameter, so
    every pattern of write failure can be reasoned about. */
module Catalog {
  import opened Text
  import Js
  import opened Wrappers

  /** A column value. `IntOf(raw)` and `FloatOf(raw)` stand for what
      `parseInt(raw)` and `parseFloat(raw)` produce; number parsing itself is
      not modelled. `Json(v)` is a request value stored as it was sent. */
  datatype Cell =
    | Null
    | Text(s: string)
    | IntOf(raw: string)
    | FloatOf(raw: string)
    | Flag(b: bool)
    | Json(v: Js.JsVal)

  /** A row of the `parts` table (its id is the key it is stored under). */
  datatype PartRow = PartRow(
    manufacturerPartNumber: Cell,
    clientPartNumber: Cell,
    name: Cell,
    description: Cell,
    specifications: Cell,
    machine: Cell,
    assembly: Cell,
    manufacturer: Cell,
    partType: Cell,
    voltage: Cell,
    shaftSize: Cell,
    gearboxRatio: Cell,
    powerRatingHp: Cell,
    powerRatingKw: Cell,
    stockQuantity: Cell,
    leadTimeDays: Cell,
    priceType: Cell,
    unitPrice: Cell,
    repairPrice: Cell,
    isRepairable: bool)

  /** A row of `part_organization_details`: one organisation's terms for a part. */
  datatype DetailsRow = DetailsRow(
    partId: nat,
    organizationId: string,
    itemNumber: Cell,
    leadTimeDays: Cell,
    priceType: Cell,
    unitPrice: Cell,
    isRepairable: bool,
    repairPrice: Cell)

  /** A row of `part_applications`: the part is scoped to an application of
      an organisation. */
  datatype LinkRow = LinkRow(partId: nat, applicationId: string, organizationId: string)

  /** The database's answer to one write. */
  datatype StoreReply = Ok | Fail(message: string)

  /** The columns of a part the listing filters and orders on. */
  datatype PartView = PartView(
    id: nat,
    name: Option<string>,
    manufacturerPartNumber: Option<string>,
    clientPartNumber: Option<string>,
    description: Option<string>,
    priceType: Option<string>,
    stockQuantity: Option<int>,
    updatedAt: int)

  /** A search term with none of the characters the PostgREST filter
      syntax would read as a wildcard or a separator. */
  predicate PlainTerm(term: string) {
    forall k :: 0 <= k < |term| ==> term[k] != '%' && term[k] != '_' && term[k] != ',' && term[k] != ')'
  }

  /** `column.ilike.%term%` on a nullable column. */
  predicate ILike(column: Option<string>, term: string) {
    column.Some? && Contains(ToLower(column.value), ToLower(term))
  }

  /** The mutable tables: parts keyed by id, the two link tables, and the
      next id the database will hand out. */
  datatype Tables = Tables(
    parts: map<nat, PartRow>,
    details: seq<DetailsRow>,
    links: seq<LinkRow>,
    nextId: nat)

  /** Referential integrity: ids already handed out are below `nextId`, and
      every details and application row names an existing part. */
  ghost predicate Valid(t: Tables) {
    && (forall id :: id in t.parts ==> id < t.nextId)
    && (forall k :: 0 <= k < |t.details| ==> t.details[k].partId in t.parts)
    && (forall k :: 0 <= k < |t.links| ==> t.links[k].partId in t.parts)
  }

  /** True when no details or application row names `id`. */
  predicate Unreferenced(t: Tables, id: nat) {
    && (forall k :: 0 <= k < |t.details| ==> t.details[k].partId != id)
    && (forall k :: 0 <= k < |t.links| ==> t.links[k].partId != id)
  }

  /** True when some details row gives organisation `org` access to part `id`. */
  predicate HasDetails(details: seq<DetailsRow>, id: nat, org: string) {
    exists k :: 0 <= k < |details| && details[k].partId == id && details[k].organizationId == org
  }

  /** The database as the admin API routes see it: the mutable tables and
      the read-only `organizations` and `applications` tables. */
  class PartsStore {
    var parts: map<nat, PartRow>
    var details: seq<DetailsRow>
    var links: seq<LinkRow>
    var nextId: nat
    var organizations: set<string>
    var applications: set<(string, string)>  // (application id, organisation id)

    function State(): Tables
      reads this
    {
      Tables(parts, details, links, nextId)
    }

    constructor (organizations: set<string>, applications: set<(string, string)>)
      ensures State() == Tables(map[], [], [], 0) && Valid(State())
      ensures this.organizations == organizations && this.applications == applications
    {
      parts, details, links, nextId := map[], [], [], 0;
      this.organizations, this.applications := organizations, applications;
    }

    /** `insert(...).select().single()` on `parts`: on success the new row is
        stored under a fresh id, which is returned. */
    method InsertPart(p: PartRow, reply: StoreReply) returns (id: nat)
      modifies this`parts, this`nextId
      ensures id == old(nextId)
      ensures reply.Ok? ==> parts == old(parts)[id := p] && nextId == old(nextId) + 1
      ensures reply.Fail? ==> parts == old(parts) && nextId == old(nextId)
    {
      id := nextId;
      if reply.Ok? {
        parts := parts[id := p];
        nextId := nextId + 1;
      }
    }

    /** One `insert` of a batch of details rows: all or nothing. */
    method InsertDetails(rows: seq<DetailsRow>, reply: StoreReply) returns (ok: bool)
      modifies this`details
      ensures ok == reply.Ok?
      ensures details == if ok then old(details) + rows else old(details)
    {
      ok := reply.Ok?;
      if ok {
        details := details + rows;
      }
    }

    /** One `insert` of a batch of application rows: all or nothing. */
    method InsertLinks(rows: seq<LinkRow>, reply: StoreReply) returns (ok: bool)
      modifies this`links
      ensures ok == reply.Ok?
      ensures links == if ok then old(links) + rows else old(links)
    {
      ok := reply.Ok?;
      if ok {
        links := links + rows;
      }
    }

    /** `delete().eq('id', id)` on `parts`. */
    method DeletePart(id: nat, reply: StoreReply)
      modifies this`parts
      ensures parts == if reply.Ok? then old(parts) - {id} else old(parts)
    {
      if reply.Ok? {
        parts := parts - {id};
      }
    }
  }
}
