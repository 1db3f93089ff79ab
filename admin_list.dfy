/** The admin parts listing (`GET /api/admin/parts`): the filters the query
    applies (an OR search over four columns, a price-type equality, three
    stock buckets), the page window, and for every listed part the grouping
    of its organisation-details rows and application rows into one entry
    per organisation. */
module AdminList {
  import opened Text
  import opened Wrappers
  import opened Catalog
  import opened Collections

  // ---------------------------------------------------------------------
  // Grouping access rows by organisation.

  /** The joined `organizations (id, name)` of a details row. */
  datatype OrgRef = OrgRef(id: string, name: string)

  /** A row of `part_organization_details` as the listing selects it;
      `organization` is `None` when the join found no organisation. */
  datatype AccessRow = AccessRow(
    partId: nat,
    organizationId: string,
    itemNumber: Cell,
    leadTimeDays: Cell,
    priceType: Cell,
    unitPrice: Cell,
    isRepairable: bool,
    repairPrice: Cell,
    organization: Option<OrgRef>)

  datatype AppRef = AppRef(id: string, name: string)

  /** A row of `part_applications` with its joined application, if any. */
  datatype AppRow = AppRow(partId: nat, organizationId: string, application: Option<AppRef>)

  /** One organisation's entry in a listed part's `organizations`. */
  datatype OrgAccess = OrgAccess(
    id: string,
    name: string,
    itemNumber: Cell,
    leadTimeDays: Cell,
    priceType: Cell,
    unitPrice: Cell,
    isRepairable: bool,
    repairPrice: Cell,
    applications: seq<AppRef>)

  function OrgIds(rows: seq<AccessRow>): (r: seq<string>)
    ensures |r| == |rows| && forall i :: 0 <= i < |rows| ==> r[i] == rows[i].organizationId
  {
    seq(|rows|, i requires 0 <= i < |rows| => rows[i].organizationId)
  }

  /** The entry the `reduce` creates from the first row of an organisation. */
  function NewEntry(r: AccessRow): OrgAccess
    requires r.organization.Some?
  {
    OrgAccess(r.organization.value.id, r.organization.value.name, r.itemNumber, r.leadTimeDays,
              r.priceType, r.unitPrice, r.isRepairable, r.repairPrice, [])
  }

  /** Every organisation's first row carries its joined organisation (the
      `reduce` reads `access.organizations.id` there and throws otherwise). */
  predicate FirstRowsJoined(rows: seq<AccessRow>) {
    forall i :: 0 <= i < |rows| && rows[i].organizationId !in OrgIds(rows)[..i] ==> rows[i].organization.Some?
  }

  /** The applications of `apps` that belong to organisation `org`, in order. */
  function AppsOf(apps: seq<AppRow>, org: string): seq<AppRef> {
    if |apps| == 0 then []
    else
      var a := apps[|apps| - 1];
      AppsOf(apps[..|apps| - 1], org) + if a.organizationId == org && a.application.Some? then [a.application.value] else []
  }

  /** The grouping, stated on its own: one entry per distinct organisation
      id in first-appearance order, its fields taken from that
      organisation's first row, its applications those of the application
      rows naming it. `None` is the exception thrown for a first row without
      its joined organisation. */
  function GroupSpec(rows: seq<AccessRow>, apps: seq<AppRow>): Option<seq<OrgAccess>> {
    if !FirstRowsJoined(rows) then None
    else
      var ids := OrgIds(rows);
      var keys := Dedupe(ids);
      Some(seq(|keys|, k requires 0 <= k < |keys| =>
        NewEntry(rows[FirstIndex(ids, keys[k])]).(applications := AppsOf(apps, keys[k]))))
  }

  /** The entries of an organisation-keyed object: one per key, built
      from the key's first row, with its applications among `apps`. */
  ghost predicate Entries(rows: seq<AccessRow>, apps: seq<AppRow>, acc: map<string, OrgAccess>) {
    forall o :: o in acc ==> o in OrgIds(rows) && rows[FirstIndex(OrgIds(rows), o)].organization.Some?
                             && acc[o] == NewEntry(rows[FirstIndex(OrgIds(rows), o)]).(applications := AppsOf(apps, o))
  }

  /** What the `reduce` has built after the first `i` rows. */
  ghost predicate Indexed(rows: seq<AccessRow>, i: nat, acc: map<string, OrgAccess>, keys: seq<string>)
    requires i <= |rows|
  {
    && keys == Dedupe(OrgIds(rows)[..i])
    && (forall o :: o in acc <==> o in keys)
    && Entries(rows, [], acc)
    && forall j :: 0 <= j < i && rows[j].organizationId !in OrgIds(rows)[..j] ==> rows[j].organization.Some?
  }

  /** A row of an organisation already seen changes nothing. */
  lemma IndexSeen(rows: seq<AccessRow>, i: nat, acc: map<string, OrgAccess>, keys: seq<string>)
    requires i < |rows| && Indexed(rows, i, acc, keys) && rows[i].organizationId in acc
    ensures Indexed(rows, i + 1, acc, keys)
  {
    var ids := OrgIds(rows);
    DedupeSnoc(ids, i);
    assert ids[..i + 1][..i] == ids[..i];
  }

  /** Adding the entry built from an organisation's first row keeps every
      entry built from its organisation's first row. */
  lemma EntriesAdd(rows: seq<AccessRow>, acc: map<string, OrgAccess>, i: nat)
    requires i < |rows| && Entries(rows, [], acc)
    requires rows[i].organization.Some? && FirstIndex(OrgIds(rows), rows[i].organizationId) == i
    ensures Entries(rows, [], acc[rows[i].organizationId := NewEntry(rows[i])])
  {
    var ids := OrgIds(rows);
    assert ids[i] == rows[i].organizationId;
  }

  /** The first row of an organisation adds its entry and its key. */
  lemma IndexNew(rows: seq<AccessRow>, i: nat, acc: map<string, OrgAccess>, keys: seq<string>)
    requires i < |rows| && Indexed(rows, i, acc, keys)
    requires rows[i].organizationId !in acc && rows[i].organization.Some?
    ensures Indexed(rows, i + 1, acc[rows[i].organizationId := NewEntry(rows[i])], keys + [rows[i].organizationId])
  {
    var ids := OrgIds(rows);
    var o := ids[i];
    assert o == rows[i].organizationId;
    assert o !in keys;
    DedupeSnoc(ids, i);
    assert Dedupe(ids[..i + 1]) == keys + [o];
    var acc' := acc[o := NewEntry(rows[i])];
    assert forall x :: x in acc' <==> x in keys + [o];
    DedupeMembers(ids[..i], o);
    assert o !in ids[..i];
    FirstIndexAt(ids, i);
    EntriesAdd(rows, acc, i);
    assert ids[..i + 1][..i] == ids[..i];
    forall j | 0 <= j < i + 1 && rows[j].organizationId !in ids[..i + 1][..j]
      ensures rows[j].organization.Some?
    {
      if j < i {
        assert ids[..i + 1][..j] == ids[..j];
      }
    }
  }

  lemma DedupeMembers(xs: seq<string>, x: string)
    ensures x in Dedupe(xs) <==> x in xs
  {
  }

  /** The `reduce` into an object keyed by organisation id; `ok` is false
      when it throws. */
  method IndexFirstRows(rows: seq<AccessRow>) returns (acc: map<string, OrgAccess>, keys: seq<string>, ok: bool)
    ensures ok <==> FirstRowsJoined(rows)
    ensures ok ==> keys == Dedupe(OrgIds(rows)) && (forall o :: o in acc <==> o in keys) && Entries(rows, [], acc)
  {
    acc, keys := map[], [];
    for i := 0 to |rows|
      invariant Indexed(rows, i, acc, keys)
    {
      var orgId := rows[i].organizationId;
      if orgId !in acc && rows[i].organization.None? {
        assert rows[i].organizationId !in OrgIds(rows)[..i];
        return acc, keys, false;
      }
      if orgId in acc {
        IndexSeen(rows, i, acc, keys);
      } else {
        IndexNew(rows, i, acc, keys);
        acc := acc[orgId := NewEntry(rows[i])];
        keys := keys + [orgId];
      }
    }
    assert OrgIds(rows)[..|rows|] == OrgIds(rows);
    ok := true;
  }

  lemma AttachStep(rows: seq<AccessRow>, apps: seq<AppRow>, j: nat, acc: map<string, OrgAccess>)
    requires j < |apps| && Entries(rows, apps[..j], acc)
    ensures var a := apps[j];
            Entries(rows, apps[..j + 1],
                    if a.organizationId in acc && a.application.Some?
                    then acc[a.organizationId := acc[a.organizationId].(applications := acc[a.organizationId].applications + [a.application.value])]
                    else acc)
  {
    assert apps[..j + 1][..j] == apps[..j];
  }

  /** The `forEach` that pushes each application onto the entry of its
      organisation when that entry exists. */
  method AttachApplications(rows: seq<AccessRow>, apps: seq<AppRow>, acc0: map<string, OrgAccess>)
    returns (acc: map<string, OrgAccess>)
    requires Entries(rows, [], acc0)
    ensures acc.Keys == acc0.Keys && Entries(rows, apps, acc)
  {
    acc := acc0;
    assert apps[..0] == [];
    for j := 0 to |apps|
      invariant acc.Keys == acc0.Keys && Entries(rows, apps[..j], acc)
    {
      AttachStep(rows, apps, j, acc);
      var a := apps[j];
      if a.organizationId in acc && a.application.Some? {
        var e := acc[a.organizationId];
        acc := acc[a.organizationId := e.(applications := e.applications + [a.application.value])];
      }
    }
    assert apps[..|apps|] == apps;
  }

  /** `Object.values`, in insertion order (the ids are not integer-like). */
  method Values(acc: map<string, OrgAccess>, keys: seq<string>) returns (out: seq<OrgAccess>)
    requires forall o :: o in keys ==> o in acc
    ensures |out| == |keys| && forall m :: 0 <= m < |keys| ==> out[m] == acc[keys[m]]
  {
    out := [];
    for k := 0 to |keys|
      invariant |out| == k && forall m :: 0 <= m < k ==> out[m] == acc[keys[m]]
    {
      out := out + [acc[keys[k]]];
    }
  }

  /** The grouping of one part's rows, proved to be `GroupSpec`. */
  method GroupByOrganization(rows: seq<AccessRow>, apps: seq<AppRow>) returns (r: Option<seq<OrgAccess>>)
    ensures r == GroupSpec(rows, apps)
  {
    var acc, keys, ok := IndexFirstRows(rows);
    if !ok {
      return None;
    }
    acc := AttachApplications(rows, apps, acc);
    var out := Values(acc, keys);
    ghost var ids := OrgIds(rows);
    ghost var spec := GroupSpec(rows, apps).value;
    assert |spec| == |keys|;
    forall k | 0 <= k < |keys|
      ensures out[k] == spec[k]
    {
      assert out[k] == NewEntry(rows[FirstIndex(ids, keys[k])]).(applications := AppsOf(apps, keys[k]));
    }
    assert out == spec;
    return Some(out);
  }

  /** The grouping yields one entry per distinct organisation, in the
      order the organisations first appear, and each entry's fields come
      from that organisation's first row. */
  lemma GroupedByFirstRow(rows: seq<AccessRow>, apps: seq<AppRow>)
    requires GroupSpec(rows, apps).Some?
    ensures var es := GroupSpec(rows, apps).value;
            var keys := Dedupe(OrgIds(rows));
            |es| == |keys| && NoDuplicates(keys)
            && (forall o :: o in keys <==> exists i :: 0 <= i < |rows| && rows[i].organizationId == o)
            && (forall a, b :: 0 <= a < b < |keys| ==> FirstIndex(OrgIds(rows), keys[a]) < FirstIndex(OrgIds(rows), keys[b]))
            && forall k :: 0 <= k < |keys| ==>
                 var first := rows[FirstIndex(OrgIds(rows), keys[k])];
                 first.organizationId == keys[k] && first.organization.Some?
                 && es[k] == NewEntry(first).(applications := es[k].applications)
  {
    var ids := OrgIds(rows);
    DedupeNoDuplicates(ids);
    DedupeFirstAppearanceOrder(ids);
    forall o
      ensures o in Dedupe(ids) <==> exists i :: 0 <= i < |rows| && rows[i].organizationId == o
    {
      if o in ids {
        var i := FirstIndex(ids, o);
        assert rows[i].organizationId == o;
      }
    }
  }

  /** When every joined organisation id equals the row's organisation id,
      no organisation is listed twice. */
  lemma GroupIdsDistinct(rows: seq<AccessRow>, apps: seq<AppRow>)
    requires GroupSpec(rows, apps).Some?
    requires forall i :: 0 <= i < |rows| && rows[i].organization.Some? ==> rows[i].organization.value.id == rows[i].organizationId
    ensures var es := GroupSpec(rows, apps).value;
            forall a, b :: 0 <= a < b < |es| ==> es[a].id != es[b].id
  {
    DedupeNoDuplicates(OrgIds(rows));
  }

  lemma {:induction false} AppsOfMembers(apps: seq<AppRow>, org: string, x: AppRef)
    ensures x in AppsOf(apps, org) <==> exists j :: 0 <= j < |apps| && apps[j] == AppRow(apps[j].partId, org, Some(x))
  {
    if |apps| > 0 {
      var p := apps[..|apps| - 1];
      AppsOfMembers(p, org, x);
      if x in AppsOf(p, org) {
        var j :| 0 <= j < |p| && p[j] == AppRow(p[j].partId, org, Some(x));
        assert apps[j] == p[j];
      }
      if exists j :: 0 <= j < |apps| && apps[j] == AppRow(apps[j].partId, org, Some(x)) {
        var j :| 0 <= j < |apps| && apps[j] == AppRow(apps[j].partId, org, Some(x));
        if j < |apps| - 1 {
          assert p[j] == apps[j];
        }
      }
    }
  }

  /** An entry's applications are exactly the applications of the rows
      naming its organisation; application rows of an organisation that has
      no details row appear nowhere. */
  lemma GroupApplications(rows: seq<AccessRow>, apps: seq<AppRow>, k: nat, x: AppRef)
    requires GroupSpec(rows, apps).Some? && k < |GroupSpec(rows, apps).value|
    ensures var o := Dedupe(OrgIds(rows))[k];
            x in GroupSpec(rows, apps).value[k].applications
            <==> exists j :: 0 <= j < |apps| && apps[j] == AppRow(apps[j].partId, o, Some(x))
  {
    AppsOfMembers(apps, Dedupe(OrgIds(rows))[k], x);
  }

  /** Application rows whose organisation has no details row for the part
      are dropped. */
  lemma OrphanApplicationsDropped(rows: seq<AccessRow>, apps: seq<AppRow>, j: nat)
    requires GroupSpec(rows, apps).Some? && j < |apps| && apps[j].application.Some?
    requires forall i :: 0 <= i < |rows| ==> rows[i].organizationId != apps[j].organizationId
    ensures forall k :: 0 <= k < |GroupSpec(rows, apps).value| ==>
              Dedupe(OrgIds(rows))[k] != apps[j].organizationId
  {
    var ids := OrgIds(rows);
    forall k | 0 <= k < |Dedupe(ids)|
      ensures Dedupe(ids)[k] != apps[j].organizationId
    {
      assert Dedupe(ids)[k] in ids;
    }
  }

  // ---------------------------------------------------------------------
  // Filters, order and page.

  /** The query parameters. An empty string is a parameter that is absent
      or empty; `page` and `limit` are the numbers the parameters read as,
      `None` when absent or empty. */
  datatype Query = Query(search: string, priceType: string, stockStatus: string, page: Option<int>, limit: Option<int>)

  predicate SearchMatches(p: PartView, term: string) {
    ILike(p.name, term) || ILike(p.manufacturerPartNumber, term)
    || ILike(p.clientPartNumber, term) || ILike(p.description, term)
  }

  /** The `stockStatus` switch: an unknown status adds no condition. */
  predicate StockMatches(status: string, q: Option<int>) {
    if status == "out_of_stock" then q == Some(0)
    else if status == "low_stock" then q.Some? && 1 <= q.value <= 5
    else if status == "in_stock" then q.Some? && q.value > 5
    else true
  }

  predicate Selected(p: PartView, q: Query) {
    && (q.search != "" ==> SearchMatches(p, q.search))
    && (q.priceType != "" ==> p.priceType == Some(q.priceType))
    && StockMatches(q.stockStatus, p.stockQuantity)
  }

  /** The parts the query's filters let through, in table order. */
  function Filter(parts: seq<PartView>, q: Query): (r: seq<PartView>)
    ensures |r| <= |parts|
  {
    Keep(parts, Selector(q))
  }

  function Selector(q: Query): PartView -> bool {
    p => Selected(p, q)
  }

  /** Newest first. */
  predicate UpdatedDesc(parts: seq<PartView>) {
    forall i, j :: 0 <= i < j < |parts| ==> parts[i].updatedAt >= parts[j].updatedAt
  }

  function PageNumber(q: Query): int { if q.page.Some? then q.page.value else 1 }

  function PageLimit(q: Query): int { if q.limit.Some? then q.limit.value else 50 }

  /** `from = (page - 1) * limit`, `to = from + limit - 1`. */
  function From(page: int, limit: int): int { (page - 1) * limit }

  function To(page: int, limit: int): int { From(page, limit) + limit - 1 }

  /** `.range(from, to)`: the rows `from..to` inclusive that exist. */
  function Window<T>(xs: seq<T>, from: nat, to: int): (r: seq<T>)
    requires to >= from - 1
    ensures |r| <= to - from + 1
  {
    var lo := if from < |xs| then from else |xs|;
    var hi := if to + 1 < |xs| then to + 1 else |xs|;
    xs[lo..if hi < lo then lo else hi]
  }

  /** The range of a page spans exactly `limit` rows and the next page
      starts right after it. */
  lemma PageArithmetic(page: int, limit: int)
    requires page >= 1 && limit >= 1
    ensures From(page, limit) >= 0 && To(page, limit) - From(page, limit) + 1 == limit
    ensures From(page + 1, limit) == To(page, limit) + 1
    ensures From(1, limit) == 0
  {
  }

  function PageOf<T>(xs: seq<T>, page: nat, limit: nat): seq<T>
    requires page >= 1 && limit >= 1
  {
    PageArithmetic(page, limit);
    Window(xs, From(page, limit), To(page, limit))
  }

  /** Pages `1..k` read in turn list the first `k * limit` rows with no
      row skipped or repeated. */
  function PagesUpTo<T>(xs: seq<T>, limit: nat, k: nat): seq<T>
    requires limit >= 1
  {
    if k == 0 then [] else PagesUpTo(xs, limit, k - 1) + PageOf(xs, k, limit)
  }

  lemma {:induction false} PagesTile<T>(xs: seq<T>, limit: nat, k: nat)
    requires limit >= 1
    ensures PagesUpTo(xs, limit, k) == xs[..if k * limit < |xs| then k * limit else |xs|]
  {
    if k > 0 {
      PagesTile(xs, limit, k - 1);
      assert From(k, limit) == (k - 1) * limit;
      assert To(k, limit) + 1 == k * limit;
      var a := (k - 1) * limit;
      var lo := if a < |xs| then a else |xs|;
      var hi := if k * limit < |xs| then k * limit else |xs|;
      assert lo <= hi;
      assert xs[..lo] + xs[lo..hi] == xs[..hi];
    }
  }

  // ---------------------------------------------------------------------
  // The whole listing.

  /** Read failures: the parts query, and the per-part details and
      application reads (a failed one reads as no rows). */
  datatype ListReads = ListReads(partsFail: bool, accessFail: set<nat>, appsFail: set<nat>)

  datatype ListedPart = ListedPart(part: PartView, organizations: seq<OrgAccess>)

  datatype ListResponse =
    | Listed(parts: seq<ListedPart>, page: int, limit: int, total: nat)
    | Failed(status: nat, error: string)

  function AccessFor(details: seq<AccessRow>, id: nat): seq<AccessRow> {
    if |details| == 0 then []
    else
      AccessFor(details[..|details| - 1], id)
      + if details[|details| - 1].partId == id then [details[|details| - 1]] else []
  }

  function AppsFor(links: seq<AppRow>, id: nat): seq<AppRow> {
    if |links| == 0 then []
    else AppsFor(links[..|links| - 1], id) + if links[|links| - 1].partId == id then [links[|links| - 1]] else []
  }

  /** The grouping for one listed part. */
  function GroupFor(p: PartView, details: seq<AccessRow>, links: seq<AppRow>, fails: ListReads): Option<seq<OrgAccess>> {
    GroupSpec(if p.id in fails.accessFail then [] else AccessFor(details, p.id),
              if p.id in fails.appsFail then [] else AppsFor(links, p.id))
  }

  /** `GET`. `parts` is the parts table newest first. A limit of zero
      asks for a range of no rows (offset 0, whatever the page), which
      lists nothing; a page below one or a negative limit gives a negative
      offset or row count, which the store refuses. */
  function ListSpec(parts: seq<PartView>, details: seq<AccessRow>, links: seq<AppRow>, q: Query, fails: ListReads): ListResponse
    requires PlainTerm(q.search)
  {
    var page := PageNumber(q);
    var limit := PageLimit(q);
    if fails.partsFail then Failed(500, "Failed to fetch parts")
    else if limit == 0 then Listed([], page, 0, 0)
    else if page < 1 || limit < 1 then Failed(500, "Failed to fetch parts")
    else
      var shown := PageOf(Filter(parts, q), page, limit);
      if exists i :: 0 <= i < |shown| && GroupFor(shown[i], details, links, fails).None? then
        Failed(500, "Internal server error")
      else
        Listed(seq(|shown|, i requires 0 <= i < |shown| => ListedPart(shown[i], GroupFor(shown[i], details, links, fails).value)),
               page, limit, |shown|)
  }

  lemma FilterMembers(parts: seq<PartView>, q: Query)
    ensures forall p :: p in Filter(parts, q) <==> p in parts && Selected(p, q)
  {
    KeepMembers(parts, Selector(q));
  }

  lemma FilterKeepsOrder(parts: seq<PartView>, q: Query)
    requires UpdatedDesc(parts)
    ensures UpdatedDesc(Filter(parts, q))
  {
    var r := Filter(parts, q);
    forall i, j | 0 <= i < j < |r|
      ensures r[i].updatedAt >= r[j].updatedAt
    {
      KeepKeepsOrder(parts, Selector(q), i, j);
    }
  }

  /** A page holds at most `limit` rows, all taken from `xs`, in their
      order there. */
  lemma PageFacts(xs: seq<PartView>, page: nat, limit: nat)
    requires page >= 1 && limit >= 1 && UpdatedDesc(xs)
    ensures var w := PageOf(xs, page, limit);
            |w| <= limit && (forall x :: x in w ==> x in xs) && UpdatedDesc(w)
  {
    PageArithmetic(page, limit);
    var lo := From(page, limit);
    var b := if lo < |xs| then lo else |xs|;
    var w := PageOf(xs, page, limit);
    assert forall k :: 0 <= k < |w| ==> w[k] == xs[b + k];
  }

  /** A listed page: `total` is the number of parts on this page (not a
      global count), there are at most `limit` of them, each satisfies every
      filter, and they come newest first. */
  lemma ListedPage(parts: seq<PartView>, details: seq<AccessRow>, links: seq<AppRow>, q: Query, fails: ListReads)
    requires PlainTerm(q.search) && UpdatedDesc(parts)
    requires ListSpec(parts, details, links, q, fails).Listed?
    ensures var r := ListSpec(parts, details, links, q, fails);
            r.total == |r.parts| <= r.limit
            && r.page == PageNumber(q) && r.limit == PageLimit(q)
            && (forall i :: 0 <= i < |r.parts| ==> r.parts[i].part in parts && Selected(r.parts[i].part, q))
            && (forall i, j :: 0 <= i < j < |r.parts| ==> r.parts[i].part.updatedAt >= r.parts[j].part.updatedAt)
    ensures var r := ListSpec(parts, details, links, q, fails);
            PageNumber(q) >= 1 && PageLimit(q) >= 1 ==>
              var w := PageOf(Filter(parts, q), PageNumber(q), PageLimit(q));
              |r.parts| == |w|
              && forall i :: 0 <= i < |w| ==>
                   r.parts[i].part == w[i] && GroupFor(w[i], details, links, fails) == Some(r.parts[i].organizations)
  {
    if PageLimit(q) != 0 {
      var f := Filter(parts, q);
      FilterMembers(parts, q);
      FilterKeepsOrder(parts, q);
      PageFacts(f, PageNumber(q), PageLimit(q));
    }
  }

  /** With a valid window and the parts read, the listing fails only when
      grouping one of the shown parts throws, and then with a 500. */
  lemma ListedUnlessGroupingThrows(parts: seq<PartView>, details: seq<AccessRow>, links: seq<AppRow>, q: Query, fails: ListReads)
    requires PlainTerm(q.search) && !fails.partsFail && PageNumber(q) >= 1 && PageLimit(q) >= 1
    ensures var w := PageOf(Filter(parts, q), PageNumber(q), PageLimit(q));
            var r := ListSpec(parts, details, links, q, fails);
            && (r.Listed? <==> forall i :: 0 <= i < |w| ==> GroupFor(w[i], details, links, fails).Some?)
            && (!r.Listed? ==> r == Failed(500, "Internal server error"))
  {
  }

  /** `?limit=0` lists no part, on any page, and reports a total of zero. */
  lemma ZeroLimitListsNothing(parts: seq<PartView>, details: seq<AccessRow>, links: seq<AppRow>, q: Query, fails: ListReads)
    requires PlainTerm(q.search) && q.limit == Some(0) && !fails.partsFail
    ensures ListSpec(parts, details, links, q, fails) == Listed([], PageNumber(q), 0, 0)
  {
  }

  /** Without `page` and `limit` the listing is the first 50 parts that
      match the filters, newest first as the table is. */
  lemma DefaultPage(parts: seq<PartView>, details: seq<AccessRow>, links: seq<AppRow>, q: Query, fails: ListReads)
    requires PlainTerm(q.search) && q.page.None? && q.limit.None?
    requires ListSpec(parts, details, links, q, fails).Listed?
    ensures var r := ListSpec(parts, details, links, q, fails);
            var f := Filter(parts, q);
            && r.page == 1 && r.limit == 50
            && |r.parts| == (if 50 < |f| then 50 else |f|)
            && forall i :: 0 <= i < |r.parts| ==> r.parts[i].part == f[i]
  {
    var f := Filter(parts, q);
    var w := PageOf(f, 1, 50);
    assert w == f[..if 50 < |f| then 50 else |f|];
  }

  /** The three buckets do not overlap and cover every quantity that is
      not negative. */
  lemma StockBucketsPartition(n: int)
    requires n >= 0
    ensures StockMatches("out_of_stock", Some(n)) || StockMatches("low_stock", Some(n)) || StockMatches("in_stock", Some(n))
    ensures !(StockMatches("out_of_stock", Some(n)) && StockMatches("low_stock", Some(n)))
    ensures !(StockMatches("out_of_stock", Some(n)) && StockMatches("in_stock", Some(n)))
    ensures !(StockMatches("low_stock", Some(n)) && StockMatches("in_stock", Some(n)))
  {
  }

  /** A part with no stock quantity is in no bucket. */
  lemma NullStockInNoBucket()
    ensures !StockMatches("out_of_stock", None) && !StockMatches("low_stock", None) && !StockMatches("in_stock", None)
  {
  }

  /** The search ignores the case of the term. */
  lemma SearchIgnoresCase(p: PartView, term: string)
    ensures SearchMatches(p, term) <==> SearchMatches(p, ToLower(term))
  {
    ToLowerIdempotent(term);
  }

  /** A part matches the search when the term occurs in its name. */
  lemma NameInfixMatches(p: PartView, a: string, term: string, b: string)
    requires p.name == Some(a + term + b)
    ensures SearchMatches(p, term)
  {
    var s := a + term + b;
    assert ToLower(s) == ToLower(a) + ToLower(term) + ToLower(b) by {
      ToLowerConcat(a, term);
      ToLowerConcat(a + term, b);
    }
    ContainsInfix(ToLower(a), ToLower(term), ToLower(b));
  }

  lemma ToLowerConcat(a: string, b: string)
    ensures ToLower(a + b) == ToLower(a) + ToLower(b)
  {
    var l := ToLower(a + b);
    var r := ToLower(a) + ToLower(b);
    assert |l| == |r|;
    forall k | 0 <= k < |l|
      ensures l[k] == r[k]
    {
      if k < |a| {
        assert (a + b)[k] == a[k];
      } else {
        assert (a + b)[k] == b[k - |a|];
      }
    }
  }
}
