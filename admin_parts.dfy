/** The admin parts screen: how its five filter selections become the
    query string of `GET /api/admin/parts`, the price-type badge, and the
    one-line summary of the organisations a part is shared with. */
module AdminParts {
  import opened Text
  import opened Wrappers
  import opened Collections
  import opened Catalog
  import AdminList

  /** The screen's filter state: the search box and four selects. */
  datatype Filters = Filters(search: string, organization: string, priceType: string, manufacturer: string, partType: string)

  /** The value a select holds for "All". */
  const All := "__all__"

  const NoFilters := Filters("", "", "", "", "")

  /** `v === '__all__' ? '' : v`. */
  function Choice(v: string): (r: string)
    ensures r == "" <==> v == "" || v == All
    ensures r != "" ==> r == v
  {
    if v == All then "" else v
  }

  /** The filters a search is run with (`handleSearch` and the debounced
      search): the search trimmed, "All" read as no filter. */
  function Normalize(f: Filters): (r: Filters)
    ensures r.search == Trim(f.search)
  {
    Filters(Trim(f.search), Choice(f.organization), Choice(f.priceType), Choice(f.manufacturer), Choice(f.partType))
  }

  predicate HasAnyFilter(f: Filters) {
    f.search != "" || f.organization != "" || f.priceType != "" || f.manufacturer != "" || f.partType != ""
  }

  /** The debounced search: `loadParts({})` when no filter is set,
      otherwise `loadParts(filters)`. */
  function DebouncedFilters(f: Filters): Filters {
    var n := Normalize(f);
    if HasAnyFilter(n) then n else NoFilters
  }

  /** The refresh after a delete: the search is trimmed but the selects
      are passed as they are, "All" included. */
  function DeleteRefreshFilters(f: Filters): Filters {
    Filters(Trim(f.search), f.organization, f.priceType, f.manufacturer, f.partType)
  }

  /** The refresh after a delete run through the same normalisation as a
      search. */
  function NormalizedDeleteRefresh(f: Filters): Filters {
    Normalize(DeleteRefreshFilters(f))
  }

  function Param(key: string, value: string): seq<(string, string)> {
    if value == "" then [] else [(key, value)]
  }

  /** The `URLSearchParams` `loadParts` builds, in the order it sets them. */
  function Params(f: Filters): (r: seq<(string, string)>)
    ensures forall k :: 0 <= k < |r| ==> r[k].1 != ""
  {
    Param("search", f.search) + (Param("organization", f.organization) + (Param("priceType", f.priceType)
    + (Param("manufacturer", f.manufacturer) + Param("partType", f.partType))))
  }

  /** `searchParams.get(key)`, with a missing key read as ''. */
  function Lookup(params: seq<(string, string)>, key: string): string {
    if |params| == 0 then ""
    else if params[0].0 == key then params[0].1
    else Lookup(params[1..], key)
  }

  /** The listing query the endpoint reads from the request: it reads only
      `search` and `priceType` of what the screen sends. */
  function RequestQuery(params: seq<(string, string)>): AdminList.Query {
    AdminList.Query(Lookup(params, "search"), Lookup(params, "priceType"), "", None, None)
  }

  /** `getPriceTypeLabel`. */
  function PriceTypeLabel(t: string): string {
    if t == "fixed" then "Fixed Price"
    else if t == "non_fixed" then "Non-Fixed Price"
    else t
  }

  /** `getPriceTypeColor`. */
  function PriceTypeColor(t: string): string {
    if t == "fixed" then "bg-green-100 text-green-800"
    else if t == "non_fixed" then "bg-blue-100 text-blue-800"
    else "bg-gray-100 text-gray-800"
  }

  function AppNames(apps: seq<AdminList.AppRef>): seq<string> {
    seq(|apps|, i requires 0 <= i < |apps| => apps[i].name)
  }

  /** One organisation in the summary: its name, and its applications'
      names in parentheses when it has any. */
  function OrgLabel(o: AdminList.OrgAccess): string {
    o.name + if |o.applications| > 0 then " (" + Join(AppNames(o.applications), ", ") + ")" else ""
  }

  /** The "Organizations:" line of a part. */
  function OrgSummary(orgs: seq<AdminList.OrgAccess>): string {
    Join(seq(|orgs|, i requires 0 <= i < |orgs| => OrgLabel(orgs[i])), ", ")
  }

  // Properties

  /** Normalising twice changes nothing. */
  lemma NormalizeIdempotent(f: Filters)
    ensures Normalize(Normalize(f)) == Normalize(f)
  {
    TrimIdempotent(f.search);
    ChoiceIdempotent(f.organization);
    ChoiceIdempotent(f.priceType);
    ChoiceIdempotent(f.manufacturer);
    ChoiceIdempotent(f.partType);
  }

  lemma ChoiceIdempotent(v: string)
    ensures Choice(Choice(v)) == Choice(v)
  {
    assert "" != All;
  }

  /** After normalisation no select holds "All". */
  lemma NormalizeClearsAll(f: Filters)
    ensures var n := Normalize(f);
      n.organization != All && n.priceType != All && n.manufacturer != All && n.partType != All
  {
  }

  /** No filter is set exactly when the search is blank and every select
      is empty or "All". */
  lemma NoFilterIff(f: Filters)
    ensures !HasAnyFilter(Normalize(f)) <==>
      && Trim(f.search) == ""
      && (f.organization == "" || f.organization == All)
      && (f.priceType == "" || f.priceType == All)
      && (f.manufacturer == "" || f.manufacturer == All)
      && (f.partType == "" || f.partType == All)
  {
  }

  /** Whether or not a filter is set, the debounced search sends the same
      query string as `handleSearch`. */
  lemma DebouncedSameAsSearch(f: Filters)
    ensures Params(DebouncedFilters(f)) == Params(Normalize(f))
  {
  }

  /** A key is in the query string exactly when its filter is non-empty,
      with the filter as its value. */
  lemma ParamsExact(f: Filters)
    ensures Lookup(Params(f), "search") == f.search
    ensures Lookup(Params(f), "organization") == f.organization
    ensures Lookup(Params(f), "priceType") == f.priceType
    ensures Lookup(Params(f), "manufacturer") == f.manufacturer
    ensures Lookup(Params(f), "partType") == f.partType
  {
    var tail := Param("partType", f.partType);
    var fromManufacturer := Param("manufacturer", f.manufacturer) + tail;
    var fromPrice := Param("priceType", f.priceType) + fromManufacturer;
    var fromOrganization := Param("organization", f.organization) + fromPrice;
    var keys := ["search", "organization", "priceType", "manufacturer", "partType"];
    forall key | key in keys
      ensures Lookup(Params(f), key) == if key == "search" then f.search
        else if key == "organization" then f.organization
        else if key == "priceType" then f.priceType
        else if key == "manufacturer" then f.manufacturer
        else f.partType
    {
      LookupParam("partType", f.partType, [], key);
      assert tail + [] == tail;
      LookupParam("manufacturer", f.manufacturer, tail, key);
      LookupParam("priceType", f.priceType, fromManufacturer, key);
      LookupParam("organization", f.organization, fromPrice, key);
      LookupParam("search", f.search, fromOrganization, key);
    }
    assert "search" in keys && "organization" in keys && "priceType" in keys;
    assert "manufacturer" in keys && "partType" in keys;
  }

  /** Looking a key up past one parameter. */
  lemma LookupParam(k: string, v: string, rest: seq<(string, string)>, key: string)
    ensures Lookup(Param(k, v) + rest, key) == if v != "" && k == key then v else Lookup(rest, key)
  {
    if v == "" {
      assert Param(k, v) + rest == rest;
    } else {
      assert (Param(k, v) + rest)[1..] == rest;
    }
  }

  /** Known price types get their own label and colour; any other value is
      shown as it is, in grey. */
  lemma LabelAndColorAgree(t: string)
    ensures PriceTypeColor(t) == "bg-gray-100 text-gray-800" <==> PriceTypeLabel(t) == t
  {
  }

  /** The summary names every organisation, and every application of it. */
  lemma SummaryNamesEach(orgs: seq<AdminList.OrgAccess>, i: nat)
    requires i < |orgs|
    ensures Contains(OrgSummary(orgs), orgs[i].name)
    ensures forall a :: 0 <= a < |orgs[i].applications| ==> Contains(OrgSummary(orgs), orgs[i].applications[a].name)
  {
    var labels := seq(|orgs|, k requires 0 <= k < |orgs| => OrgLabel(orgs[k]));
    JoinContainsEach(labels, ", ", i);
    var o := orgs[i];
    assert labels[i] == OrgLabel(o);
    if |o.applications| > 0 {
      var names := Join(AppNames(o.applications), ", ");
      assert OrgLabel(o) == o.name + " (" + names + ")";
      ContainsInfix("", o.name, " (" + names + ")");
      assert "" + o.name + (" (" + names + ")") == OrgLabel(o);
      forall a | 0 <= a < |o.applications|
        ensures Contains(OrgSummary(orgs), o.applications[a].name)
      {
        JoinContainsEach(AppNames(o.applications), ", ", a);
        ContainsInfix(o.name + " (", names, ")");
        assert o.name + " (" + names + ")" == OrgLabel(o);
        ContainsTransitive(OrgLabel(o), names, o.applications[a].name);
        ContainsTransitive(OrgSummary(orgs), OrgLabel(o), o.applications[a].name);
      }
    } else {
      ContainsInfix("", o.name, "");
      assert "" + o.name + "" == OrgLabel(o);
    }
    ContainsTransitive(OrgSummary(orgs), OrgLabel(o), o.name);
  }

  /** An organisation without applications is shown by its name alone. */
  lemma PlainOrganizationLabel(o: AdminList.OrgAccess)
    requires |o.applications| == 0
    ensures OrgLabel(o) == o.name
  {
  }

  /** With "All" selected for the price type, the refresh after a delete
      asks for parts whose price type is literally '__all__', so a table
      of 'fixed' and 'non_fixed' parts comes back empty. */
  lemma DeleteRefreshSendsAll(f: Filters, parts: seq<PartView>)
    requires f.priceType == All
    requires forall k :: 0 <= k < |parts| ==> parts[k].priceType != Some(All)
    ensures RequestQuery(Params(DeleteRefreshFilters(f))).priceType == All
    ensures AdminList.Filter(parts, RequestQuery(Params(DeleteRefreshFilters(f)))) == []
  {
    var q := RequestQuery(Params(DeleteRefreshFilters(f)));
    ParamsExact(DeleteRefreshFilters(f));
    AdminList.FilterMembers(parts, q);
    NoMembersEmpty(AdminList.Filter(parts, q));
  }

  /** Normalised, the refresh sends what a search with the same selections
      sends, so "All" adds no price condition. */
  lemma NormalizedRefreshIsSearch(f: Filters, parts: seq<PartView>)
    requires f.priceType == All
    ensures Params(NormalizedDeleteRefresh(f)) == Params(Normalize(f))
    ensures RequestQuery(Params(NormalizedDeleteRefresh(f))).priceType == ""
  {
    TrimIdempotent(f.search);
    ParamsExact(NormalizedDeleteRefresh(f));
  }
}
