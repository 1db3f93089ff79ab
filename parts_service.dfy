/** The customer-facing catalogue reads: which parts a user may see, one
    part behind an access check, and the user's applications. A user sees a
    part when a `part_organization_details` row gives the user's
    organisation access to it. */
module PartsService {
  import opened Text
  import opened Wrappers
  import opened Catalog
  import opened Collections

  /** A row of the `applications` table. */
  datatype Application = Application(id: string, organizationId: string, name: string)

  /** What the service reads. `profiles` maps a user id to the user's
      organisation (a profile read that fails is a missing profile);
      `parts` and `applications` are those tables in `name` order. */
  datatype Db = Db(
    profiles: map<string, string>,
    parts: seq<PartView>,
    details: seq<DetailsRow>,
    links: seq<LinkRow>,
    applications: seq<Application>)

  /** The optional filters; an empty string is an absent filter. */
  datatype Filters = Filters(search: string, applicationId: string, priceType: string)

  /** The error a call reports: one of the service's own messages, or the
      store's error passed through. `NotOneRow` is the error `.single()`
      reports when the id matches no row. */
  datatype ServiceError = Message(text: string) | StoreError(detail: string) | NotOneRow

  /** Which reads fail, and with what store error. */
  datatype Reads = Reads(details: Option<string>, links: Option<string>, parts: Option<string>)

  datatype PartsResult = PartsResult(parts: seq<PartView>, error: Option<ServiceError>)

  datatype PartResult = PartResult(part: Option<PartView>, error: Option<ServiceError>)

  datatype AppsResult = AppsResult(applications: seq<Application>, error: Option<ServiceError>)

  const UserNotFound := Message("User not found")
  const AccessDenied := Message("Part not found or access denied")

  function StoreFailure(e: Option<string>): Option<ServiceError>
    requires e.Some?
  {
    Some(StoreError(e.value))
  }

  /** `order('name')`: ascending, with rows without a name last. */
  predicate NameBefore(a: Option<string>, b: Option<string>) {
    b.None? || (a.Some? && LexLe(a.value, b.value))
  }

  predicate PartsByName(parts: seq<PartView>) {
    forall i, j :: 0 <= i < j < |parts| ==> NameBefore(parts[i].name, parts[j].name)
  }

  predicate ApplicationsByName(apps: seq<Application>) {
    forall i, j :: 0 <= i < j < |apps| ==> LexLe(apps[i].name, apps[j].name)
  }

  /** The part id of every details row for `org`, in table order. */
  function OrgPartIds(details: seq<DetailsRow>, org: string): (r: seq<nat>)
    ensures forall id :: id in r <==> HasDetails(details, id, org)
  {
    if |details| == 0 then []
    else
      var init := details[..|details| - 1];
      var last := details[|details| - 1];
      var r := OrgPartIds(init, org) + if last.organizationId == org then [last.partId] else [];
      assert forall id :: HasDetails(details, id, org) <==> HasDetails(init, id, org) || (last.partId == id && last.organizationId == org) by {
        forall id | HasDetails(details, id, org) && !(last.partId == id && last.organizationId == org)
          ensures HasDetails(init, id, org)
        {
          var k :| 0 <= k < |details| && details[k].partId == id && details[k].organizationId == org;
          assert k < |init| && init[k] == details[k];
        }
        forall id | HasDetails(init, id, org)
          ensures HasDetails(details, id, org)
        {
          var k :| 0 <= k < |init| && init[k].partId == id && init[k].organizationId == org;
          assert details[k] == init[k];
        }
      }
      r
  }

  /** `[...new Set(orgDetails.map(d => d.part_id))]`. */
  function CandidateIds(details: seq<DetailsRow>, org: string): seq<nat> {
    Dedupe(OrgPartIds(details, org))
  }

  /** The part id of every link row for (`org`, `app`). */
  function AppPartIds(links: seq<LinkRow>, org: string, app: string): (r: seq<nat>)
    ensures forall id :: id in r <==> exists k :: 0 <= k < |links| && links[k] == LinkRow(id, app, org)
  {
    if |links| == 0 then []
    else
      var init := links[..|links| - 1];
      var last := links[|links| - 1];
      assert forall k :: 0 <= k < |init| ==> links[k] == init[k];
      AppPartIds(init, org, app) + if last.organizationId == org && last.applicationId == app then [last.partId] else []
  }

  function Linked(appIds: seq<nat>): nat -> bool {
    (id: nat) => id in appIds
  }

  /** `partIds.filter(id => appPartIds.includes(id))`. */
  function AppScope(candidates: seq<nat>, links: seq<LinkRow>, org: string, app: string): seq<nat> {
    Keep(candidates, Linked(AppPartIds(links, org, app)))
  }

  /** The `.or(...)` search: name, manufacturer part number or client part
      number, but not the description. */
  predicate SearchHit(p: PartView, term: string) {
    ILike(p.name, term) || ILike(p.manufacturerPartNumber, term) || ILike(p.clientPartNumber, term)
  }

  /** The composed parts query: `.in('id', scope)`, then the search and the
      price type when given. */
  predicate Visible(p: PartView, scope: seq<nat>, f: Filters) {
    && p.id in scope
    && (f.search != "" ==> SearchHit(p, f.search))
    && (f.priceType != "" ==> p.priceType == Some(f.priceType))
  }

  function VisibleIn(scope: seq<nat>, f: Filters): PartView -> bool {
    (p: PartView) => Visible(p, scope, f)
  }

  /** The last query: the rows it selects, or none and the store's error. */
  function QueryParts(db: Db, scope: seq<nat>, f: Filters, fails: Reads): PartsResult {
    if fails.parts.Some? then PartsResult([], StoreFailure(fails.parts))
    else PartsResult(Keep(db.parts, VisibleIn(scope, f)), None)
  }

  /** `getUserAccessiblePartsService`. */
  function AccessibleParts(db: Db, user: string, f: Filters, fails: Reads): (r: PartsResult)
    requires PlainTerm(f.search)
    ensures |r.parts| <= |db.parts|
  {
    if user !in db.profiles then PartsResult([], Some(UserNotFound))
    else
      var org := db.profiles[user];
      if fails.details.Some? then PartsResult([], StoreFailure(fails.details))
      else
        var ids := CandidateIds(db.details, org);
        if |ids| == 0 then PartsResult([], None)
        else if f.applicationId != "" then
          if fails.links.Some? then PartsResult([], StoreFailure(fails.links))
          else
            var scope := AppScope(ids, db.links, org, f.applicationId);
            if |scope| == 0 then PartsResult([], None)
            else QueryParts(db, scope, f, fails)
        else QueryParts(db, ids, f, fails)
  }

  /** `getPartByIdService`: `accessFails` is a failed access check. */
  function PartById(db: Db, partId: nat, user: string, accessFails: bool, partFails: Option<string>): (r: PartResult)
    ensures r.part.Some? ==> r.part.value in db.parts && r.part.value.id == partId && r.error.None?
    ensures (&& user in db.profiles && !accessFails && HasDetails(db.details, partId, db.profiles[user])
             && partFails.None? && |Keep(db.parts, HasId(partId))| == 1) ==>
              r == PartResult(Some(Keep(db.parts, HasId(partId))[0]), None)
  {
    if user !in db.profiles then PartResult(None, Some(UserNotFound))
    else if accessFails || !HasDetails(db.details, partId, db.profiles[user]) then PartResult(None, Some(AccessDenied))
    else if partFails.Some? then PartResult(None, StoreFailure(partFails))
    else
      var rows := Keep(db.parts, HasId(partId));
      KeepMembers(db.parts, HasId(partId));
      if |rows| == 1 then
        assert rows[0] in rows;
        PartResult(Some(rows[0]), None)
      else PartResult(None, Some(NotOneRow))
  }

  function HasId(id: nat): PartView -> bool {
    (p: PartView) => p.id == id
  }

  function OfOrganization(org: string): Application -> bool {
    (a: Application) => a.organizationId == org
  }

  /** `getUserApplicationsService`: `fails` is a failed read of `applications`. */
  function UserApplications(db: Db, user: string, fails: Option<string>): (r: AppsResult)
    ensures |r.applications| <= |db.applications|
  {
    if user !in db.profiles then AppsResult([], Some(UserNotFound))
    else if fails.Some? then AppsResult([], StoreFailure(fails))
    else AppsResult(Keep(db.applications, OfOrganization(db.profiles[user])), None)
  }

  // Properties

  /** Without a profile every call reports "User not found" and returns nothing. */
  lemma UnknownUser(db: Db, user: string, f: Filters, fails: Reads, partId: nat, accessFails: bool, partFails: Option<string>, appsFail: Option<string>)
    requires PlainTerm(f.search) && user !in db.profiles
    ensures AccessibleParts(db, user, f, fails) == PartsResult([], Some(Message("User not found")))
    ensures PartById(db, partId, user, accessFails, partFails) == PartResult(None, Some(Message("User not found")))
    ensures UserApplications(db, user, appsFail) == AppsResult([], Some(Message("User not found")))
  {
  }

  /** The candidate ids are exactly the parts the organisation has a
      details row for, each once. */
  lemma CandidateIdsExact(details: seq<DetailsRow>, org: string)
    ensures forall id :: id in CandidateIds(details, org) <==> HasDetails(details, id, org)
    ensures NoDuplicates(CandidateIds(details, org))
  {
    DedupeNoDuplicates(OrgPartIds(details, org));
  }

  /** With an application filter the ids are the candidates that are also
      linked to that application of the organisation, each once, in
      candidate order. */
  lemma AppScopeExact(candidates: seq<nat>, links: seq<LinkRow>, org: string, app: string)
    requires NoDuplicates(candidates)
    ensures var s := AppScope(candidates, links, org, app);
      && (forall id :: id in s <==> id in candidates && exists k :: 0 <= k < |links| && links[k] == LinkRow(id, app, org))
      && NoDuplicates(s)
  {
    KeepMembers(candidates, Linked(AppPartIds(links, org, app)));
    KeepNoDuplicates(candidates, Linked(AppPartIds(links, org, app)));
  }

  lemma AppScopeInCandidateOrder(candidates: seq<nat>, links: seq<LinkRow>, org: string, app: string, i: nat, j: nat)
    requires i < j < |AppScope(candidates, links, org, app)|
    ensures exists m, n :: (0 <= m < n < |candidates|
      && candidates[m] == AppScope(candidates, links, org, app)[i]
      && candidates[n] == AppScope(candidates, links, org, app)[j])
  {
    KeepKeepsOrder(candidates, Linked(AppPartIds(links, org, app)), i, j);
  }

  /** A part is listed iff the reads succeed, it is in the parts table, the
      user's organisation has a details row for it, it is linked to the
      requested application (when one is given) and it passes the search
      and the price type filter. */
  lemma AccessibleExact(db: Db, user: string, f: Filters, fails: Reads, p: PartView)
    requires PlainTerm(f.search) && user in db.profiles
    requires fails.details.None? && fails.parts.None? && (f.applicationId != "" ==> fails.links.None?)
    ensures var org := db.profiles[user];
      p in AccessibleParts(db, user, f, fails).parts <==>
        && p in db.parts
        && HasDetails(db.details, p.id, org)
        && (f.applicationId != "" ==> exists k :: 0 <= k < |db.links| && db.links[k] == LinkRow(p.id, f.applicationId, org))
        && (f.search != "" ==> SearchHit(p, f.search))
        && (f.priceType != "" ==> p.priceType == Some(f.priceType))
  {
    var org := db.profiles[user];
    var ids := CandidateIds(db.details, org);
    CandidateIdsExact(db.details, org);
    var scope := if f.applicationId != "" then AppScope(ids, db.links, org, f.applicationId) else ids;
    if f.applicationId != "" {
      AppScopeExact(ids, db.links, org, f.applicationId);
    }
    KeepMembers(db.parts, VisibleIn(scope, f));
    if |scope| == 0 {
      assert !(p.id in scope);
    }
  }

  /** When the organisation has no details rows the result is empty with
      no error, whatever the parts table holds and whether its read would
      fail: the parts are never queried. */
  lemma NoCandidatesNoQuery(db: Db, user: string, f: Filters, fails: Reads, otherParts: seq<PartView>, otherLinks: seq<LinkRow>, partsFail: Option<string>)
    requires PlainTerm(f.search) && user in db.profiles && fails.details.None?
    requires forall id :: !HasDetails(db.details, id, db.profiles[user])
    ensures AccessibleParts(db, user, f, fails) == PartsResult([], None)
    ensures AccessibleParts(db.(parts := otherParts, links := otherLinks), user, f, fails.(parts := partsFail))
         == AccessibleParts(db, user, f, fails)
  {
    var ids := CandidateIds(db.details, db.profiles[user]);
    CandidateIdsExact(db.details, db.profiles[user]);
    NoMembersEmpty(ids);
  }

  /** Editing a part's description never changes whether it is listed. */
  lemma DescriptionNotSearched(p: PartView, scope: seq<nat>, f: Filters, d: Option<string>)
    ensures Visible(p, scope, f) <==> Visible(p.(description := d), scope, f)
  {
  }

  /** The parts come in name order. */
  lemma AccessibleByName(db: Db, user: string, f: Filters, fails: Reads)
    requires PlainTerm(f.search) && PartsByName(db.parts)
    ensures PartsByName(AccessibleParts(db, user, f, fails).parts)
  {
    var r := AccessibleParts(db, user, f, fails).parts;
    forall i, j | 0 <= i < j < |r|
      ensures NameBefore(r[i].name, r[j].name)
    {
      var org := db.profiles[user];
      var ids := CandidateIds(db.details, org);
      var scope := if f.applicationId != "" then AppScope(ids, db.links, org, f.applicationId) else ids;
      assert r == Keep(db.parts, VisibleIn(scope, f));
      KeepKeepsOrder(db.parts, VisibleIn(scope, f), i, j);
    }
  }

  /** `getPartByIdService` returns a part only past the access check, and
      past the check it returns the part exactly when the read succeeds and
      the table holds one row with that id; otherwise it reports the
      store's error or `.single()`'s. */
  lemma PartByIdGate(db: Db, partId: nat, user: string, accessFails: bool, partFails: Option<string>)
    requires user in db.profiles
    ensures var r := PartById(db, partId, user, accessFails, partFails);
      && (r.part.Some? ==> !accessFails && HasDetails(db.details, partId, db.profiles[user]))
      && (accessFails || !HasDetails(db.details, partId, db.profiles[user]) ==>
            r == PartResult(None, Some(Message("Part not found or access denied"))))
    ensures var r := PartById(db, partId, user, accessFails, partFails);
      var rows := Keep(db.parts, HasId(partId));
      !accessFails && HasDetails(db.details, partId, db.profiles[user]) ==>
        && (r.part.Some? <==> partFails.None? && |rows| == 1)
        && (partFails.Some? ==> r.error == Some(StoreError(partFails.value)))
        && (partFails.None? && |rows| != 1 ==> r.error == Some(NotOneRow))
        && (partFails.None? && |rows| == 1 ==> r.part == Some(rows[0]) && rows[0] in db.parts && rows[0].id == partId)
  {
    KeepMembers(db.parts, HasId(partId));
    var rows := Keep(db.parts, HasId(partId));
    if |rows| == 1 {
      assert rows[0] in rows;
    }
  }

  /** The applications returned are exactly the organisation's, in name order. */
  lemma UserApplicationsExact(db: Db, user: string, a: Application)
    requires user in db.profiles
    ensures a in UserApplications(db, user, None).applications <==>
      a in db.applications && a.organizationId == db.profiles[user]
  {
    KeepMembers(db.applications, OfOrganization(db.profiles[user]));
  }

  lemma UserApplicationsByName(db: Db, user: string, fails: Option<string>)
    requires ApplicationsByName(db.applications)
    ensures ApplicationsByName(UserApplications(db, user, fails).applications)
  {
    var r := UserApplications(db, user, fails).applications;
    forall i, j | 0 <= i < j < |r|
      ensures LexLe(r[i].name, r[j].name)
    {
      KeepKeepsOrder(db.applications, OfOrganization(db.profiles[user]), i, j);
    }
  }
}
