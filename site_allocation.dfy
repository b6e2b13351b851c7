/**
 * Site allocation: one document per user listing the sites allocated to that user.
 * Sites are added with a case-insensitive duplicate check on (site name, district,
 * state) and removed by id.
 *
 * The request fields other than the email are strings here; the empty string stands
 * for a missing or empty field.
 */
module SiteAllocation {
  import opened Common
  import opened Users

  /** One element of `sites`; `id` is the text of its `_id`. */
  datatype Site = Site(id: string, siteName: string, district: string, state: string, createdAt: int)

  datatype Allocation = Allocation(sites: seq<Site>, createdAt: int, updatedAt: int)

  /** The schema's required fields: a `required` string may not be empty. */
  predicate ValidSite(s: Site)
  {
    s.siteName != "" && s.district != "" && s.state != ""
  }

  /** The `some` test: the three fields agree after lower-casing. */
  predicate SameSite(s: Site, siteName: string, district: string, state: string)
  {
    Lower(s.siteName) == Lower(siteName) && Lower(s.district) == Lower(district) && Lower(s.state) == Lower(state)
  }

  /** `sites.some(...)`. */
  function AlreadyAllocated(sites: seq<Site>, siteName: string, district: string, state: string): (b: bool)
    ensures b <==> exists i :: 0 <= i < |sites| && SameSite(sites[i], siteName, district, state)
  {
    if sites == [] then false
    else SameSite(sites[0], siteName, district, state) || AlreadyAllocated(sites[1..], siteName, district, state)
  }

  /** No two sites of a list are the same site up to letter case. */
  predicate NoDuplicates(sites: seq<Site>)
  {
    forall i, j :: 0 <= i < j < |sites| ==> !SameSite(sites[j], sites[i].siteName, sites[i].district, sites[i].state)
  }

  predicate AllocationValid(a: Allocation)
  {
    NoDuplicates(a.sites) && forall s :: s in a.sites ==> ValidSite(s)
  }

  /** Appending a site the check lets through keeps the list free of duplicates. */
  lemma AppendKeepsNoDuplicates(sites: seq<Site>, site: Site)
    requires NoDuplicates(sites)
    requires !AlreadyAllocated(sites, site.siteName, site.district, site.state)
    ensures NoDuplicates(sites + [site])
  {
    var r := sites + [site];
    forall i, j | 0 <= i < j < |r| ensures !SameSite(r[j], r[i].siteName, r[i].district, r[i].state) {
      if j == |sites| {
        assert !SameSite(sites[i], site.siteName, site.district, site.state);
      }
    }
  }

  /** `filter(site => site._id.toString() !== siteId)`. */
  function WithoutSite(sites: seq<Site>, siteId: JsValue): (r: seq<Site>)
    ensures |r| <= |sites|
  {
    if sites == [] then []
    else if Str(sites[0].id) == siteId then WithoutSite(sites[1..], siteId)
    else [sites[0]] + WithoutSite(sites[1..], siteId)
  }

  /** Exactly the sites with another id survive, in order. */
  lemma {:induction false} WithoutSiteMeaning(sites: seq<Site>, siteId: JsValue)
    ensures forall s :: s in WithoutSite(sites, siteId) <==> s in sites && Str(s.id) != siteId
    ensures (forall s :: s in sites ==> Str(s.id) != siteId) ==> WithoutSite(sites, siteId) == sites
  {
    if sites != [] {
      WithoutSiteMeaning(sites[1..], siteId);
      assert sites == [sites[0]] + sites[1..];
    }
  }

  /** Removal keeps the sites in their order: it distributes over concatenation. */
  lemma {:induction false} WithoutSiteAppend(a: seq<Site>, b: seq<Site>, siteId: JsValue)
    ensures WithoutSite(a + b, siteId) == WithoutSite(a, siteId) + WithoutSite(b, siteId)
  {
    if a != [] {
      assert (a + b)[1..] == a[1..] + b;
      WithoutSiteAppend(a[1..], b, siteId);
    } else {
      assert a + b == b;
    }
  }

  /** A suffix of a duplicate-free list is duplicate-free. */
  lemma TailNoDuplicates(sites: seq<Site>)
    requires sites != [] && NoDuplicates(sites)
    ensures NoDuplicates(sites[1..])
  {
    var tail := sites[1..];
    forall i, j | 0 <= i < j < |tail| ensures !SameSite(tail[j], tail[i].siteName, tail[i].district, tail[i].state) {
      assert tail[i] == sites[i + 1] && tail[j] == sites[j + 1];
    }
  }

  /** A site that no later site duplicates, in front of a duplicate-free list, keeps it duplicate-free. */
  lemma ConsNoDuplicates(site: Site, rest: seq<Site>)
    requires NoDuplicates(rest)
    requires forall x :: x in rest ==> !SameSite(x, site.siteName, site.district, site.state)
    ensures NoDuplicates([site] + rest)
  {
    var r := [site] + rest;
    forall i, j | 0 <= i < j < |r| ensures !SameSite(r[j], r[i].siteName, r[i].district, r[i].state) {
      assert r[j] == rest[j - 1];
      if i > 0 {
        assert r[i] == rest[i - 1];
      }
    }
  }

  /** Removal keeps a valid allocation valid. */
  lemma {:induction false} WithoutSiteKeepsValid(sites: seq<Site>, siteId: JsValue)
    requires NoDuplicates(sites) && forall s :: s in sites ==> ValidSite(s)
    ensures NoDuplicates(WithoutSite(sites, siteId)) && forall s :: s in WithoutSite(sites, siteId) ==> ValidSite(s)
  {
    WithoutSiteMeaning(sites, siteId);
    if sites != [] {
      var tail := sites[1..];
      assert forall s :: s in tail ==> s in sites;
      TailNoDuplicates(sites);
      WithoutSiteKeepsValid(tail, siteId);
      var rest := WithoutSite(tail, siteId);
      if Str(sites[0].id) != siteId {
        WithoutSiteMeaning(tail, siteId);
        forall x | x in rest ensures !SameSite(x, sites[0].siteName, sites[0].district, sites[0].state) {
          var m :| 0 <= m < |tail| && tail[m] == x;
          assert sites[m + 1] == x;
        }
        ConsNoDuplicates(sites[0], rest);
      }
    }
  }

  /** The `SiteAllocation` collection. */
  class SiteStore {
    var docs: map<UserId, Allocation>

    predicate Valid()
      reads this
    {
      forall u :: u in docs ==> AllocationValid(docs[u])
    }

    constructor()
      ensures docs == map[] && Valid()
    {
      docs := map[];
    }

    /** getSiteAllocationsByEmail: the user's allocation, created empty and saved when there is none. */
    method GetByEmail(users: seq<User>, email: JsValue, now: int) returns (r: Response<Allocation>)
      requires Valid()
      modifies this
      ensures Valid()
      ensures !Truthy(email) ==> r == Failure(400, "Email is required") && docs == old(docs)
      ensures Truthy(email) && FindByEmail(users, email).None? ==> r == Failure(404, "User not found") && docs == old(docs)
      ensures Truthy(email) && FindByEmail(users, email).Some? ==>
                var id := FindByEmail(users, email).value.id;
                && (id in old(docs) ==> docs == old(docs) && r == Success(200, old(docs)[id]))
                && (id !in old(docs) ==> docs == old(docs)[id := Allocation([], now, now)] && r == Success(200, Allocation([], now, now)))
    {
      if !Truthy(email) {
        return Failure(400, "Email is required");
      }
      var user := FindByEmail(users, email);
      if user.None? {
        return Failure(404, "User not found");
      }
      var id := user.value.id;
      if id !in docs {
        docs := docs[id := Allocation([], now, now)];
      }
      return Success(200, docs[id]);
    }

    /**
     * addSiteToUser: append the site unless the user already has it up to letter case.
     * `freshId` is the id the new site receives.
     */
    method AddSite(users: seq<User>, email: JsValue, siteName: string, district: string, state: string,
                   freshId: string, now: int) returns (r: Response<Allocation>)
      requires Valid()
      modifies this
      ensures Valid()
      ensures r.Failure? ==> docs == old(docs)
      ensures !Truthy(email) || siteName == "" || district == "" || state == "" ==>
                r == Failure(400, "Email, site name, district, and state are required")
      ensures Truthy(email) && siteName != "" && district != "" && state != "" ==>
                && (FindByEmail(users, email).None? ==> r == Failure(404, "User not found"))
                && (FindByEmail(users, email).Some? ==>
                      var id := FindByEmail(users, email).value.id;
                      var before := if id in old(docs) then old(docs)[id] else Allocation([], now, now);
                      && (AlreadyAllocated(before.sites, siteName, district, state) ==>
                            r == Failure(400, "Site already allocated to this user"))
                      && (!AlreadyAllocated(before.sites, siteName, district, state) ==>
                            && r == Success(201, before.(sites := before.sites + [Site(freshId, siteName, district, state, now)], updatedAt := now))
                            && docs == old(docs)[id := r.body]))
    {
      if !Truthy(email) || siteName == "" || district == "" || state == "" {
        return Failure(400, "Email, site name, district, and state are required");
      }
      var user := FindByEmail(users, email);
      if user.None? {
        return Failure(404, "User not found");
      }
      var id := user.value.id;
      var allocation := if id in docs then docs[id] else Allocation([], now, now);
      if AlreadyAllocated(allocation.sites, siteName, district, state) {
        return Failure(400, "Site already allocated to this user");
      }
      var site := Site(freshId, siteName, district, state, now);
      AppendKeepsNoDuplicates(allocation.sites, site);
      allocation := allocation.(sites := allocation.sites + [site], updatedAt := now);
      docs := docs[id := allocation];
      return Success(201, allocation);
    }

    /** removeSiteFromUser: keep the sites whose id differs from `siteId`; an unknown id changes no site. */
    method RemoveSite(users: seq<User>, email: JsValue, siteId: JsValue, now: int) returns (r: Response<Allocation>)
      requires Valid()
      modifies this
      ensures Valid()
      ensures r.Failure? ==> docs == old(docs)
      ensures !Truthy(email) || !Truthy(siteId) ==> r == Failure(400, "Email and site ID are required")
      ensures Truthy(email) && Truthy(siteId) ==>
                && (FindByEmail(users, email).None? ==> r == Failure(404, "User not found"))
                && (FindByEmail(users, email).Some? ==>
                      var id := FindByEmail(users, email).value.id;
                      && (id !in old(docs) ==> r == Failure(404, "No site allocation found for this user"))
                      && (id in old(docs) ==>
                            && r == Success(200, old(docs)[id].(sites := WithoutSite(old(docs)[id].sites, siteId), updatedAt := now))
                            && docs == old(docs)[id := r.body]))
    {
      if !Truthy(email) || !Truthy(siteId) {
        return Failure(400, "Email and site ID are required");
      }
      var user := FindByEmail(users, email);
      if user.None? {
        return Failure(404, "User not found");
      }
      var id := user.value.id;
      if id !in docs {
        return Failure(404, "No site allocation found for this user");
      }
      var allocation := docs[id];
      WithoutSiteKeepsValid(allocation.sites, siteId);
      allocation := allocation.(sites := WithoutSite(allocation.sites, siteId), updatedAt := now);
      docs := docs[id := allocation];
      return Success(200, allocation);
    }
  }
}
