/** A page's public slugs: the primary one, and aliases honoured oldest first within the owner's plan. */
module Aliases {
  import opened Wrappers
  import Catalog
  import Entitlements

  type UserId = Entitlements.UserId
  type PageId = nat
  type LinkId = nat

  datatype Page = Page(user: UserId, slug: string, published: bool)

  /** An alias of a page. */
  datatype Link = Link(id: LinkId, page: PageId, slug: string, active: bool)

  /** Pages are never deleted, so a page's index is its id; links stand in order of creation. */
  datatype Site = Site(pages: seq<Page>, links: seq<Link>, nextLink: LinkId)

  datatype SlugError = Conflict | LimitReached | NotFound | NotReady | NoUniqueSlug

  // ---- queries ----

  function PageOf(pages: seq<Page>, user: UserId, from: nat := 0): (found: Option<PageId>)
    ensures found.Some? ==> from <= found.value < |pages| && pages[found.value].user == user
    ensures found.None? ==> forall p :: from <= p < |pages| ==> pages[p].user != user
    decreases |pages| - from
  {
    if from >= |pages| then None
    else if pages[from].user == user then Some(from)
    else PageOf(pages, user, from + 1)
  }

  function PublishedWith(pages: seq<Page>, slug: string, from: nat := 0): (found: Option<PageId>)
    ensures found.Some? ==>
          from <= found.value < |pages| && pages[found.value].published && pages[found.value].slug == slug
    ensures found.None? ==> forall p :: from <= p < |pages| ==> !(pages[p].published && pages[p].slug == slug)
    decreases |pages| - from
  {
    if from >= |pages| then None
    else if pages[from].published && pages[from].slug == slug then Some(from)
    else PublishedWith(pages, slug, from + 1)
  }

  function ActiveLinkWith(links: seq<Link>, slug: string, from: nat := 0): (found: Option<nat>)
    ensures found.Some? ==>
          from <= found.value < |links| && links[found.value].active && links[found.value].slug == slug
    ensures found.None? ==> forall i :: from <= i < |links| ==> !(links[i].active && links[i].slug == slug)
    decreases |links| - from
  {
    if from >= |links| then None
    else if links[from].active && links[from].slug == slug then Some(from)
    else ActiveLinkWith(links, slug, from + 1)
  }

  function LinkAt(links: seq<Link>, id: LinkId, from: nat := 0): (found: Option<nat>)
    ensures found.Some? ==> from <= found.value < |links| && links[found.value].id == id
    ensures found.None? ==> forall i :: from <= i < |links| ==> links[i].id != id
    decreases |links| - from
  {
    if from >= |links| then None
    else if links[from].id == id then Some(from)
    else LinkAt(links, id, from + 1)
  }

  function AliasesOf(links: seq<Link>, page: PageId): seq<Link> {
    if links == [] then []
    else (if links[0].page == page then [links[0]] else []) + AliasesOf(links[1..], page)
  }

  function ActiveOf(links: seq<Link>): seq<Link> {
    if links == [] then [] else (if links[0].active then [links[0]] else []) + ActiveOf(links[1..])
  }

  function ActiveIds(links: seq<Link>, page: PageId): seq<LinkId> {
    if links == [] then []
    else (if links[0].page == page && links[0].active then [links[0].id] else []) + ActiveIds(links[1..], page)
  }

  predicate OnPage(site: Site, slug: string, except: Option<PageId>) {
    exists p :: 0 <= p < |site.pages| && site.pages[p].slug == slug && except != Some(p)
  }

  predicate OnLink(site: Site, slug: string, except: Option<LinkId>) {
    exists i :: 0 <= i < |site.links| && site.links[i].slug == slug && except != Some(site.links[i].id)
  }

  // ---- the two places that decide which aliases count ----

  /** What the owner is shown: each alias with whether the current plan still honours it. */
  function ListAliases(site: Site, page: PageId, limit: int): seq<(Link, bool)> {
    var links := AliasesOf(site.links, page);
    var allowed := if limit == Catalog.UNLIMITED then |links| else Max(limit - 1, 0);
    var active := ActiveOf(links);
    var honoured := set link | link in active[..Min(allowed, |active|)] :: link.id;
    seq(|links|, i requires 0 <= i < |links| => (links[i], links[i].id in honoured))
  }

  /** What the public page serves; `limits` is each owner's current links_max. */
  function ResolvePublished(site: Site, slug: string, limits: UserId -> int): Option<PageId> {
    var primary := PublishedWith(site.pages, slug);
    if primary.Some? then primary
    else
      var at := ActiveLinkWith(site.links, slug);
      if at.None? then None
      else
        var link := site.links[at.value];
        if link.page >= |site.pages| || !site.pages[link.page].published then None
        else
          var limit := limits(site.pages[link.page].user);
          if limit == Catalog.UNLIMITED then Some(link.page)
          else
            var ids := ActiveIds(site.links, link.page);
            if link.id in ids[..Min(Max(limit - 1, 0), |ids|)] then Some(link.page) else None
  }

  // ---- the requests ----

  predicate HasRoom(limit: int, held: nat) {
    limit == Catalog.UNLIMITED || held < limit
  }

  function LinkCount(links: seq<Link>, page: PageId): nat {
    1 + |ActiveIds(links, page)|
  }

  /** The user's page, created under the first free candidate if there is none yet. */
  function CreatePage(site: Site, user: UserId, candidates: seq<string>): Result<Site, SlugError>
    decreases |candidates|
  {
    if PageOf(site.pages, user).Some? then Ok(site)
    else if candidates == [] then Err(NoUniqueSlug)
    else if OnPage(site, candidates[0], None)
          || OnLink(site, candidates[0], None) then CreatePage(site, user, candidates[1..])
    else Ok(site.(pages := site.pages + [Page(user, candidates[0], false)]))
  }

  /** `admitted` says whether the publish quota had a unit left for the rename. */
  function Rename(site: Site, page: PageId, slug: string, admitted: bool): Result<Site, SlugError>
    requires page < |site.pages|
  {
    if slug == site.pages[page].slug then Ok(site)
    else if OnPage(site, slug, Some(page)) || OnLink(site, slug, None) then Err(Conflict)
    else if !admitted then Err(LimitReached)
    else Ok(site.(pages := site.pages[page := site.pages[page].(slug := slug)]))
  }

  /** `ready` says whether every section is approved and the profile has a name. Publishing a page that is
      live already needs no unit of the publish quota. */
  function Publish(site: Site, page: PageId, ready: bool, admitted: bool): Result<Site, SlugError>
    requires page < |site.pages|
  {
    if !ready then Err(NotReady)
    else if !site.pages[page].published && !admitted then Err(LimitReached)
    else Ok(site.(pages := site.pages[page := site.pages[page].(published := true)]))
  }

  function Unpublish(site: Site, page: PageId): Site
    requires page < |site.pages|
  {
    site.(pages := site.pages[page := site.pages[page].(published := false)])
  }

  function AddAlias(site: Site, page: PageId, slug: string, limit: int): Result<Site, SlugError> {
    if !HasRoom(limit, LinkCount(site.links, page)) then Err(LimitReached)
    else if OnPage(site, slug, None) || OnLink(site, slug, None) then Err(Conflict)
    else Ok(site.(links := site.links + [Link(site.nextLink, page, slug, true)], nextLink := site.nextLink + 1))
  }

  function UpdateAlias(site: Site, page: PageId, id: LinkId, slug: Option<string>, active: Option<bool>,
          limit: int): Result<Site, SlugError> {
    var at := LinkAt(site.links, id);
    if at.None? || site.links[at.value].page != page then Err(NotFound)
    else
      var link := site.links[at.value];
      var renamed := slug.Some? && slug.value != link.slug;
      if renamed && (OnPage(site, slug.value, None) || OnLink(site, slug.value, Some(id))) then Err(Conflict)
      else if active == Some(true) && !link.active
            && !HasRoom(limit, LinkCount(site.links, page)) then Err(LimitReached)
      else
        Ok(site.(links := site.links[at.value := link.(
                            slug := if renamed then slug.value else link.slug,
                            active := if active.Some? then active.value else link.active)]))
  }

  function DeleteAlias(site: Site, page: PageId, id: LinkId): Result<Site, SlugError> {
    var at := LinkAt(site.links, id);
    if at.None? || site.links[at.value].page != page then Err(NotFound)
    else Ok(site.(links := site.links[..at.value] + site.links[at.value + 1..]))
  }

  // ---- the same, on the tables ----

  class PortfolioService {
    var pages: seq<Page>
    var links: seq<Link>
    var nextLink: LinkId

    function Contents(): Site
      reads this
    {
      Site(pages, links, nextLink)
    }

    constructor ()
      ensures Contents() == Site([], [], 0)
    {
      pages, links, nextLink := [], [], 0;
    }

    /** `candidates` are the slugs drawn for a new page, in order; the service draws five. */
    method GetOrCreateForUser(user: UserId, candidates: seq<string>) returns (r: Result<PageId, SlugError>)
      modifies this`pages
      ensures r.Ok? <==> CreatePage(old(Contents()), user, candidates).Ok?
      ensures r.Ok? ==> Contents() == CreatePage(old(Contents()), user, candidates).value
      ensures r.Ok? ==> r.value < |pages| && pages[r.value].user == user
      ensures r.Err? ==> Contents() == old(Contents())
    {
      var found := PageOf(pages, user);
      if found.Some? {
        return Ok(found.value);
      }
      var i := 0;
      while i < |candidates|
        invariant 0 <= i <= |candidates| && Contents() == old(Contents())
        invariant CreatePage(Contents(), user, candidates) == CreatePage(Contents(), user, candidates[i..])
      {
        if !OnPage(Contents(), candidates[i], None) && !OnLink(Contents(), candidates[i], None) {
          pages := pages + [Page(user, candidates[i], false)];
          return Ok(|pages| - 1);
        }
        assert candidates[i..][1..] == candidates[i + 1..];
        i := i + 1;
      }
      return Err(NoUniqueSlug);
    }

    method RenamePage(page: PageId, slug: string, admitted: bool) returns (r: Result<(), SlugError>)
      requires page < |pages|
      modifies this`pages
      ensures r.Ok? <==> Rename(old(Contents()), page, slug, admitted).Ok?
      ensures r.Err? ==> r.error == Rename(old(Contents()), page, slug, admitted).error && Contents() == old(Contents())
      ensures r.Ok? ==> Contents() == Rename(old(Contents()), page, slug, admitted).value
    {
      if slug != pages[page].slug {
        if OnPage(Contents(), slug, Some(page)) || OnLink(Contents(), slug, None) {
          return Err(Conflict);
        }
        if !admitted {
          return Err(LimitReached);
        }
        pages := pages[page := pages[page].(slug := slug)];
      }
      return Ok(());
    }

    method PublishPage(page: PageId, ready: bool, admitted: bool) returns (r: Result<(), SlugError>)
      requires page < |pages|
      modifies this`pages
      ensures r.Ok? <==> Publish(old(Contents()), page, ready, admitted).Ok?
      ensures r.Err? ==>
            r.error == Publish(old(Contents()), page, ready, admitted).error && Contents() == old(Contents())
      ensures r.Ok? ==> Contents() == Publish(old(Contents()), page, ready, admitted).value
    {
      if !ready {
        return Err(NotReady);
      }
      var newlyPublished := !pages[page].published;
      if newlyPublished && !admitted {
        return Err(LimitReached);
      }
      pages := pages[page := pages[page].(published := true)];
      return Ok(());
    }

    method UnpublishPage(page: PageId)
      requires page < |pages|
      modifies this`pages
      ensures forall slug, limits :: ResolvePublished(Contents(), slug, limits) != Some(page)
      ensures Contents() == Unpublish(old(Contents()), page)
    {
      pages := pages[page := pages[page].(published := false)];
    }

    method AddAliasTo(page: PageId, slug: string, limit: int) returns (r: Result<Link, SlugError>)
      modifies this`links, this`nextLink
      ensures r.Ok? <==> AddAlias(old(Contents()), page, slug, limit).Ok?
      ensures r.Err? ==> r.error == AddAlias(old(Contents()), page, slug, limit).error && Contents() == old(Contents())
      ensures r.Ok? ==>
            Contents() == AddAlias(old(Contents()), page, slug, limit).value && r.value == links[|links| - 1]
    {
      if !HasRoom(limit, LinkCount(links, page)) {
        return Err(LimitReached);
      }
      if OnPage(Contents(), slug, None) || OnLink(Contents(), slug, None) {
        return Err(Conflict);
      }
      var link := Link(nextLink, page, slug, true);
      links, nextLink := links + [link], nextLink + 1;
      return Ok(link);
    }

    /** After LimitReached a new slug stays written: undoing it is up to the request's rollback. */
    method UpdateAliasOf(page: PageId, id: LinkId, slug: Option<string>, active: Option<bool>, limit: int)
        returns (r: Result<Link, SlugError>)
      modifies this`links
      ensures r.Ok? <==> UpdateAlias(old(Contents()), page, id, slug, active, limit).Ok?
      ensures r.Err? ==> r.error == UpdateAlias(old(Contents()), page, id, slug, active, limit).error
      ensures r.Ok? ==>
            Contents() == UpdateAlias(old(Contents()), page, id, slug, active, limit).value && r.value in links
    {
      var at := LinkAt(links, id);
      if at.None? || links[at.value].page != page {
        return Err(NotFound);
      }
      var link := links[at.value];
      if slug.Some? && slug.value != link.slug {
        if OnPage(Contents(), slug.value, None) || OnLink(Contents(), slug.value, Some(id)) {
          return Err(Conflict);
        }
        SlugsDoNotCount(links, at.value, slug.value, page);
        link := link.(slug := slug.value);
        links := links[at.value := link];
      }
      if active == Some(true) && !link.active {
        if !HasRoom(limit, LinkCount(links, page)) {
          return Err(LimitReached);
        }
        link := link.(active := true);
        links := links[at.value := link];
      } else if active == Some(false) {
        link := link.(active := false);
        links := links[at.value := link];
      }
      assert links[at.value] == link;
      return Ok(link);
    }

    method DeleteAliasOf(page: PageId, id: LinkId) returns (r: Result<(), SlugError>)
      modifies this`links
      ensures r.Ok? <==> DeleteAlias(old(Contents()), page, id).Ok?
      ensures r.Err? ==> r.error == NotFound && Contents() == old(Contents())
      ensures r.Ok? ==> Contents() == DeleteAlias(old(Contents()), page, id).value
    {
      var at := LinkAt(links, id);
      if at.None? || links[at.value].page != page {
        return Err(NotFound);
      }
      links := links[..at.value] + links[at.value + 1..];
      return Ok(());
    }
  }

  lemma {:induction false} SlugsDoNotCount(links: seq<Link>, at: nat, slug: string, page: PageId)
    requires at < |links|
    ensures ActiveIds(links[at := links[at].(slug := slug)], page) == ActiveIds(links, page)
  {
    if at > 0 {
      SlugsDoNotCount(links[1..], at - 1, slug, page);
      assert links[at := links[at].(slug := slug)][1..] == links[1..][at - 1 := links[at].(slug := slug)];
    } else {
      assert links[at := links[at].(slug := slug)][1..] == links[1..];
    }
  }

  // ---- slugs stay distinct, across pages and aliases ----

  ghost predicate DistinctSlugs(site: Site) {
    && (forall p, q :: 0 <= p < q < |site.pages| ==> site.pages[p].slug != site.pages[q].slug)
    && (forall i, j :: 0 <= i < j < |site.links| ==> site.links[i].slug != site.links[j].slug)
    && (forall p, i :: 0 <= p < |site.pages| && 0 <= i < |site.links| ==> site.pages[p].slug != site.links[i].slug)
  }

  ghost predicate Sound(site: Site) {
    && DistinctSlugs(site)
    && (forall p, q :: 0 <= p < q < |site.pages| ==> site.pages[p].user != site.pages[q].user)
    && (forall i, j :: 0 <= i < j < |site.links| ==> site.links[i].id != site.links[j].id)
    && (forall i :: 0 <= i < |site.links| ==> site.links[i].id < site.nextLink && site.links[i].page < |site.pages|)
  }

  /** One committed request. The page comes from the signed-in user, so it exists. */
  datatype Act =
    | Create(user: UserId, candidates: seq<string>)
    | RenameTo(page: PageId, slug: string, admitted: bool)
    | GoLive(page: PageId, ready: bool, admitted: bool)
    | TakeDown(page: PageId)
    | Add(page: PageId, slug: string, limit: int)
    | Update(page: PageId, id: LinkId, slugTo: Option<string>, active: Option<bool>, limit: int)
    | Delete(page: PageId, id: LinkId)

  function Apply(site: Site, act: Act): Site {
    match act
    case Create(user, candidates) => Committed(site, CreatePage(site, user, candidates))
    case RenameTo(page, slug, admitted) => if page < |site.pages| then Committed(site,
          Rename(site, page, slug, admitted)) else site
    case GoLive(page, ready, admitted) => if page < |site.pages| then Committed(site,
          Publish(site, page, ready, admitted)) else site
    case TakeDown(page) => if page < |site.pages| then Unpublish(site, page) else site
    case Add(page, slug, limit) => if page < |site.pages| then Committed(site, AddAlias(site, page, slug, limit))
          else site
    case Update(page, id, slug, active, limit) => Committed(site, UpdateAlias(site, page, id, slug, active, limit))
    case Delete(page, id) => Committed(site, DeleteAlias(site, page, id))
  }

  /** A failed request is rolled back. */
  function Committed(site: Site, r: Result<Site, SlugError>): Site {
    if r.Ok? then r.value else site
  }

  function Replay(acts: seq<Act>): Site {
    if acts == [] then Site([], [], 0) else Apply(Replay(acts[..|acts| - 1]), acts[|acts| - 1])
  }

  lemma {:induction false} CreateKeepsSound(site: Site, user: UserId, candidates: seq<string>)
    requires Sound(site)
    ensures Sound(Committed(site, CreatePage(site, user, candidates)))
    decreases |candidates|
  {
    if PageOf(site.pages, user).None? && candidates != [] {
      CreateKeepsSound(site, user, candidates[1..]);
    }
  }

  lemma RenameKeepsSound(site: Site, page: PageId, slug: string, admitted: bool)
    requires Sound(site) && page < |site.pages|
    ensures Sound(Committed(site, Rename(site, page, slug, admitted)))
  {
  }

  lemma AddKeepsSound(site: Site, page: PageId, slug: string, limit: int)
    requires Sound(site) && page < |site.pages|
    ensures Sound(Committed(site, AddAlias(site, page, slug, limit)))
  {
    hide LinkCount, HasRoom;
  }

  lemma UpdateKeepsSound(site: Site, page: PageId, id: LinkId, slug: Option<string>, active: Option<bool>, limit: int)
    requires Sound(site)
    ensures Sound(Committed(site, UpdateAlias(site, page, id, slug, active, limit)))
  {
    hide LinkCount, HasRoom;
  }

  lemma DeleteKeepsSound(site: Site, page: PageId, id: LinkId)
    requires Sound(site)
    ensures Sound(Committed(site, DeleteAlias(site, page, id)))
  {
    var at := LinkAt(site.links, id);
    if at.Some? {
      var kept := site.links[..at.value] + site.links[at.value + 1..];
      assert forall i :: 0 <= i < |kept| ==> kept[i] == site.links[if i < at.value then i else i + 1];
    }
  }

  lemma ApplyKeepsSound(site: Site, act: Act)
    requires Sound(site)
    ensures Sound(Apply(site, act))
  {
    hide CreatePage, Rename, AddAlias, UpdateAlias, DeleteAlias;
    match act {
      case Create(user, candidates) => CreateKeepsSound(site, user, candidates);
      case RenameTo(page, slug, admitted) => if page < |site.pages| { RenameKeepsSound(site, page, slug, admitted); }
      case GoLive(page, ready, admitted) =>
      case TakeDown(page) =>
      case Add(page, slug, limit) => if page < |site.pages| { AddKeepsSound(site, page, slug, limit); }
      case Update(page, id, slug, active, limit) => UpdateKeepsSound(site, page, id, slug, active, limit);
      case Delete(page, id) => DeleteKeepsSound(site, page, id);
    }
  }

  /** After any serial run no two pages, no two aliases, and no page and alias share a slug. */
  lemma {:induction false} ReachableSitesAreSound(acts: seq<Act>)
    ensures Sound(Replay(acts))
  {
    if acts != [] {
      ReachableSitesAreSound(acts[..|acts| - 1]);
      ApplyKeepsSound(Replay(acts[..|acts| - 1]), acts[|acts| - 1]);
    }
  }

  // ---- which aliases count ----

  /** How many of a plan's links are left for aliases: the primary slug takes one. */
  function AliasRoom(limit: int, held: nat): nat {
    if limit == Catalog.UNLIMITED then held else Max(limit - 1, 0)
  }

  /** The active aliases of the page older than the one at this position. */
  function OlderActive(links: seq<Link>, at: nat): nat
    requires at < |links|
  {
    |ActiveIds(links[..at], links[at].page)|
  }

  /** An alias counts when it is active and few enough active ones are older. */
  predicate Honoured(links: seq<Link>, at: nat, limit: int)
    requires at < |links|
  {
    links[at].active && (limit == Catalog.UNLIMITED || OlderActive(links, at) < limit - 1)
  }

  ghost predicate DistinctIds(links: seq<Link>) {
    forall i, j :: 0 <= i < j < |links| ==> links[i].id != links[j].id
  }

  lemma {:induction false} ActiveIdsOfParts(a: seq<Link>, b: seq<Link>, page: PageId)
    ensures ActiveIds(a + b, page) == ActiveIds(a, page) + ActiveIds(b, page)
  {
    if a == [] {
      assert a + b == b;
    } else {
      var first := if a[0].page == page && a[0].active then [a[0].id] else [];
      ActiveIdsOfParts(a[1..], b, page);
      assert (a + b)[1..] == a[1..] + b;
      assert ActiveIds(a + b, page) == first + (ActiveIds(a[1..], page) + ActiveIds(b, page));
    }
  }

  lemma {:induction false} ActiveIdsComeFromLinks(links: seq<Link>, page: PageId, id: LinkId)
    ensures id in ActiveIds(links, page) <==>
              exists i :: 0 <= i < |links| && links[i].id == id && links[i].page == page && links[i].active
  {
    if links != [] {
      ActiveIdsComeFromLinks(links[1..], page, id);
      assert links == [links[0]] + links[1..];
    }
  }

  lemma FirstActiveId(link: Link, rest: seq<Link>, page: PageId)
    ensures ActiveIds([link] + rest, page)
          == (if link.page == page && link.active then [link.id] else []) + ActiveIds(rest, page)
  {
    assert ([link] + rest)[1..] == rest;
  }

  lemma ActiveIdsAround(links: seq<Link>, at: nat)
    requires at < |links|
    ensures var page := links[at].page;
            ActiveIds(links, page) == ActiveIds(links[..at], page)
                  + ((if links[at].active then [links[at].id] else []) + ActiveIds(links[at + 1..], page))
  {
    hide ActiveIds;
    var link, front, rest := links[at], links[..at], links[at + 1..];
    ActiveIdsOfParts(front, [link] + rest, link.page);
    FirstActiveId(link, rest, link.page);
    SplitAround(links, at);
  }

  lemma SplitAround(links: seq<Link>, at: nat)
    requires at < |links|
    ensures links == links[..at] + ([links[at]] + links[at + 1..])
  {}

  lemma PlaceInSequence(a: seq<LinkId>, here: seq<LinkId>, b: seq<LinkId>, id: LinkId, n: nat)
    requires id !in a && id !in b && (here == [id] || here == []) && n <= |a + (here + b)|
    ensures id in (a + (here + b))[..n] <==> here == [id] && |a| < n
  {
    var all := a + (here + b);
    if here == [id] && |a| < n {
      assert all[..n][|a|] == id;
    } else {
      assert forall i :: 0 <= i < n ==> all[i] in a || all[i] in b;
    }
  }

  /** An active alias stands in its page's list at the number of active ones before it, and nowhere else. */
  lemma PlaceInActiveIds(links: seq<Link>, at: nat, n: nat)
    requires DistinctIds(links) && at < |links| && n <= |ActiveIds(links, links[at].page)|
    ensures links[at].id in ActiveIds(links, links[at].page)[..n] <==> links[at].active && OlderActive(links, at) < n
  {
    hide ActiveIds;
    var link := links[at];
    var older, rest := ActiveIds(links[..at], link.page), ActiveIds(links[at + 1..], link.page);
    ActiveIdsAround(links, at);
    ActiveIdsComeFromLinks(links[..at], link.page, link.id);
    ActiveIdsComeFromLinks(links[at + 1..], link.page, link.id);
    PlaceInSequence(older, if link.active then [link.id] else [], rest, link.id, n);
  }

  function Ids(links: seq<Link>): seq<LinkId> {
    seq(|links|, i requires 0 <= i < |links| => links[i].id)
  }

  /** The list the owner sees and the query the public page makes select the same links in the same order. */
  lemma {:induction false} ActiveAliasesAreActiveIds(links: seq<Link>, page: PageId)
    ensures Ids(ActiveOf(AliasesOf(links, page))) == ActiveIds(links, page)
  {
    if links != [] {
      ActiveAliasesAreActiveIds(links[1..], page);
      var rest := AliasesOf(links[1..], page);
      if links[0].page == page {
        assert ([links[0]] + rest)[1..] == rest;
        assert Ids([links[0]] + ActiveOf(rest)) == [links[0].id] + Ids(ActiveOf(rest));
        assert [] + ActiveOf(rest) == ActiveOf(rest);
      } else {
        assert [] + rest == rest;
      }
      assert [] + ActiveIds(links[1..], page) == ActiveIds(links[1..], page);
    }
  }

  lemma {:induction false} AliasesComeFromLinks(links: seq<Link>, page: PageId, link: Link)
    ensures link in AliasesOf(links, page) <==> link in links && link.page == page
  {
    if links != [] {
      AliasesComeFromLinks(links[1..], page, link);
      assert links == [links[0]] + links[1..];
    }
  }

  lemma {:induction false} ActiveAreNoMore(links: seq<Link>)
    ensures |ActiveOf(links)| <= |links|
  {
    if links != [] {
      ActiveAreNoMore(links[1..]);
    }
  }

  /** The owner's list holds exactly the page's aliases, each flagged exactly when it counts. */
  lemma ListedFlagIsHonoured(site: Site, page: PageId, limit: int, at: nat)
    requires DistinctIds(site.links) && at < |site.links| && site.links[at].page == page && limit >= Catalog.UNLIMITED
    ensures (site.links[at], Honoured(site.links, at, limit)) in ListAliases(site, page, limit)
    ensures (site.links[at], !Honoured(site.links, at, limit)) !in ListAliases(site, page, limit)
  {
    hide ActiveIds, OlderActive;
    var link, all := site.links[at], AliasesOf(site.links, page);
    var active, ids := ActiveOf(all), ActiveIds(site.links, page);
    ActiveAliasesAreActiveIds(site.links, page);
    ActiveAreNoMore(all);
    var n := Min(AliasRoom(limit, |all|), |active|);
    TakenIds(active, n, link.id);
    PlaceInActiveIds(site.links, at, n);
    if link.active {
      PlaceInActiveIds(site.links, at, |ids|);
      ActiveIdsComeFromLinks(site.links, page, link.id);
      assert ids[..|ids|] == ids;
    }
    AliasesComeFromLinks(site.links, page, link);
    var i :| 0 <= i < |all| && all[i] == link;
    assert ListAliases(site, page, limit)[i] == (link, Honoured(site.links, at, limit));
  }

  lemma TakenIds(active: seq<Link>, n: nat, id: LinkId)
    requires n <= |active|
    ensures id in (set link | link in active[..n] :: link.id) <==> id in Ids(active)[..n]
  {
    if id in (set link | link in active[..n] :: link.id) {
      var i :| 0 <= i < n && active[i].id == id;
      assert Ids(active)[..n][i] == id;
    }
    if id in Ids(active)[..n] {
      var i :| 0 <= i < n && Ids(active)[..n][i] == id;
      assert active[..n][i] in active[..n];
    }
  }

  /** A slug leads to a published page exactly when it is the page's own or that of an alias that counts;
      it never leads anywhere else. */
  lemma ResolvesExactly(site: Site, slug: string, limits: UserId -> int, page: PageId)
    requires Sound(site) && forall u :: limits(u) >= Catalog.UNLIMITED
    ensures ResolvePublished(site, slug, limits) == Some(page) <==>
              && page < |site.pages| && site.pages[page].published
              && (site.pages[page].slug == slug
                  || exists at :: 0 <= at < |site.links| && site.links[at].page == page && site.links[at].slug == slug
                       && Honoured(site.links, at, limits(site.pages[page].user)))
  {
    hide ActiveIds, OlderActive;
    var found := ActiveLinkWith(site.links, slug);
    if found.Some? {
      var at := found.value;
      var link := site.links[at];
      var limit := limits(site.pages[link.page].user);
      var ids := ActiveIds(site.links, link.page);
      var n := Min(Max(limit - 1, 0), |ids|);
      PlaceInActiveIds(site.links, at, n);
      PlaceInActiveIds(site.links, at, |ids|);
      ActiveIdsComeFromLinks(site.links, link.page, link.id);
      assert ids[..|ids|] == ids;
    }
  }

  /** A page that is taken down is reached by no slug, and every slug of another page leads where it did. */
  lemma UnpublishedPageIsGone(site: Site, page: PageId, slug: string, limits: UserId -> int)
    requires Sound(site) && page < |site.pages| && forall u :: limits(u) >= Catalog.UNLIMITED
    ensures Sound(Unpublish(site, page))
    ensures var before := ResolvePublished(site, slug, limits);
            ResolvePublished(Unpublish(site, page), slug, limits) == if before == Some(page) then None else before
  {
    var after := Unpublish(site, page);
    var before, now := ResolvePublished(site, slug, limits), ResolvePublished(after, slug, limits);
    hide ResolvePublished;
    ResolvesExactly(site, slug, limits, page);
    ResolvesExactly(after, slug, limits, page);
    if before.Some? {
      ResolvesExactly(site, slug, limits, before.value);
      ResolvesExactly(after, slug, limits, before.value);
    }
    if now.Some? {
      ResolvesExactly(after, slug, limits, now.value);
      ResolvesExactly(site, slug, limits, now.value);
    }
  }

  /** What the owner is told is what visitors get. */
  lemma FlagsAreServed(site: Site, page: PageId, limits: UserId -> int, at: nat)
    requires Sound(site) && page < |site.pages| && at < |site.links| && site.links[at].page == page
    requires forall u :: limits(u) >= Catalog.UNLIMITED
    ensures var limit := limits(site.pages[page].user);
            var served := ResolvePublished(site, site.links[at].slug, limits);
            && (served == Some(page) || served.None?)
            && (served == Some(page) <==>
                  site.pages[page].published && (site.links[at], true) in ListAliases(site, page, limit))
  {
    hide ResolvePublished, ListAliases;
    ListedFlagIsHonoured(site, page, limits(site.pages[page].user), at);
    var served := ResolvePublished(site, site.links[at].slug, limits);
    ResolvesExactly(site, site.links[at].slug, limits, page);
    if served.Some? {
      ResolvesExactly(site, site.links[at].slug, limits, served.value);
    }
  }

  /** links_max values in order, -1 being the largest. */
  predicate AtMost(less: int, more: int) {
    more == Catalog.UNLIMITED || (less != Catalog.UNLIMITED && less <= more)
  }

  /** A larger plan honours everything a smaller one does, and an alias counts no later than any older
      active one: shrinking the plan cuts the list from its newest end. */
  lemma HonouredIsAGrowingPrefix(links: seq<Link>, less: int, more: int, older: nat, at: nat)
    requires older <= at < |links| && links[older].page == links[at].page
    requires AtMost(less, more) && Honoured(links, at, less)
    ensures Honoured(links, at, more)
    ensures links[older].active ==> Honoured(links, older, more)
  {
    assert links[..at] == links[..older] + links[older..at];
    ActiveIdsOfParts(links[..older], links[older..at], links[at].page);
  }

  lemma {:induction false} OlderActiveBelowCount(links: seq<Link>, at: nat)
    requires at < |links| && links[at].active
    ensures OlderActive(links, at) < |ActiveIds(links, links[at].page)|
  {
    ActiveIdsAround(links, at);
  }

  /** An alias that was just added counts, and so does every other active alias of the page. */
  lemma FreshAliasesAreHonoured(site: Site, page: PageId, slug: string, limit: int, at: nat)
    requires AddAlias(site, page, slug, limit).Ok?
    requires var after := AddAlias(site, page, slug, limit).value;
             at < |after.links| && after.links[at].page == page && after.links[at].active
    ensures Honoured(AddAlias(site, page, slug, limit).value.links, at, limit)
  {
    var after := AddAlias(site, page, slug, limit).value;
    var last := |site.links|;
    assert after.links[..last] == site.links;
    assert after.links[last + 1..] == [];
    ActiveIdsAround(after.links, last);
    OlderActiveBelowCount(after.links, at);
  }

  lemma CountAfterReactivation(links: seq<Link>, at: nat, link: Link)
    requires at < |links| && !links[at].active && link.active && link.page == links[at].page
    ensures |ActiveIds(links[at := link], link.page)| == |ActiveIds(links, link.page)| + 1
  {
    hide ActiveIds;
    var after := links[at := link];
    ActiveIdsAround(links, at);
    ActiveIdsAround(after, at);
    assert after[..at] == links[..at] && after[at + 1..] == links[at + 1..];
  }

  /** The same for an alias switched back on. */
  lemma ReactivatedAliasesAreHonoured(site: Site, page: PageId, id: LinkId, slug: Option<string>, limit: int, at: nat)
    requires LinkAt(site.links, id).Some? && !site.links[LinkAt(site.links, id).value].active
    requires UpdateAlias(site, page, id, slug, Some(true), limit).Ok?
    requires var after := UpdateAlias(site, page, id, slug, Some(true), limit).value;
             at < |after.links| && after.links[at].page == page && after.links[at].active
    ensures Honoured(UpdateAlias(site, page, id, slug, Some(true), limit).value.links, at, limit)
  {
    hide ActiveIds, OnPage, OnLink;
    var after := UpdateAlias(site, page, id, slug, Some(true), limit).value;
    var i := LinkAt(site.links, id).value;
    assert after.links == site.links[i := after.links[i]];
    CountAfterReactivation(site.links, i, after.links[i]);
    OlderActiveBelowCount(after.links, at);
  }
}
