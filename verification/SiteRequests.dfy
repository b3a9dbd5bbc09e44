/** What the requests of a page's owner may do, told from the site before and after them: which are accepted, what
    they change, and that they change nobody else's page. */
module SiteRequests {
  import opened Wrappers
  import Catalog
  import opened Aliases

  /** No page, and no alias but this one, has the slug. */
  predicate Free(site: Site, slug: string, except: Option<LinkId>) {
    && (forall p :: 0 <= p < |site.pages| ==> site.pages[p].slug != slug)
    && (forall i :: 0 <= i < |site.links| && except != Some(site.links[i].id) ==> site.links[i].slug != slug)
  }

  function ActiveAt(links: seq<Link>, page: PageId): set<nat> {
    set i | 0 <= i < |links| && links[i].page == page && links[i].active
  }

  /** The plan has room for one more link beside the page's own slug and its active aliases. */
  predicate Room(site: Site, page: PageId, limit: int) {
    limit == Catalog.UNLIMITED || 1 + |ActiveAt(site.links, page)| < limit
  }

  lemma {:induction false} ActiveAreCounted(links: seq<Link>, page: PageId)
    ensures |ActiveIds(links, page)| == |ActiveAt(links, page)|
    decreases |links|
  {
    if links != [] {
      var n := |links| - 1;
      ActiveAreCounted(links[..n], page);
      assert links == links[..n] + [links[n]];
      ActiveIdsOfParts(links[..n], [links[n]], page);
      OneActiveId(links[n], page);
      OneMoreActive(links, page);
      hide ActiveIds, ActiveAt;
    }
  }

  lemma OneMoreActive(links: seq<Link>, page: PageId)
    requires links != []
    ensures var n := |links| - 1;
            |ActiveAt(links, page)| == |ActiveAt(links[..n], page)| + if links[n].page == page
                  && links[n].active then 1 else 0
  {
    var n := |links| - 1;
    assert ActiveAt(links, page)
        == ActiveAt(links[..n], page) + if links[n].page == page && links[n].active then {n} else {};
  }

  lemma OneActiveId(link: Link, page: PageId)
    ensures ActiveIds([link], page) == if link.page == page && link.active then [link.id] else []
  {
    assert [link][1..] == [];
  }

  lemma RoomIsCounted(site: Site, page: PageId, limit: int)
    ensures HasRoom(limit, LinkCount(site.links, page)) <==> Room(site, page, limit)
  {
    ActiveAreCounted(site.links, page);
  }

  // ---- what is accepted, and what it does ----

  /** A user without a page gets one, unpublished, under the first free candidate; with none free they get none. */
  lemma {:induction false} CreationOutcome(site: Site, user: UserId, candidates: seq<string>)
    ensures var created := CreatePage(site, user, candidates);
            if exists p :: 0 <= p < |site.pages| && site.pages[p].user == user then created == Ok(site)
            else if forall i :: 0 <= i < |candidates| ==> !Free(site, candidates[i], None) then
              created == Err(NoUniqueSlug)
            else
              exists i :: 0 <= i < |candidates| && Free(site, candidates[i], None)
                && (forall j :: 0 <= j < i ==> !Free(site, candidates[j], None))
                && created == Ok(site.(pages := site.pages + [Page(user, candidates[i], false)]))
    decreases |candidates|
  {
    if PageOf(site.pages, user).None? && candidates != [] && !Free(site, candidates[0], None) {
      CreationOutcome(site, user, candidates[1..]);
      hide Free;
      if i :| 0 <= i < |candidates[1..]| && Free(site, candidates[1..][i], None)
              && (forall j :: 0 <= j < i ==> !Free(site, candidates[1..][j], None))
              && CreatePage(site, user, candidates[1..])
                   == Ok(site.(pages := site.pages + [Page(user, candidates[1..][i], false)])) {
        assert Free(site, candidates[i + 1], None);
        assert forall j :: 0 < j < i + 1 ==> candidates[j] == candidates[1..][j - 1];
      } else {
        assert forall i :: 0 < i < |candidates| ==> candidates[i] == candidates[1..][i - 1];
      }
    }
  }

  /** A rename to the slug the page has is free; any other needs a slug nobody holds and a unit of the quota. It
      changes this page's slug and nothing else. */
  lemma RenameOutcome(site: Site, page: PageId, slug: string, admitted: bool)
    requires Sound(site) && page < |site.pages|
    ensures var renamed := Rename(site, page, slug, admitted);
            var same := slug == site.pages[page].slug;
            && (renamed.Ok? <==> same || (Free(site, slug, None) && admitted))
            && (renamed == Err(Conflict) <==> !same && !Free(site, slug, None))
            && (renamed == Err(LimitReached) <==> !same && Free(site, slug, None) && !admitted)
            && (renamed.Ok? ==>
                  && renamed.value.links == site.links && |renamed.value.pages| == |site.pages|
                  && renamed.value.pages[page] == Page(site.pages[page].user, slug, site.pages[page].published)
                  && forall p :: 0 <= p < |site.pages| && p != page ==> renamed.value.pages[p] == site.pages[p])
  {}

  /** A page goes live exactly when everything is ready and, unless it is live already, a unit of the quota is left. */
  lemma PublicationOutcome(site: Site, page: PageId, ready: bool, admitted: bool)
    requires page < |site.pages|
    ensures var live := Publish(site, page, ready, admitted);
            var was := site.pages[page];
            && (live == Err(NotReady) <==> !ready)
            && (live == Err(LimitReached) <==> ready && !was.published && !admitted)
            && (live.Ok? <==> ready && (was.published || admitted))
            && (live.Ok? ==>
                  && live.value.links == site.links && |live.value.pages| == |site.pages|
                  && live.value.pages[page] == Page(was.user, was.slug, true)
                  && forall p :: 0 <= p < |site.pages| && p != page ==> live.value.pages[p] == site.pages[p])
  {}

  /** An alias is added exactly when the plan has room and nobody holds the slug: at the end, active, under an id no
      other alias has. */
  lemma AdditionOutcome(site: Site, page: PageId, slug: string, limit: int)
    requires Sound(site)
    ensures var added := AddAlias(site, page, slug, limit);
            && (added.Ok? <==> Room(site, page, limit) && Free(site, slug, None))
            && (added == Err(LimitReached) <==> !Room(site, page, limit))
            && (added == Err(Conflict) <==> Room(site, page, limit) && !Free(site, slug, None))
            && (added.Ok? ==>
                  && added.value.pages == site.pages && |added.value.links| == |site.links| + 1
                  && added.value.links[..|site.links|] == site.links
                  && var link := added.value.links[|site.links|];
                  && link.page == page && link.slug == slug && link.active
                  && forall l :: l in site.links ==> l.id != link.id)
  {
    RoomIsCounted(site, page, limit);
    hide Room, HasRoom, LinkCount;
  }

  /** An alias of the page's own takes a slug nobody else holds, and is switched on while the plan has room; it gets
      what was asked for and keeps what was not, and no other alias changes. */
  lemma UpdateOutcome(site: Site, page: PageId, at: nat, slug: Option<string>, active: Option<bool>, limit: int)
    requires Sound(site) && at < |site.links|
    ensures var link := site.links[at];
            var updated := UpdateAlias(site, page, link.id, slug, active, limit);
            var taken := slug.Some? && slug.value != link.slug && !Free(site, slug.value, Some(link.id));
            var full := active == Some(true) && !link.active && !Room(site, page, limit);
            && (updated == Err(NotFound) <==> link.page != page)
            && (updated == Err(Conflict) <==> link.page == page && taken)
            && (updated == Err(LimitReached) <==> link.page == page && !taken && full)
            && (updated.Ok? <==> link.page == page && !taken && !full)
            && (updated.Ok? ==>
                  && updated.value.pages == site.pages && |updated.value.links| == |site.links|
                  && updated.value.links[at] == Link(link.id, link.page, if slug.Some? then slug.value else link.slug,
                                                    if active.Some? then active.value else link.active)
                  && forall i :: 0 <= i < |site.links| && i != at ==> updated.value.links[i] == site.links[i])
  {
    var link := site.links[at];
    assert LinkAt(site.links, link.id) == Some(at);
    RoomIsCounted(site, page, limit);
    hide Room, HasRoom, LinkCount;
  }

  /** An alias of the page's own goes, and no other. */
  lemma DeletionOutcome(site: Site, page: PageId, at: nat)
    requires Sound(site) && at < |site.links|
    ensures var deleted := DeleteAlias(site, page, site.links[at].id);
            && (deleted.Ok? <==> site.links[at].page == page) && (deleted.Err? ==> deleted.error == NotFound)
            && (deleted.Ok? ==>
                  && deleted.value.pages == site.pages && |deleted.value.links| == |site.links| - 1
                  && forall i :: 0 <= i < |site.links| && i != at ==>
                       deleted.value.links[if i < at then i else i - 1] == site.links[i])
  {
    assert LinkAt(site.links, site.links[at].id) == Some(at);
  }

  /** A request for an alias there is not. */
  lemma UnknownAlias(site: Site, page: PageId, id: LinkId, slug: Option<string>, active: Option<bool>, limit: int)
    requires forall l :: l in site.links ==> l.id != id
    ensures UpdateAlias(site, page, id, slug, active, limit) == Err(NotFound)
    ensures DeleteAlias(site, page, id) == Err(NotFound)
  {}

  // ---- over whole runs ----

  lemma PagesStay(site: Site, act: Act, page: PageId)
    requires page < |site.pages|
    ensures page < |Apply(site, act).pages| && Apply(site, act).pages[page].user == site.pages[page].user
    ensures Apply(site, act).pages[page].published <==>
              if act.TakeDown? && act.page == page then false
              else site.pages[page].published
                   || (act.GoLive? && act.page == page && act.ready && act.admitted)
  {
    if act.Create? {
      CreationOutcome(site, act.user, act.candidates);
    }
    hide CreatePage, LinkAt, OnPage, OnLink, HasRoom, LinkCount;
  }

  lemma NewPagesAreHidden(site: Site, act: Act, page: PageId)
    requires |site.pages| <= page < |Apply(site, act).pages|
    ensures !Apply(site, act).pages[page].published
  {
    if act.Create? {
      CreationOutcome(site, act.user, act.candidates);
    }
    hide CreatePage, LinkAt, OnPage, OnLink, HasRoom, LinkCount;
  }

  /** The last word on the page was a publication with everything ready and a unit of the quota. */
  predicate PutLiveAt(acts: seq<Act>, page: PageId, n: nat) {
    && n < |acts| && acts[n] == GoLive(page, true, true) && page < |Replay(acts[..n]).pages|
    && forall m :: n < m < |acts| ==> acts[m] != TakeDown(page)
  }

  /** Over any run a page is live exactly when somebody published it ready and within the quota, and nobody has taken
      it down since: nothing else publishes a page or hides one. */
  lemma {:induction false} LiveExactlyWhen(acts: seq<Act>, page: PageId)
    requires page < |Replay(acts).pages|
    ensures Replay(acts).pages[page].published <==> exists n: nat :: PutLiveAt(acts, page, n)
    decreases |acts|
  {
    hide Apply;
    if acts != [] {
      var k := |acts| - 1;
      var before := acts[..k];
      if page < |Replay(before).pages| {
        LiveExactlyWhen(before, page);
        PagesStay(Replay(before), acts[k], page);
        PutLiveEarlier(acts, page);
        if acts[k] == GoLive(page, true, true) {
          assert PutLiveAt(acts, page, k);
        }
      } else {
        NewPagesAreHidden(Replay(before), acts[k], page);
        NotYetThere(acts, page);
      }
    }
  }

  lemma PutLiveEarlier(acts: seq<Act>, page: PageId)
    requires acts != []
    ensures var k := |acts| - 1;
            (exists n: nat :: PutLiveAt(acts, page, n)) <==>
              || (acts[k] == GoLive(page, true, true) && page < |Replay(acts[..k]).pages|)
              || (acts[k] != TakeDown(page) && exists n: nat :: PutLiveAt(acts[..k], page, n))
  {
    var k := |acts| - 1;
    hide Replay;
    if n: nat :| PutLiveAt(acts, page, n) {
      if n < k {
        assert acts[..k][..n] == acts[..n];
        assert PutLiveAt(acts[..k], page, n);
      }
    }
    if acts[k] != TakeDown(page) {
      if n: nat :| PutLiveAt(acts[..k], page, n) {
        assert acts[..k][..n] == acts[..n];
        assert PutLiveAt(acts, page, n);
      }
    }
    if acts[k] == GoLive(page, true, true) && page < |Replay(acts[..k]).pages| {
      assert PutLiveAt(acts, page, k);
    }
  }

  lemma {:induction false} PagesOnlyGrow(acts: seq<Act>, n: nat)
    requires n <= |acts|
    ensures |Replay(acts[..n]).pages| <= |Replay(acts).pages|
    decreases |acts|
  {
    hide Apply;
    if n == |acts| {
      assert acts[..n] == acts;
    } else {
      var k := |acts| - 1;
      PagesOnlyGrow(acts[..k], n);
      assert acts[..k][..n] == acts[..n];
      var site := Replay(acts[..k]);
      if |site.pages| > 0 {
        PagesStay(site, acts[k], |site.pages| - 1);
      }
    }
  }

  lemma NotYetThere(acts: seq<Act>, page: PageId)
    requires acts != [] && page >= |Replay(acts[..|acts| - 1]).pages|
    ensures !exists n: nat :: PutLiveAt(acts, page, n)
  {
    var k := |acts| - 1;
    forall n: nat | n <= k ensures page >= |Replay(acts[..n]).pages| {
      PagesOnlyGrow(acts[..k], n);
      assert acts[..k][..n] == acts[..n];
    }
  }

  // ---- how many aliases count ----

  function HonouredAt(links: seq<Link>, page: PageId, limit: int): set<nat> {
    set i | 0 <= i < |links| && links[i].page == page && Honoured(links, i, limit)
  }

  /** The aliases that count fill the plan exactly: all active ones if it is unlimited or has room for them, and
      otherwise as many as it allows beside the page's own slug. */
  lemma {:induction false} HonouredFillThePlan(links: seq<Link>, page: PageId, limit: int)
    requires limit >= Catalog.UNLIMITED
    ensures |HonouredAt(links, page, limit)| ==
              if limit == Catalog.UNLIMITED || |ActiveAt(links, page)| + 1 <= limit then |ActiveAt(links, page)|
              else if limit == 0 then 0 else limit - 1
    decreases |links|
  {
    if links != [] {
      var n := |links| - 1;
      HonouredFillThePlan(links[..n], page, limit);
      OneMoreActive(links, page);
      OneMoreHonoured(links, page, limit);
      hide ActiveAt, HonouredAt;
    }
  }

  lemma OneMoreHonoured(links: seq<Link>, page: PageId, limit: int)
    requires links != []
    ensures var n := |links| - 1;
            |HonouredAt(links, page, limit)| == |HonouredAt(links[..n], page, limit)|
              + if links[n].page == page && links[n].active
                   && (limit == Catalog.UNLIMITED || |ActiveAt(links[..n], page)| < limit - 1) then 1 else 0
  {
    var n := |links| - 1;
    ActiveAreCounted(links[..n], page);
    hide ActiveIds;
    forall i | 0 <= i < n ensures Honoured(links, i, limit) <==> Honoured(links[..n], i, limit) {
      assert links[..n][..i] == links[..i];
    }
    assert HonouredAt(links, page, limit) == HonouredAt(links[..n], page, limit)
        + if links[n].page == page && Honoured(links, n, limit) then {n} else {};
  }

  // ---- and nobody else's page ----

  /** The page a request is about; a new page is about itself. */
  function Target(act: Act): Option<PageId> {
    match act
    case Create(_, _) => None
    case RenameTo(page, _, _) => Some(page)
    case GoLive(page, _, _) => Some(page)
    case TakeDown(page) => Some(page)
    case Add(page, _, _) => Some(page)
    case Update(page, _, _, _, _) => Some(page)
    case Delete(page, _) => Some(page)
  }

  lemma {:induction false} AliasesOfParts(a: seq<Link>, b: seq<Link>, page: PageId)
    ensures AliasesOf(a + b, page) == AliasesOf(a, page) + AliasesOf(b, page)
  {
    if a == [] {
      assert a + b == b;
    } else {
      var first := if a[0].page == page then [a[0]] else [];
      AliasesOfParts(a[1..], b, page);
      assert (a + b)[1..] == a[1..] + b;
      assert AliasesOf(a + b, page) == first + (AliasesOf(a[1..], page) + AliasesOf(b, page));
    }
  }

  /** Taking out, or exchanging, the alias of another page. */
  lemma OtherAliases(links: seq<Link>, at: nat, put: seq<Link>, page: PageId)
    requires at < |links| && links[at].page != page && |put| <= 1 && forall l :: l in put ==> l.page != page
    ensures AliasesOf(links[..at] + (put + links[at + 1..]), page) == AliasesOf(links, page)
  {
    NotOfThePage(put, page);
    NotOfThePage([links[at]], page);
    hide AliasesOf;
    SplitAround(links, at);
    AliasesOfParts(links[..at], [links[at]] + links[at + 1..], page);
    AliasesOfParts([links[at]], links[at + 1..], page);
    AliasesOfParts(links[..at], put + links[at + 1..], page);
    AliasesOfParts(put, links[at + 1..], page);
  }

  lemma NotOfThePage(links: seq<Link>, page: PageId)
    requires |links| <= 1 && forall l :: l in links ==> l.page != page
    ensures AliasesOf(links, page) == []
  {
    assert links != [] ==> links[0] in links && links[1..] == [];
  }

  lemma AdditionsStayOnTheirPage(site: Site, other: PageId, slug: string, limit: int, page: PageId)
    requires other != page
    ensures AliasesOf(Committed(site, AddAlias(site, other, slug, limit)).links, page) == AliasesOf(site.links, page)
  {
    hide AliasesOf, OnPage, OnLink, HasRoom, LinkCount;
    var put := [Link(site.nextLink, other, slug, true)];
    AliasesOfParts(site.links, put, page);
    NotOfThePage(put, page);
  }

  lemma UpdatesStayOnTheirPage(site: Site, other: PageId, id: LinkId, slug: Option<string>, active: Option<bool>,
          limit: int, page: PageId)
    requires other != page
    ensures AliasesOf(Committed(site, UpdateAlias(site, other, id, slug, active, limit)).links, page)
         == AliasesOf(site.links, page)
  {
    hide AliasesOf, OnPage, OnLink, HasRoom, LinkCount;
    var updated := UpdateAlias(site, other, id, slug, active, limit);
    if updated.Ok? {
      var at := LinkAt(site.links, id).value;
      var link := updated.value.links[at];
      OtherAliases(site.links, at, [link], page);
      Exchanged(site.links, at, link);
    }
  }

  lemma Exchanged(links: seq<Link>, at: nat, link: Link)
    requires at < |links|
    ensures links[at := link] == links[..at] + ([link] + links[at + 1..])
  {}

  lemma DeletionsStayOnTheirPage(site: Site, other: PageId, id: LinkId, page: PageId)
    requires other != page
    ensures AliasesOf(Committed(site, DeleteAlias(site, other, id)).links, page) == AliasesOf(site.links, page)
  {
    hide AliasesOf;
    if DeleteAlias(site, other, id).Ok? {
      var at := LinkAt(site.links, id).value;
      OtherAliases(site.links, at, [], page);
      assert [] + site.links[at + 1..] == site.links[at + 1..];
    }
  }

  /** A request about one page leaves every other page and its aliases as they were. */
  lemma RequestsStayOnTheirPage(site: Site, act: Act, page: PageId)
    requires page < |site.pages| && Target(act) != Some(page)
    ensures var after := Apply(site, act);
            page < |after.pages| && after.pages[page] == site.pages[page]
            && AliasesOf(after.links, page) == AliasesOf(site.links, page)
  {
    hide AliasesOf, OnPage, OnLink, HasRoom, LinkCount, LinkAt, CreatePage;
    match act
    case Create(user, candidates) => CreationOutcome(site, user, candidates);
    case Add(other, slug, limit) => AdditionsStayOnTheirPage(site, other, slug, limit, page);
    case Update(other, id, slug, active, limit) =>
      UpdatesStayOnTheirPage(site, other, id, slug, active, limit, page);
    case Delete(other, id) => DeletionsStayOnTheirPage(site, other, id, page);
    case _ =>
  }
}
