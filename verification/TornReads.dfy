/** A resolution is several statements. Which requests, landing between the first of them and the last, can make
    an answer of parts that were never current together, and which cannot. */
module TornReads {
  import opened Wrappers
  import opened Calendar
  import opened Catalog
  import Durations
  import opened Entitlements
  import opened Billing
  import opened BillingInvariants
  import opened EntitlementTables
  import opened SlowReads

  /** What a request can change of a resolution, in the order in which the statements read it: the subscription,
      the name of the free plan, the features, the overrides. */
  datatype Kind = Billing | Renaming | Editing | Overriding

  function Rank(k: Kind): nat {
    match k
    case Billing => 0
    case Renaming => 1
    case Editing => 2
    case Overriding => 3
  }

  /** Making and dropping a plan changes nobody's resolution: no row names it. */
  function KindOf(q: Request): Option<Kind> {
    match q
    case Bill(_) => Some(Billing)
    case RenamePlan(_, _) => Some(Renaming)
    case EditPlan(_, _, _) => Some(Editing)
    case PutOverride(_, _, _, _) => Some(Overriding)
    case DropOverride(_, _, _) => Some(Overriding)
    case AddPlan(_, _, _, _) => None
    case DropPlan(_) => None
  }

  /** The tables before and after each of the requests that land while a read is running. */
  ghost predicate IsPath(states: seq<Tables>, history: seq<Stamped>) {
    && |states| == |history| + 1
    && forall i :: 0 <= i < |history| ==>
         && Accepted(states[i], history[i].request)
         && states[i + 1] == Handled(states[i], history[i].request, history[i].now)
  }

  /** No request comes before one of a kind that is read later. */
  predicate Descending(history: seq<Stamped>) {
    forall p, q :: 0 <= p < q < |history| ==> InDescent(history[p].request, history[q].request)
  }

  predicate InDescent(first: Request, second: Request) {
    KindOf(first).Some? && KindOf(second).Some? ==> Rank(KindOf(first).value) >= Rank(KindOf(second).value)
  }

  ghost predicate AllExist(states: seq<Tables>) {
    forall i :: 0 <= i < |states| ==> PlansExist(states[i].db)
  }

  /** A read whose first statement saw the first tables and whose last saw the last, with the free plan read at j
      and the features at k, answers the resolution of tables on the way. */
  ghost predicate Untorn(states: seq<Tables>, j: nat, k: nat, user: UserId, at: Instant)
    requires j < |states| && k < |states| && AllExist(states)
  {
    exists m :: 0 <= m < |states| && Mixed(states[0].db, states[j].db, states[k].db, states[|states| - 1].db, user, at)
                                      == Resolve(states[m].db, user, at)
  }

  // ---- what each request leaves alone ----

  /** The plan is the fallback, or somebody has or had it; either way it cannot be dropped. */
  predicate Held(t: Tables, slug: string) {
    t.db.defaultFree == Some(slug) || Named(t.books, slug)
  }

  /** The part of a resolution that requests of this kind can change. */
  predicate SamePart(k: Kind, a: Tables, b: Tables, slug: string)
    requires slug in a.db.plans && slug in b.db.plans
  {
    match k
    case Billing => a.db.subscriptions == b.db.subscriptions
    case Renaming => a.db.plans[slug].name == b.db.plans[slug].name
    case Editing => a.db.plans[slug].features == b.db.plans[slug].features
    case Overriding => a.db.overrides == b.db.overrides
  }

  lemma BillingKeepsNames(b: Books, act: Act, now: Instant, slug: string)
    requires Sound(b) && Named(b, slug)
    ensures Named(Apply(b, act, now), slug)
  {
    ApplyExtends(b, act, now);
    hide Apply, Sound;
    var s :| s in b.subscriptions && s.plan == slug;
    var i :| 0 <= i < |b.subscriptions| && b.subscriptions[i] == s;
    var after := Apply(b, act, now).subscriptions;
    assert after[..|b.subscriptions|][i].plan == slug && after[i] in after;
  }

  lemma RequestKeepsHeld(t: Tables, q: Request, now: Instant, slug: string)
    requires SoundTables(t) && Accepted(t, q) && Held(t, slug)
    ensures Held(Handled(t, q, now), slug) && Handled(t, q, now).db.defaultFree == t.db.defaultFree
  {
    match q
    case Bill(act) => if Named(t.books, slug) { BillingKeepsNames(t.books, act, now, slug); }
    case _ =>
  }

  lemma HeldPlansExist(t: Tables, slug: string)
    requires SoundTables(t) && Held(t, slug)
    ensures slug in t.db.plans
  {}

  lemma RequestKeepsParts(t: Tables, q: Request, now: Instant, slug: string, k: Kind)
    requires SoundTables(t) && Accepted(t, q) && Held(t, slug) && KindOf(q) != Some(k)
    ensures slug in t.db.plans && slug in Handled(t, q, now).db.plans && SamePart(k, t, Handled(t, q, now), slug)
  {
    HeldPlansExist(t, slug);
    RequestKeepsTables(t, q, now);
    RequestKeepsHeld(t, q, now, slug);
    HeldPlansExist(Handled(t, q, now), slug);
    hide SoundTables, Apply, IsNewPlan, Edited, OverrideSet, OverrideDeleted;
  }

  lemma {:induction false} PathStaysSound(states: seq<Tables>, history: seq<Stamped>, n: nat)
    requires IsPath(states, history) && SoundTables(states[0]) && n <= |history|
    ensures SoundTables(states[n])
  {
    hide SoundTables, Accepted, Handled;
    if n > 0 {
      PathStaysSound(states, history, n - 1);
      RequestKeepsTables(states[n - 1], history[n - 1].request, history[n - 1].now);
    }
  }

  lemma {:induction false} PathKeepsHeld(states: seq<Tables>, history: seq<Stamped>, slug: string, n: nat)
    requires IsPath(states, history) && SoundTables(states[0]) && Held(states[0], slug) && n <= |history|
    ensures SoundTables(states[n]) && Held(states[n], slug) && states[n].db.defaultFree == states[0].db.defaultFree
    ensures slug in states[n].db.plans
  {
    hide SoundTables, Accepted, Handled, Held;
    PathStaysSound(states, history, n);
    if n > 0 {
      PathStaysSound(states, history, n - 1);
      PathKeepsHeld(states, history, slug, n - 1);
      RequestKeepsHeld(states[n - 1], history[n - 1].request, history[n - 1].now, slug);
    }
    HeldPlansExist(states[n], slug);
  }

  /** Over a stretch without requests of a kind, its part stays. */
  lemma {:induction false} StretchKeepsPart(states: seq<Tables>, history: seq<Stamped>, slug: string, k: Kind,
          x: nat, y: nat)
    requires IsPath(states, history) && SoundTables(states[0]) && Held(states[0], slug) && x <= y <= |history|
    requires forall p :: x <= p < y ==> KindOf(history[p].request) != Some(k)
    ensures slug in states[x].db.plans && slug in states[y].db.plans && SamePart(k, states[x], states[y], slug)
    decreases y
  {
    hide SoundTables, Accepted, Handled, Held, KindOf;
    PathKeepsHeld(states, history, slug, x);
    PathKeepsHeld(states, history, slug, y);
    if x < y {
      PathKeepsHeld(states, history, slug, y - 1);
      StretchKeepsPart(states, history, slug, k, x, y - 1);
      RequestKeepsParts(states[y - 1], history[y - 1].request, history[y - 1].now, slug, k);
    }
  }

  // ---- requests in descending order never tear a read ----

  predicate AtLeast(q: Request, rank: nat) {
    KindOf(q).Some? && Rank(KindOf(q).value) >= rank
  }

  /** Where the last request of this rank or a higher one has been handled. */
  function EndOf(history: seq<Stamped>, rank: nat, n: nat): (e: nat)
    requires n <= |history|
    ensures e <= n
  {
    if n == 0 || AtLeast(history[n - 1].request, rank) then n else EndOf(history, rank, n - 1)
  }

  lemma {:induction false} EndOfIsTheEnd(history: seq<Stamped>, rank: nat, n: nat)
    requires n <= |history|
    ensures var e := EndOf(history, rank, n);
            && (forall p :: e <= p < n ==> !AtLeast(history[p].request, rank))
            && (e > 0 ==> AtLeast(history[e - 1].request, rank))
  {
    if n > 0 && !AtLeast(history[n - 1].request, rank) {
      EndOfIsTheEnd(history, rank, n - 1);
    }
  }

  /** The requests of kind k lie between the end of the higher ranks and the end of its own: a stretch that
      stops before or starts after them keeps its part. */
  lemma QuietStretch(states: seq<Tables>, history: seq<Stamped>, slug: string, k: Kind, x: nat, y: nat)
    requires IsPath(states, history) && SoundTables(states[0]) && Held(states[0], slug) && Descending(history)
    requires x <= y <= |history| && Outside(history, k, x, y)
    ensures slug in states[x].db.plans && slug in states[y].db.plans
    ensures SamePart(k, states[x], states[y], slug) && SamePart(k, states[y], states[x], slug)
  {
    hide IsPath, SoundTables, Held, EndOf;
    var e := EndOf(history, Rank(k) + 1, |history|);
    EndOfIsTheEnd(history, Rank(k) + 1, |history|);
    EndOfIsTheEnd(history, Rank(k), |history|);
    forall p | x <= p < y ensures KindOf(history[p].request) != Some(k) {
      assert p + 1 < e ==> InDescent(history[p].request, history[e - 1].request);
    }
    hide Descending, EndOf;
    StretchKeepsPart(states, history, slug, k, x, y);
  }

  lemma EndsAscend(history: seq<Stamped>, rank: nat)
    ensures EndOf(history, rank + 1, |history|) <= EndOf(history, rank, |history|)
  {
    EndOfIsTheEnd(history, rank, |history|);
    EndOfIsTheEnd(history, rank + 1, |history|);
  }

  /** The tables that an untorn answer comes from. */
  function Witness(history: seq<Stamped>, j: nat, k: nat): nat {
    var e1, e2, e3 := EndOf(history, 1, |history|), EndOf(history, 2, |history|), EndOf(history, 3, |history|);
    if k <= e3 then e3 else if k <= e2 then k else if j <= e2 then e2 else if j <= e1 then j else e1
  }

  predicate Outside(history: seq<Stamped>, k: Kind, x: nat, y: nat) {
    x == y || (x <= y && (y <= EndOf(history, Rank(k) + 1, |history|) || EndOf(history, Rank(k), |history|) <= x))
  }

  lemma WitnessPlace(history: seq<Stamped>, j: nat, k: nat)
    requires j <= k <= |history|
    ensures var n, m := |history|, Witness(history, j, k);
            && m <= n && Outside(history, Billing, 0, m) && Outside(history, Overriding, m, n)
            && (Outside(history, Renaming, j, m) || Outside(history, Renaming, m, j))
            && (Outside(history, Editing, k, m) || Outside(history, Editing, m, k))
  {
    EndsAscend(history, 1);
    EndsAscend(history, 2);
    hide EndOf;
  }

  /** Each part of the answer is the one the witness has. */
  lemma WitnessHasEveryPart(states: seq<Tables>, history: seq<Stamped>, slug: string, j: nat, k: nat)
    requires IsPath(states, history) && SoundTables(states[0]) && Held(states[0], slug) && Descending(history)
    requires j <= k <= |history|
    ensures var m := Witness(history, j, k);
            && m <= |history| && slug in states[m].db.plans
            && slug in states[0].db.plans && slug in states[j].db.plans && slug in states[k].db.plans
            && slug in states[|history|].db.plans
            && SamePart(Billing, states[0], states[m], slug) && SamePart(Renaming, states[j], states[m], slug)
            && SamePart(Editing, states[k], states[m], slug) && SamePart(Overriding, states[m], states[|history|], slug)
  {
    hide Witness, IsPath, SoundTables, Held, Descending, SamePart;
    var n, m := |history|, Witness(history, j, k);
    WitnessPlace(history, j, k);
    OutsideIsOrdered(history, Renaming, j, m);
    OutsideIsOrdered(history, Editing, k, m);
    hide Outside;
    QuietStretch(states, history, slug, Billing, 0, m);
    QuietStretch(states, history, slug, Overriding, m, n);
    if Outside(history, Renaming, j, m) {
      QuietStretch(states, history, slug, Renaming, j, m);
    } else {
      QuietStretch(states, history, slug, Renaming, m, j);
    }
    if Outside(history, Editing, k, m) {
      QuietStretch(states, history, slug, Editing, k, m);
    } else {
      QuietStretch(states, history, slug, Editing, m, k);
    }
  }

  lemma OutsideIsOrdered(history: seq<Stamped>, k: Kind, x: nat, y: nat)
    ensures Outside(history, k, x, y) ==> x <= y
    ensures Outside(history, k, y, x) ==> y <= x
  {}

  lemma MixFromParts(s0: Tables, sj: Tables, sk: Tables, sn: Tables, sm: Tables, user: UserId, at: Instant,
          slug: string)
    requires SoundTables(s0) && SoundTables(sj) && SoundTables(sk) && SoundTables(sn) && SoundTables(sm)
    requires s0.db.defaultFree == sj.db.defaultFree == sm.db.defaultFree
    requires slug in s0.db.plans && slug in sj.db.plans && slug in sk.db.plans && slug in sn.db.plans
          && slug in sm.db.plans
    requires SamePart(Billing, s0, sm, slug) && SamePart(Editing, sk, sm, slug) && SamePart(Overriding, sm, sn, slug)
    requires var live := LiveSubscription(s0.db.subscriptions, user, at);
             if live.Some? then live.value.plan == slug && SamePart(Renaming, s0, sm, slug)
             else s0.db.defaultFree == Some(slug) && SamePart(Renaming, sj, sm, slug)
    ensures PlansExist(s0.db) && PlansExist(sj.db) && PlansExist(sm.db)
    ensures Mixed(s0.db, sj.db, sk.db, sn.db, user, at) == Resolve(sm.db, user, at)
  {
    assert PlansExist(s0.db) && PlansExist(sj.db) && PlansExist(sm.db);
    hide SoundTables, PlansExist, Resolve;
    OneStateResolves(sm.db, user, at);
    LiveSubscriptionIsTheLiveRow(s0.db.subscriptions, user, at);
    var c := Chosen(sm.db, sm.db, user, at).value;
    assert Chosen(s0.db, sj.db, user, at) == Some(c) && c.slug == slug;
    OnlyOverridesMatter(c, sm.db.plans[slug].features, sm.db, sn.db, user, at);
    hide Assembled;
  }

  /** Requests that land in descending order, any number of them, plans made and dropped among them, never tear a
      read: its answer is the resolution of tables that were there while it ran. In particular requests of one
      kind never do, and a single request never does. */
  lemma DescendingRequestsNeverTear(states: seq<Tables>, history: seq<Stamped>, j: nat, k: nat, user: UserId,
          at: Instant)
    requires IsPath(states, history) && SoundTables(states[0]) && Descending(history) && j <= k <= |history|
    ensures AllExist(states) && Untorn(states, j, k, user, at)
  {
    hide SoundTables, PlansExist, IsPath, Descending, Held, SamePart, Witness, Resolve, Mixed, LiveSubscription;
    var n := |history|;
    assert |states| == n + 1 by { PathIsLong(states, history); }
    forall i: nat | i <= n ensures SoundTables(states[i]) && PlansExist(states[i].db) {
      PathStaysSound(states, history, i);
      SoundPlansExist(states[i]);
    }
    var live := LiveSubscription(states[0].db.subscriptions, user, at);
    var slug := ChosenIsHeld(states[0], user, at);
    var named := if live.Some? then 0 else j;
    var m := Witness(history, named, k);
    WitnessHasEveryPart(states, history, slug, named, k);
    PathKeepsHeld(states, history, slug, m);
    PathKeepsHeld(states, history, slug, j);
    MixFromParts(states[0], states[j], states[k], states[n], states[m], user, at, slug);
  }

  lemma PathIsLong(states: seq<Tables>, history: seq<Stamped>)
    requires IsPath(states, history)
    ensures |states| == |history| + 1
  {}

  lemma SoundPlansExist(t: Tables)
    requires SoundTables(t)
    ensures PlansExist(t.db)
  {}

  /** The plan a read chooses is the fallback or a subscriber's. */
  lemma ChosenIsHeld(t: Tables, user: UserId, at: Instant) returns (slug: string)
    requires SoundTables(t)
    ensures Held(t, slug)
    ensures var live := LiveSubscription(t.db.subscriptions, user, at);
            if live.Some? then live.value.plan == slug else t.db.defaultFree == Some(slug)
  {
    LiveSubscriptionIsTheLiveRow(t.db.subscriptions, user, at);
    var live := LiveSubscription(t.db.subscriptions, user, at);
    slug := if live.Some? then live.value.plan else t.db.defaultFree.value;
  }

  // ---- and any other order can ----

  /** The kinds of the requests that can change a resolution, in the order in which they land. */
  function Kinds(history: seq<Stamped>): seq<Kind> {
    if history == [] then []
    else (if KindOf(history[0].request).Some? then [KindOf(history[0].request).value] else []) + Kinds(history[1..])
  }

  predicate DescendingKinds(kinds: seq<Kind>) {
    forall p, q :: 0 <= p < q < |kinds| ==> Rank(kinds[p]) >= Rank(kinds[q])
  }

  ghost predicate Reachable(t: Tables) {
    exists before :: IsHistory(SEEDED, before) && After(SEEDED, before) == t
  }

  /** A read, and the requests that land between its first statement and its last. */
  datatype Read = Read(states: seq<Tables>, history: seq<Stamped>, j: nat, k: nat, user: UserId, at: Instant)

  ghost predicate CanHappen(r: Read, kinds: seq<Kind>) {
    && IsPath(r.states, r.history) && Reachable(r.states[0]) && Kinds(r.history) == kinds
    && r.j <= r.k <= |r.history|
  }

  ghost predicate Whole(r: Read) {
    && r.j < |r.states| && r.k < |r.states| && AllExist(r.states) && Untorn(r.states, r.j, r.k, r.user, r.at)
  }

  ghost predicate NeverTear(kinds: seq<Kind>) {
    forall r: Read :: CanHappen(r, kinds) ==> Whole(r)
  }

  lemma {:induction false} KindIsListed(history: seq<Stamped>, p: nat)
    requires p < |history| && KindOf(history[p].request).Some?
    ensures exists i :: 0 <= i < |Kinds(history)| && Kinds(history)[i] == KindOf(history[p].request).value
  {
    var first := if KindOf(history[0].request).Some? then [KindOf(history[0].request).value] else [];
    if p == 0 {
      assert Kinds(history)[0] == KindOf(history[p].request).value;
    } else {
      KindIsListed(history[1..], p - 1);
      var i :| 0 <= i < |Kinds(history[1..])| && Kinds(history[1..])[i] == KindOf(history[p].request).value;
      assert Kinds(history)[|first| + i] == KindOf(history[p].request).value;
    }
  }

  lemma {:induction false} DescendingKindsMeanDescending(history: seq<Stamped>)
    requires DescendingKinds(Kinds(history))
    ensures Descending(history)
  {
    if history != [] {
      var rest, first := Kinds(history[1..]), KindOf(history[0].request);
      assert first.Some? ==> Kinds(history)[0] == first.value && Kinds(history)[1..] == rest;
      assert first.None? ==> Kinds(history) == rest;
      assert DescendingKinds(rest) by {
        assert forall i :: 0 <= i < |rest| ==> rest[i] == Kinds(history)[if first.Some? then i + 1 else i];
      }
      DescendingKindsMeanDescending(history[1..]);
      forall p, q | 0 <= p < q < |history| ensures InDescent(history[p].request, history[q].request) {
        if p > 0 {
          assert InDescent(history[1..][p - 1].request, history[1..][q - 1].request);
        } else if KindOf(history[q].request).Some? {
          KindIsListed(history[1..], q - 1);
        }
      }
    }
  }

  // Everything below happens to user 7 of a database just seeded.

  const OFFER: Offer := Offer("premium", Durations.DurationUnit.Day, 30, 0, true, false)
  const ROW: Subscription := Subscription(7, "premium", Active, AdminGrant, 0, Some(100), None)
  const TEN: Override := Override(Some(10), None, None)
  const THREE: FeatureValue := FeatureValue(Some(3), None, None)

  /** A request of each kind that changes what user 7 resolves to, while they are on the free plan. */
  function Effective(k: Kind): Request {
    match k
    case Billing => Bill(GrantPlan(7, OFFER, Some(100)))
    case Renaming => RenamePlan("free", "Gratis")
    case Editing =>
      EditPlan("free", [Edit("custom_domains_max", THREE)], FREE_PLAN.features[CustomDomainsMax := THREE])
    case Overriding => PutOverride(true, 7, "links_max", TEN)
  }

  /** And one that changes nothing. */
  function Idle(k: Kind): Request {
    match k
    case Billing => Bill(RevokePlan(8))
    case Renaming => RenamePlan("premium", "Premium")
    case Editing => EditPlan("premium", [], PREMIUM_PLAN.features)
    case Overriding => DropOverride(false, 7, "links_max")
  }

  /** Which of the effective requests have been handled. */
  datatype Effects = Effects(billed: bool, renamed: bool, edited: bool, overridden: bool)

  function Has(e: Effects, k: Kind): bool {
    match k
    case Billing => e.billed
    case Renaming => e.renamed
    case Editing => e.edited
    case Overriding => e.overridden
  }

  function With(e: Effects, k: Kind): Effects {
    match k
    case Billing => e.(billed := true)
    case Renaming => e.(renamed := true)
    case Editing => e.(edited := true)
    case Overriding => e.(overridden := true)
  }

  function FreePlan(e: Effects): Plan {
    Plan(if e.renamed then "Gratis" else "Free", true,
         if e.edited then FREE_PLAN.features[CustomDomainsMax := THREE] else FREE_PLAN.features)
  }

  function Changed(e: Effects): Tables {
    var rows := if e.billed then [ROW] else [];
    Tables(Database(map["free" := FreePlan(e), "premium" := PREMIUM_PLAN], Some("free"), rows,
                    if e.overridden then map[(7, LinksMax) := TEN] else map[]),
           Books(rows, [], []))
  }

  lemma ChangedIsSound(e: Effects)
    ensures SoundTables(Changed(e))
  {
    assert CompleteMatrix(PREMIUM_PLAN.features) by {
      hide FREE_PLAN, PREMIUM_PLAN;
      SeedsAreComplete();
    }
    FreePlanIsComplete(e);
    BooksAreSound(e);
    hide CompleteMatrix, FREE_PLAN, PREMIUM_PLAN, FreePlan, Sound;
  }

  lemma FreePlanIsComplete(e: Effects)
    ensures CompleteMatrix(FreePlan(e).features)
  {
    SeedsAreComplete();
    hide FREE_PLAN, PREMIUM_PLAN;
  }

  lemma BooksAreSound(e: Effects)
    ensures Sound(Changed(e).books)
  {}

  lemma EffectiveStep(e: Effects, k: Kind)
    requires !Has(e, k)
    ensures Accepted(Changed(e), Effective(k)) && Handled(Changed(e), Effective(k), 0) == Changed(With(e, k))
  {
    hide Accepted, Handled, Changed;
    match k
    case Billing => BillingStep(e);
    case Renaming => RenamingStep(e);
    case Editing => EditingStep(e);
    case Overriding => OverridingStep(e);
  }

  lemma BillingStep(e: Effects)
    requires !e.billed
    ensures Accepted(Changed(e), Effective(Billing))
    ensures Handled(Changed(e), Effective(Billing), 0) == Changed(With(e, Billing))
  {
    hide Durations.ComputeExpiry, FREE_PLAN, PREMIUM_PLAN;
  }

  lemma RenamingStep(e: Effects)
    requires !e.renamed
    ensures Accepted(Changed(e), Effective(Renaming))
    ensures Handled(Changed(e), Effective(Renaming), 0) == Changed(With(e, Renaming))
  {
    hide FREE_PLAN, PREMIUM_PLAN;
  }

  lemma EditingStep(e: Effects)
    requires !e.edited
    ensures Accepted(Changed(e), Effective(Editing))
    ensures Handled(Changed(e), Effective(Editing), 0) == Changed(With(e, Editing))
  {
    EditIsAccepted();
    hide Edited, Acceptable, FREE_PLAN, PREMIUM_PLAN;
  }

  lemma OverridingStep(e: Effects)
    requires !e.overridden
    ensures Accepted(Changed(e), Effective(Overriding))
    ensures Handled(Changed(e), Effective(Overriding), 0) == Changed(With(e, Overriding))
  {
    assert Catalog.Lookup("links_max") == Some(LinksMax) && ValidOverride(LinksMax, TEN);
    hide FREE_PLAN, PREMIUM_PLAN, Catalog.Lookup, ValidOverride;
  }

  lemma EditIsAccepted()
    ensures var edits := [Edit("custom_domains_max", THREE)];
            && DistinctNames(edits) && (forall e :: e in edits ==> Acceptable(e))
            && Edited(edits, FREE_PLAN.features, FREE_PLAN.features[CustomDomainsMax := THREE])
  {
    var edits, after := [Edit("custom_domains_max", THREE)], FREE_PLAN.features[CustomDomainsMax := THREE];
    assert Catalog.Lookup("custom_domains_max") == Some(CustomDomainsMax);
    SeedsAreComplete();
    hide Catalog.Lookup;
    forall key: FeatureKey | forall i :: 0 <= i < |edits| ==> Catalog.Lookup(edits[i].name) != Some(key)
      ensures key in after && key in FREE_PLAN.features && after[key] == FREE_PLAN.features[key]
    {
      assert Catalog.Lookup(edits[0].name) != Some(key);
    }
  }

  lemma IdleStep(e: Effects, k: Kind)
    ensures Accepted(Changed(e), Idle(k)) && Handled(Changed(e), Idle(k), 0) == Changed(e)
  {
    hide Accepted, Handled, Changed, Idle;
    match k
    case Billing => IdleBillingStep(e);
    case Renaming => IdleRenamingStep(e);
    case Editing => IdleEditingStep(e);
    case Overriding => IdleOverridingStep(e);
  }

  lemma IdleBillingStep(e: Effects)
    ensures Accepted(Changed(e), Idle(Billing)) && Handled(Changed(e), Idle(Billing), 0) == Changed(e)
  {
    hide FREE_PLAN, PREMIUM_PLAN;
  }

  lemma IdleRenamingStep(e: Effects)
    ensures Accepted(Changed(e), Idle(Renaming)) && Handled(Changed(e), Idle(Renaming), 0) == Changed(e)
  {
    hide FREE_PLAN;
  }

  lemma IdleEditingStep(e: Effects)
    ensures Accepted(Changed(e), Idle(Editing)) && Handled(Changed(e), Idle(Editing), 0) == Changed(e)
  {
    hide FREE_PLAN;
    assert Edited([], PREMIUM_PLAN.features, PREMIUM_PLAN.features) by { hide PREMIUM_PLAN; }
    hide Edited;
  }

  lemma IdleOverridingStep(e: Effects)
    ensures Accepted(Changed(e), Idle(Overriding)) && Handled(Changed(e), Idle(Overriding), 0) == Changed(e)
  {
    hide FREE_PLAN, PREMIUM_PLAN;
  }

  /** What user 7 resolves to tells which requests have been handled, as long as they are on the free plan. */
  lemma ResolutionTells(e: Effects, f: Effects)
    requires PlansExist(Changed(e).db) && PlansExist(Changed(f).db)
    requires !e.billed && Resolve(Changed(e).db, 7, 0) == Resolve(Changed(f).db, 7, 0)
    ensures e == f
  {
    Observed(e);
    Observed(f);
  }

  lemma Observed(e: Effects)
    requires PlansExist(Changed(e).db)
    ensures Resolve(Changed(e).db, 7, 0).Ok?
    ensures var s := Resolve(Changed(e).db, 7, 0).value;
            && s.planSlug == (if e.billed then "premium" else "free")
            && (!e.billed ==>
                  && s.planName == (if e.renamed then "Gratis" else "Free")
                  && s.Limit(CustomDomainsMax) == (if e.edited then 3 else 0)
                  && s.Limit(LinksMax) == (if e.overridden then 10 else 1))
  {
    ObservedChoice(e);
    ObservedLimits(e);
    OneStateResolves(Changed(e).db, 7, 0);
    hide Changed, Resolve, FREE_PLAN, PREMIUM_PLAN, ResolvedValues;
  }

  lemma ObservedChoice(e: Effects)
    requires PlansExist(Changed(e).db)
    ensures var db := Changed(e).db;
            && Chosen(db, db, 7, 0) == Some(if e.billed then RowChoice(db, ROW) else FreeChoice(db).value)
            && FeaturesOf(db, "free") == FreePlan(e).features
            && (e.billed ==> RowChoice(db, ROW).slug == "premium")
            && (!e.billed ==> FreeChoice(db).value == Choice("free", FreePlan(e).name, None, None))
  {
    hide PREMIUM_PLAN, FreePlan;
    assert LiveSubscription(Changed(e).db.subscriptions, 7, 0) == if e.billed then Some(ROW) else None;
  }

  lemma ObservedLimits(e: Effects)
    ensures var s := Assembled(Choice("free", FreePlan(e).name, None, None), FreePlan(e).features, Changed(e).db, 7, 0);
            && s.Limit(CustomDomainsMax) == (if e.edited then 3 else 0)
            && s.Limit(LinksMax) == (if e.overridden then 10 else 1)
  {
    FreeLimits(e);
    hide FREE_PLAN, PREMIUM_PLAN, FreePlan, Earliest, OverrideExpiries;
    assert LiveOverrides(Changed(e).db, 7, 0) == if e.overridden then {LinksMax} else {};
  }

  lemma FreeLimits(e: Effects)
    ensures var features := FreePlan(e).features;
            && CustomDomainsMax in features && features[CustomDomainsMax].intValue == Some(if e.edited then 3 else 0)
            && LinksMax in features && features[LinksMax].intValue == Some(1)
  {}

  // The torn read of a kind that lands before one that is read later.

  function DoneBy(kinds: seq<Kind>, p: nat, q: nat, m: nat): Effects
    requires p < q < |kinds|
  {
    var none := Effects(false, false, false, false);
    var one := if p < m then With(none, kinds[p]) else none;
    if q < m then With(one, kinds[q]) else one
  }

  function Landing(kinds: seq<Kind>, p: nat, q: nat): seq<Stamped> {
    seq(|kinds|, i requires 0 <= i < |kinds| => Stamped(0, if i == p || i == q then Effective(kinds[i])
          else Idle(kinds[i])))
  }

  function Passed(kinds: seq<Kind>, p: nat, q: nat): seq<Tables>
    requires p < q < |kinds|
  {
    seq(|kinds| + 1, m requires 0 <= m <= |kinds| => Changed(DoneBy(kinds, p, q, m)))
  }

  lemma {:induction false} KindsOfRanked(history: seq<Stamped>, kinds: seq<Kind>)
    requires |history| == |kinds|
    requires forall i :: 0 <= i < |kinds| ==> KindOf(history[i].request) == Some(kinds[i])
    ensures Kinds(history) == kinds
  {
    if history != [] {
      KindsOfRanked(history[1..], kinds[1..]);
      assert kinds == [kinds[0]] + kinds[1..];
    }
  }

  lemma LandingIsAPath(kinds: seq<Kind>, p: nat, q: nat)
    requires p < q < |kinds| && Rank(kinds[p]) < Rank(kinds[q])
    ensures IsPath(Passed(kinds, p, q), Landing(kinds, p, q)) && Kinds(Landing(kinds, p, q)) == kinds
  {
    hide Accepted, Handled, Changed, Effective, Idle;
    var states, history := Passed(kinds, p, q), Landing(kinds, p, q);
    forall i | 0 <= i < |kinds|
      ensures Accepted(states[i], history[i].request)
      ensures states[i + 1] == Handled(states[i], history[i].request, history[i].now)
    {
      if i == p || i == q {
        EffectiveStep(DoneBy(kinds, p, q, i), kinds[i]);
      } else {
        IdleStep(DoneBy(kinds, p, q, i), kinds[i]);
      }
    }
    forall i | 0 <= i < |kinds| ensures KindOf(history[i].request) == Some(kinds[i]) {
      KindsOfRequests(kinds[i]);
    }
    KindsOfRanked(history, kinds);
  }

  lemma KindsOfRequests(k: Kind)
    ensures KindOf(Effective(k)) == KindOf(Idle(k)) == Some(k)
  {}

  lemma MixIsChanged(e0: Effects, ej: Effects, ek: Effects, en: Effects)
    requires !e0.billed
    ensures var mix := Effects(false, ej.renamed, ek.edited, en.overridden);
            && PlansExist(Changed(e0).db) && PlansExist(Changed(ej).db) && PlansExist(Changed(mix).db)
            && Mixed(Changed(e0).db, Changed(ej).db, Changed(ek).db, Changed(en).db, 7, 0)
                  == Resolve(Changed(mix).db, 7, 0)
  {
    var mix := Effects(false, ej.renamed, ek.edited, en.overridden);
    ChangedIsSound(e0);
    ChangedIsSound(ej);
    ChangedIsSound(ek);
    ChangedIsSound(en);
    ChangedIsSound(mix);
    hide SoundTables, FREE_PLAN, PREMIUM_PLAN, Resolve, Mixed;
    MixFromParts(Changed(e0), Changed(ej), Changed(ek), Changed(en), Changed(mix), 7, 0, "free");
  }

  lemma NoStateIsTheMix(kinds: seq<Kind>, p: nat, q: nat, j: nat, k: nat, m: nat)
    requires p < q < |kinds| && Rank(kinds[p]) < Rank(kinds[q]) && m <= |kinds|
    requires j == (if kinds[p].Billing? then |kinds| else 0) && k == (if kinds[p].Editing? then 0 else |kinds|)
    ensures DoneBy(kinds, p, q, m) != Effects(false, DoneBy(kinds, p, q, j).renamed, DoneBy(kinds, p, q, k).edited,
              DoneBy(kinds, p, q, |kinds|).overridden)
  {}

  lemma InvertedRequestsTear(kinds: seq<Kind>, p: nat, q: nat)
    requires p < q < |kinds| && Rank(kinds[p]) < Rank(kinds[q])
    ensures !NeverTear(kinds)
  {
    hide Changed, Resolve, Mixed, IsPath, Reachable;
    var n := |kinds|;
    var j, k := if kinds[p].Billing? then n else 0, if kinds[p].Editing? then 0 else n;
    var r := Read(Passed(kinds, p, q), Landing(kinds, p, q), j, k, 7, 0);
    LandingIsAPath(kinds, p, q);
    SeededIsReachable();
    assert CanHappen(r, kinds);
    if Whole(r) {
      var e0, ej, ek, en := DoneBy(kinds, p, q, 0), DoneBy(kinds, p, q, j), DoneBy(kinds, p, q, k),
            DoneBy(kinds, p, q, n);
      MixIsChanged(e0, ej, ek, en);
      var m :| 0 <= m <= n && Mixed(r.states[0].db, r.states[j].db, r.states[k].db, r.states[n].db, 7, 0)
            == Resolve(r.states[m].db, 7, 0);
      ResolutionTells(Effects(false, ej.renamed, ek.edited, en.overridden), DoneBy(kinds, p, q, m));
      NoStateIsTheMix(kinds, p, q, j, k, m);
    }
  }

  lemma SeededIsReachable()
    ensures Reachable(Changed(Effects(false, false, false, false)))
  {
    assert Changed(Effects(false, false, false, false)) == SEEDED;
    assert IsHistory(SEEDED, []) && After(SEEDED, []) == SEEDED;
  }

  /** The order of the requests that land during reads decides whether they can tear one: requests of these kinds,
      landing in this order, leave every read of every user in every reachable database whole if and only if no
      kind lands before one that is read later. */
  lemma ReadsAreWholeExactlyWhen(kinds: seq<Kind>)
    ensures NeverTear(kinds) <==> DescendingKinds(kinds)
  {
    if DescendingKinds(kinds) {
      forall r: Read | CanHappen(r, kinds) ensures Whole(r) {
        var before :| IsHistory(SEEDED, before) && After(SEEDED, before) == r.states[0];
        SeededTablesAreSound();
        HistoryKeepsTables(SEEDED, before);
        DescendingKindsMeanDescending(r.history);
        hide IsPath, SoundTables, Descending, Untorn;
        DescendingRequestsNeverTear(r.states, r.history, r.j, r.k, r.user, r.at);
      }
    } else {
      var p, q :| 0 <= p < q < |kinds| && Rank(kinds[p]) < Rank(kinds[q]);
      InvertedRequestsTear(kinds, p, q);
    }
  }
}
