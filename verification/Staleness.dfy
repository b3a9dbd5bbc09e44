/** How old an answer can be when reads overlap anything, and what it is made of. */
module Staleness {
  import opened Wrappers
  import opened Calendar
  import opened Catalog
  import opened Entitlements
  import opened EntitlementCache
  import opened SlowReads
  import opened ReadExactness

  // ---- where every snapshot comes from ----

  /** The scenes in which the four tables of a snapshot were read. */
  datatype Origin = Origin(subscription: nat, freePlan: nat, features: nat, overrides: nat)

  ghost predicate PlansAlwaysExist(scenes: seq<Scene>, n: nat)
    requires n < |scenes|
  {
    forall i :: 0 <= i <= n ==> PlansExist(scenes[i].db)
  }

  predicate TimeAscends(scenes: seq<Scene>, n: nat)
    requires n < |scenes|
  {
    forall i, j :: 0 <= i <= j <= n ==> scenes[i].now <= scenes[j].now
  }

  predicate InOrder(x: Origin, n: nat) {
    x.subscription <= x.freePlan <= x.features <= x.overrides <= n
  }

  /** The snapshot is what the tables of these scenes say at `at`. */
  ghost predicate Traced(scenes: seq<Scene>, n: nat, x: Origin, user: UserId, at: Instant, snapshot: Snapshot)
    requires n < |scenes| && PlansAlwaysExist(scenes, n)
  {
    InOrder(x, n) && at <= scenes[n].now
    && Mixed(scenes[x.subscription].db, scenes[x.freePlan].db, scenes[x.features].db, scenes[x.overrides].db, user,
          at) == Ok(snapshot)
  }

  ghost predicate EntryTraced(scenes: seq<Scene>, n: nat, user: UserId, entry: Entry, patience: nat)
    requires n < |scenes| && PlansAlwaysExist(scenes, n)
  {
    exists x, at: Instant :: Traced(scenes, n, x, user, at, entry.snapshot)
      && entry.expiresAt <= scenes[x.subscription].now + patience + TTL_MICROS
  }

  /** The answer is what tables, each of them current less than 300 seconds and one filing delay before the
      read began, say at an instant since the read began. */
  ghost predicate AnswerTraced(scenes: seq<Scene>, n: nat, r: Reading, snapshot: Snapshot, patience: nat)
    requires n < |scenes| && PlansAlwaysExist(scenes, n)
  {
    exists x, at: Instant :: Traced(scenes, n, x, r.user, at, snapshot) && r.now <= at
      && r.now < scenes[x.subscription].now + patience + TTL_MICROS
  }

  ghost predicate ChoiceTraced(scenes: seq<Scene>, n: nat, r: Reading, c: Choice, i: nat, j: nat)
    requires n < |scenes| && PlansAlwaysExist(scenes, n)
  {
    i <= j <= n && Chosen(scenes[i].db, scenes[j].db, r.user, r.now) == Some(c)
  }

  ghost predicate Filable(scenes: seq<Scene>, n: nat, r: Reading, snapshot: Snapshot, ttl: int, since: Instant)
    requires n < |scenes| && PlansAlwaysExist(scenes, n)
  {
    ttl <= ENTITLEMENT_TTL_SECONDS
    && exists x :: Traced(scenes, n, x, r.user, r.now, snapshot) && scenes[x.subscription].now == since
  }

  predicate Statements(stage: Stage) {
    stage.NoSubscription? || stage.Chose? || stage.Featured? || stage.Unfiled? || stage.Addressed?
  }

  ghost predicate ReadTraced(scenes: seq<Scene>, n: nat, r: Reading, patience: nat)
    requires n < |scenes| && PlansAlwaysExist(scenes, n)
  {
    && r.now <= scenes[n].now && (Statements(r.stage) ==> r.now <= r.stage.since)
    && match r.stage
       case NoSubscription(since) =>
         exists i :: 0 <= i <= n && scenes[i].now == since
               && LiveSubscription(scenes[i].db.subscriptions, r.user, r.now).None?
       case Chose(c, since) =>
         exists i: nat, j: nat :: ChoiceTraced(scenes, n, r, c, i, j) && scenes[i].now == since
       case Featured(c, features, since) =>
         exists i: nat, j: nat, k: nat ::
               ChoiceTraced(scenes, n, r, c, i, j) && scenes[i].now == since && j <= k <= n
               && FeaturesOf(scenes[k].db, c.slug) == features
       case Unfiled(snapshot, ttl, since) => Filable(scenes, n, r, snapshot, ttl, since)
       case Addressed(snapshot, ttl, since, _) => Filable(scenes, n, r, snapshot, ttl, since)
       case Done(Ok(snapshot)) => AnswerTraced(scenes, n, r, snapshot, patience)
       case _ => true
  }

  ghost predicate AllTraced(scenes: seq<Scene>, n: nat, patience: nat)
    requires n < |scenes|
  {
    && PlansAlwaysExist(scenes, n) && TimeAscends(scenes, n)
    && (forall key ::
          key in scenes[n].redis.entries ==> EntryTraced(scenes, n, key.1, scenes[n].redis.entries[key], patience))
    && (forall g :: 0 <= g < |scenes[n].gets| ==> ReadTraced(scenes, n, scenes[n].gets[g], patience))
  }

  // ---- a move at a time ----

  /** What a move makes of the scene before it, for the purposes of tracing. */
  ghost predicate Follows(scenes: seq<Scene>, n: nat) {
    n + 1 < |scenes| && scenes[n].now <= scenes[n + 1].now
    && PlansAlwaysExist(scenes, n) && PlansExist(scenes[n + 1].db) && TimeAscends(scenes, n)
  }

  lemma TracedStays(scenes: seq<Scene>, n: nat, x: Origin, user: UserId, at: Instant, snapshot: Snapshot)
    requires Follows(scenes, n) && Traced(scenes, n, x, user, at, snapshot)
    ensures PlansAlwaysExist(scenes, n + 1) && TimeAscends(scenes, n + 1)
          && Traced(scenes, n + 1, x, user, at, snapshot)
  {}

  lemma EntryStays(scenes: seq<Scene>, n: nat, user: UserId, entry: Entry, patience: nat)
    requires Follows(scenes, n) && EntryTraced(scenes, n, user, entry, patience)
    ensures PlansAlwaysExist(scenes, n + 1) && EntryTraced(scenes, n + 1, user, entry, patience)
  {
    hide Mixed;
    var x, at: Instant :| Traced(scenes, n, x, user, at, entry.snapshot)
      && entry.expiresAt <= scenes[x.subscription].now + patience + TTL_MICROS;
    TracedStays(scenes, n, x, user, at, entry.snapshot);
  }

  lemma FilableStays(scenes: seq<Scene>, n: nat, r: Reading, snapshot: Snapshot, ttl: int, since: Instant)
    requires Follows(scenes, n) && Filable(scenes, n, r, snapshot, ttl, since)
    ensures PlansAlwaysExist(scenes, n + 1) && Filable(scenes, n + 1, r, snapshot, ttl, since)
  {
    hide Mixed;
    var x :| Traced(scenes, n, x, r.user, r.now, snapshot) && scenes[x.subscription].now == since;
    TracedStays(scenes, n, x, r.user, r.now, snapshot);
  }

  lemma ReadStays(scenes: seq<Scene>, n: nat, r: Reading, patience: nat)
    requires Follows(scenes, n) && ReadTraced(scenes, n, r, patience)
    ensures PlansAlwaysExist(scenes, n + 1) && ReadTraced(scenes, n + 1, r, patience)
  {
    hide Mixed, Chosen;
    assert PlansAlwaysExist(scenes, n + 1);
    match r.stage
    case Chose(c, since) =>
      var i: nat, j: nat :| ChoiceTraced(scenes, n, r, c, i, j) && scenes[i].now == since;
      assert ChoiceTraced(scenes, n + 1, r, c, i, j);
    case Featured(c, features, since) =>
      var i: nat, j: nat, k: nat :| ChoiceTraced(scenes, n, r, c, i, j) && scenes[i].now == since && j <= k <= n
            && FeaturesOf(scenes[k].db, c.slug) == features;
      assert ChoiceTraced(scenes, n + 1, r, c, i, j);
    case Unfiled(snapshot, ttl, since) => FilableStays(scenes, n, r, snapshot, ttl, since);
    case Addressed(snapshot, ttl, since, _) => FilableStays(scenes, n, r, snapshot, ttl, since);
    case Done(Ok(snapshot)) =>
      var x, at: Instant :| Traced(scenes, n, x, r.user, at, snapshot) && r.now <= at
            && r.now < scenes[x.subscription].now + patience + TTL_MICROS;
      TracedStays(scenes, n, x, r.user, at, snapshot);
    case _ =>
  }

  /** A hit: the entry is still what its tables say at the later of the two reads' clocks. */
  lemma HitIsTraced(scenes: seq<Scene>, n: nat, r: Reading, entry: Entry, patience: nat)
    requires Follows(scenes, n) && r.now <= scenes[n].now && EntryTraced(scenes, n, r.user, entry, patience)
    requires scenes[n].now < entry.expiresAt && Lasting(entry.snapshot.validUntil, r.now)
    ensures PlansAlwaysExist(scenes, n + 1) && AnswerTraced(scenes, n + 1, r, entry.snapshot, patience)
  {
    var x, at: Instant :| Traced(scenes, n, x, r.user, at, entry.snapshot)
      && entry.expiresAt <= scenes[x.subscription].now + patience + TTL_MICROS;
    if at < r.now {
      MixedHolds(scenes[x.subscription].db, scenes[x.freePlan].db, scenes[x.features].db, scenes[x.overrides].db,
            r.user, at, r.now);
    }
    hide Mixed;
    var later := if at < r.now then r.now else at;
    assert Traced(scenes, n, x, r.user, later, entry.snapshot);
    TracedStays(scenes, n, x, r.user, later, entry.snapshot);
  }

  /** The last statement: the choice, the features and the overrides make up the snapshot. */
  lemma AssembledIsTraced(scenes: seq<Scene>, n: nat, r: Reading, patience: nat) returns (x: Origin)
    requires Follows(scenes, n) && ReadTraced(scenes, n, r, patience) && r.stage.Featured?
    ensures PlansAlwaysExist(scenes, n + 1) && x.subscription <= n && scenes[x.subscription].now == r.stage.since
    ensures r.now <= r.stage.since && r.now <= scenes[n + 1].now
    ensures Traced(scenes, n + 1, x, r.user, r.now,
                   Assembled(r.stage.choice, r.stage.features, scenes[n].db, r.user, r.now))
  {
    hide Assembled, Chosen, FeaturesOf;
    var c, features, since := r.stage.choice, r.stage.features, r.stage.since;
    var i: nat, j: nat, k: nat :| ChoiceTraced(scenes, n, r, c, i, j) && scenes[i].now == since && j <= k <= n
          && FeaturesOf(scenes[k].db, c.slug) == features;
    var snapshot := Assembled(c, features, scenes[n].db, r.user, r.now);
    x := Origin(i, j, k, n);
    assert Traced(scenes, n, x, r.user, r.now, snapshot);
    TracedStays(scenes, n, x, r.user, r.now, snapshot);
  }

  lemma AssemblyIsTraced(scenes: seq<Scene>, n: nat, r: Reading, patience: nat)
    requires Follows(scenes, n) && ReadTraced(scenes, n, r, patience) && r.stage.Featured?
    ensures PlansAlwaysExist(scenes, n + 1)
    ensures ReadTraced(scenes, n + 1, r.(stage := NextStage(scenes[n], r, true)), patience)
  {
    var x := AssembledIsTraced(scenes, n, r, patience);
    hide Mixed, Assembled, TimeToLive, Traced, ChoiceTraced, PlansExist, FeaturesOf, ReadTraced;
    TracedIsFiled(scenes, n + 1, r, x,
                  Assembled(r.stage.choice, r.stage.features, scenes[n].db, r.user, r.now), patience);
  }

  /** A snapshot to be filed, or answered at once. */
  lemma TracedIsFiled(scenes: seq<Scene>, n: nat, r: Reading, x: Origin, snapshot: Snapshot, patience: nat)
    requires n < |scenes| && PlansAlwaysExist(scenes, n) && Traced(scenes, n, x, r.user, r.now, snapshot)
    requires r.stage.Featured? && r.now <= scenes[n].now && r.now <= r.stage.since == scenes[x.subscription].now
    ensures var ttl := TimeToLive(snapshot, r.now);
            ReadTraced(scenes, n, r.(stage :=
                if ttl > 0 then Unfiled(snapshot, ttl, r.stage.since) else Done(Ok(snapshot))), patience)
  {
    assert TimeToLive(snapshot, r.now) <= ENTITLEMENT_TTL_SECONDS;
    hide Mixed, TimeToLive, ChoiceTraced, PlansExist, FeaturesOf;
  }

  /** The earlier statements. */
  lemma StatementIsTraced(scenes: seq<Scene>, n: nat, r: Reading, patience: nat)
    requires Follows(scenes, n) && ReadTraced(scenes, n, r, patience)
    requires r.stage.Missed? || r.stage.NoSubscription? || r.stage.Chose?
    ensures PlansAlwaysExist(scenes, n + 1)
    ensures ReadTraced(scenes, n + 1, r.(stage := NextStage(scenes[n], r, true)), patience)
  {
    hide Assembled, FeaturesOf, LiveSubscription;
    var after := r.(stage := NextStage(scenes[n], r, true));
    match r.stage
    case Missed =>
      if after.stage.Chose? {
        assert ChoiceTraced(scenes, n + 1, after, after.stage.choice, n, n);
      }
    case NoSubscription(since) =>
      var i :| 0 <= i <= n && scenes[i].now == since
            && LiveSubscription(scenes[i].db.subscriptions, r.user, r.now).None?;
      if after.stage.Chose? {
        assert ChoiceTraced(scenes, n + 1, after, after.stage.choice, i, n);
      }
    case Chose(c, since) =>
      var i: nat, j: nat :| ChoiceTraced(scenes, n, r, c, i, j) && scenes[i].now == since;
      assert ChoiceTraced(scenes, n + 1, after, c, i, j);
  }

  // A traced read stays traced when only its stage changes.

  lemma SameAnswer(scenes: seq<Scene>, n: nat, r: Reading, after: Reading, snapshot: Snapshot, patience: nat)
    requires n < |scenes| && PlansAlwaysExist(scenes, n) && AnswerTraced(scenes, n, r, snapshot, patience)
    requires after == r.(stage := after.stage)
    ensures AnswerTraced(scenes, n, after, snapshot, patience)
  {
    hide Traced;
  }

  lemma SameFiling(scenes: seq<Scene>, n: nat, r: Reading, after: Reading, snapshot: Snapshot, ttl: int, since: Instant)
    requires n < |scenes| && PlansAlwaysExist(scenes, n) && Filable(scenes, n, r, snapshot, ttl, since)
    requires after == r.(stage := after.stage)
    ensures Filable(scenes, n, after, snapshot, ttl, since)
  {
    hide Traced;
  }

  lemma FilingAnswers(scenes: seq<Scene>, n: nat, r: Reading, after: Reading, snapshot: Snapshot, ttl: int,
          since: Instant, patience: nat)
    requires n < |scenes| && PlansAlwaysExist(scenes, n) && Filable(scenes, n, r, snapshot, ttl, since)
          && r.now <= since
    requires after == r.(stage := after.stage)
    ensures AnswerTraced(scenes, n, after, snapshot, patience)
  {
    hide Mixed;
    var x :| Traced(scenes, n, x, r.user, r.now, snapshot) && scenes[x.subscription].now == since;
  }

  lemma LookupIsTraced(scenes: seq<Scene>, n: nat, r: Reading, ok: bool, patience: nat)
    requires Follows(scenes, n) && ReadTraced(scenes, n, r, patience) && r.stage.Versioned?
    requires forall key ::
          key in scenes[n].redis.entries ==> EntryTraced(scenes, n, key.1, scenes[n].redis.entries[key], patience)
    ensures PlansAlwaysExist(scenes, n + 1)
    ensures ReadTraced(scenes, n + 1, r.(stage := NextStage(scenes[n], r, ok)), patience)
  {
    hide Mixed, Chosen, Assembled, EntryTraced, Traced;
    var entry := Visible(scenes[n].redis, (r.stage.version, r.user), scenes[n].now);
    if NextStage(scenes[n], r, ok).Done? {
      HitIsTraced(scenes, n, r, entry.value, patience);
      SameAnswer(scenes, n + 1, r, r.(stage := NextStage(scenes[n], r, ok)), entry.value.snapshot, patience);
    }
  }

  lemma FilingIsTraced(scenes: seq<Scene>, n: nat, r: Reading, ok: bool, patience: nat)
    requires Follows(scenes, n) && ReadTraced(scenes, n, r, patience) && (r.stage.Unfiled? || r.stage.Addressed?)
    ensures PlansAlwaysExist(scenes, n + 1)
    ensures ReadTraced(scenes, n + 1, r.(stage := NextStage(scenes[n], r, ok)), patience)
  {
    hide Mixed, Chosen, Assembled, Traced;
    var after := r.(stage := NextStage(scenes[n], r, ok));
    FilableStays(scenes, n, r, r.stage.snapshot, r.stage.ttlSeconds, r.stage.since);
    hide Filable, AnswerTraced;
    SameFiling(scenes, n + 1, r, after, r.stage.snapshot, r.stage.ttlSeconds, r.stage.since);
    FilingAnswers(scenes, n + 1, r, after, r.stage.snapshot, r.stage.ttlSeconds, r.stage.since, patience);
  }

  lemma AdvancedReadIsTraced(scenes: seq<Scene>, n: nat, r: Reading, ok: bool, patience: nat)
    requires Follows(scenes, n) && ReadTraced(scenes, n, r, patience)
    requires forall key ::
          key in scenes[n].redis.entries ==> EntryTraced(scenes, n, key.1, scenes[n].redis.entries[key], patience)
    ensures PlansAlwaysExist(scenes, n + 1)
    ensures ReadTraced(scenes, n + 1, r.(stage := NextStage(scenes[n], r, ok)), patience)
  {
    assert PlansAlwaysExist(scenes, n + 1);
    hide ReadTraced, NextStage, EntryTraced, Follows, PlansExist;
    match r.stage
    case Missed | NoSubscription(_) | Chose(_, _) =>
      StatementIsTraced(scenes, n, r, patience);
      OnlyRedisCanFail(scenes[n], r, ok);
    case Featured(_, _, _) =>
      AssemblyIsTraced(scenes, n, r, patience);
      OnlyRedisCanFail(scenes[n], r, ok);
    case Versioned(_) => LookupIsTraced(scenes, n, r, ok, patience);
    case Unfiled(_, _, _) => FilingIsTraced(scenes, n, r, ok, patience);
    case Addressed(_, _, _, _) => FilingIsTraced(scenes, n, r, ok, patience);
    case Done(_) => ReadStays(scenes, n, r, patience);
      DoneStays(scenes[n], r, ok);
    case Started => StartedIsTraced(scenes, n, r, ok, patience);
  }

  lemma OnlyRedisCanFail(s: Scene, r: Reading, ok: bool)
    requires PlansExist(s.db) && (r.stage.Missed? || r.stage.NoSubscription? || r.stage.Chose? || r.stage.Featured?)
    ensures NextStage(s, r, ok) == NextStage(s, r, true)
  {}

  lemma DoneStays(s: Scene, r: Reading, ok: bool)
    requires PlansExist(s.db) && r.stage.Done?
    ensures r.(stage := NextStage(s, r, ok)) == r
  {}

  lemma StartedIsTraced(scenes: seq<Scene>, n: nat, r: Reading, ok: bool, patience: nat)
    requires Follows(scenes, n) && ReadTraced(scenes, n, r, patience) && r.stage.Started?
    ensures PlansAlwaysExist(scenes, n + 1)
    ensures ReadTraced(scenes, n + 1, r.(stage := NextStage(scenes[n], r, ok)), patience)
  {}

  lemma FiledEntryIsTraced(scenes: seq<Scene>, n: nat, r: Reading, patience: nat)
    requires Follows(scenes, n) && ReadTraced(scenes, n, r, patience) && r.stage.Addressed?
          && scenes[n].now <= r.stage.since + patience
    ensures PlansAlwaysExist(scenes, n + 1) && EntryTraced(scenes, n + 1, r.user, Filed(scenes[n], r), patience)
  {
    hide Mixed;
    var x :| Traced(scenes, n, x, r.user, r.now, r.stage.snapshot) && scenes[x.subscription].now == r.stage.since;
    TracedStays(scenes, n, x, r.user, r.now, r.stage.snapshot);
  }

  /** Everything a move leaves alone. */
  lemma NextTouchesLittle(s: Scene, m: Move)
    requires PlansExist(s.db) && Possible(s, m)
    ensures var s' := Next(s, m);
            && PlansExist(s'.db) && s.now <= s'.now
            && (forall g: nat :: g < |s'.gets| ==>
                  || (g < |s.gets| && s'.gets[g] == s.gets[g])
                  || (m.Advance? && m.g == g && s'.gets[g] == s.gets[g].(stage := NextStage(s, s.gets[g], m.ok)))
                  || (s'.gets[g].stage.Started? && s'.gets[g].now == s.now))
            && (forall key :: key in s'.redis.entries ==>
                  || (key in s.redis.entries && s'.redis.entries[key] == s.redis.entries[key])
                  || (m.Advance? && s.gets[m.g].stage.Addressed? && key.1 == s.gets[m.g].user
                        && s'.redis.entries[key] == Filed(s, s.gets[m.g])))
  {
    hide PlansExist, NextStage, SameFor, SameButLapsed;
  }

  lemma MoveKeepsAccounts(scenes: seq<Scene>, n: nat, m: Move, patience: nat)
    requires n + 1 < |scenes| && AllTraced(scenes, n, patience) && Possible(scenes[n], m)
          && Prompt(scenes[n], m, patience)
    requires scenes[n + 1] == Next(scenes[n], m)
    ensures AllTraced(scenes, n + 1, patience)
  {
    var s, s' := scenes[n], scenes[n + 1];
    NextTouchesLittle(s, m);
    assert m.Advance? ==> m.g < |s.gets|;
    hide Next, Possible, EntryTraced, NextStage;
    assert Follows(scenes, n);
    forall g: nat | g < |s'.gets|
      ensures PlansAlwaysExist(scenes, n + 1) && ReadTraced(scenes, n + 1, s'.gets[g], patience)
    {
      if g < |s.gets| && s'.gets[g] == s.gets[g] {
        ReadStays(scenes, n, s.gets[g], patience);
      } else if m.Advance? && m.g == g {
        AdvancedReadIsTraced(scenes, n, s.gets[g], m.ok, patience);
      }
    }
    forall key | key in s'.redis.entries
      ensures PlansAlwaysExist(scenes, n + 1) && EntryTraced(scenes, n + 1, key.1, s'.redis.entries[key], patience)
    {
      if key in s.redis.entries && s'.redis.entries[key] == s.redis.entries[key] {
        EntryStays(scenes, n, key.1, s.redis.entries[key], patience);
      } else {
        FiledEntryIsTraced(scenes, n, s.gets[m.g], patience);
      }
    }
  }

  lemma {:induction false} RunKeepsAccounts(scenes: seq<Scene>, moves: seq<Move>, n: nat, patience: nat)
    requires IsPromptRun(scenes, moves, patience) && n <= |moves|
    ensures AllTraced(scenes, n, patience)
  {
    hide Next, Possible, Prompt, PlansExist;
    if n > 0 {
      RunKeepsAccounts(scenes, moves, n - 1, patience);
      hide AllTraced;
      MoveKeepsAccounts(scenes, n - 1, moves[n - 1], patience);
    } else {
      hide ReadTraced, EntryTraced;
    }
  }

  /** Under every interleaving of single round trips, commits and Redis failures, each table that went into an
      answer was current less than 300 seconds and one filing delay before the read began, and the answer is
      what those tables say at some instant while it ran. */
  lemma OverlappingReadsAreBoundedlyStale(scenes: seq<Scene>, moves: seq<Move>, n: nat, g: nat, patience: nat)
    requires IsPromptRun(scenes, moves, patience) && n <= |moves|
    requires g < |scenes[n].gets| && scenes[n].gets[g].stage.Done? && scenes[n].gets[g].stage.answer.Ok?
    ensures PlansAlwaysExist(scenes, n)
    ensures AnswerTraced(scenes, n, scenes[n].gets[g], scenes[n].gets[g].stage.answer.value, patience)
  {
    RunKeepsAccounts(scenes, moves, n, patience);
    assert ReadTraced(scenes, n, scenes[n].gets[g], patience);
  }

  // ---- the tables need not have been current together ----

  /** If nothing of the user changed between its statements, an answer is the resolution of the first tables. */
  lemma UndisturbedMixIsAResolution(a: Database, b: Database, f: Database, o: Database, user: UserId, at: Instant)
    requires PlansExist(a) && PlansExist(b) && SameFor(a, b, user) && SameFor(a, f, user) && SameFor(a, o, user)
    ensures Mixed(a, b, f, o, user, at) == Resolve(a, user, at)
  {
    OneStateResolves(a, user, at);
    SameAssembly(a, o, user, at);
    hide Assembled, Resolve;
  }

  lemma SameAssembly(a: Database, o: Database, user: UserId, at: Instant)
    requires SameFor(a, o, user)
    ensures forall c, features :: Assembled(c, features, a, user, at) == Assembled(c, features, o, user, at)
  {
    var keys := LiveOverrides(a, user, at);
    assert keys == LiveOverrides(o, user, at);
    assert OverrideExpiries(a, user, keys) == OverrideExpiries(o, user, keys);
    forall features ensures Overlaid(a, user, features, keys) == Overlaid(o, user, features, keys) {}
  }

  /** A read of a cold cache between whose first statement and the rest two commits land: it files what the
      first state chose with the features and overrides of the last. */
  lemma TornPath(a: Database, b: Database, c: Database, user: UserId, t: Instant)
          returns (moves: seq<Move>, after: Scene)
    requires PlansExist(a) && PlansExist(b) && PlansExist(c) && LiveSubscription(a.subscriptions, user, t).Some?
    requires forall other: UserId :: other != user ==> SameFor(a, b, other) && SameFor(b, c, other)
    ensures Leads(Scene(a, t, Redis(map[], None), [], []), moves, after)
    ensures CommitUser(user, b) in moves && CommitUser(user, c) in moves && after.db == c
    ensures var torn := Mixed(a, a, c, c, user, t);
            && torn.Ok? && |after.gets| == 1
            && (TimeToLive(torn.value, t) > 0 ==>
                  after.gets[0].stage == Unfiled(torn.value, TimeToLive(torn.value, t), t))
  {
    LiveSubscriptionIsTheLiveRow(a.subscriptions, user, t);
    hide Leads, Assembled, SameFor, PlansExist, TimeToLive;
    var s := Scene(a, t, Redis(map[], None), [], []);
    moves, after := CacheLookup(s, user, UP);
    moves, after := OneMore(s, moves, after, [], Reading(user, t, Missed), true);
    var r := after.gets[0];
    assert r.stage == Chose(Chosen(a, a, user, t).value, t);
    LeadsBy(s, moves, after, CommitUser(user, b));
    moves, after := moves + [CommitUser(user, b)], Next(after, CommitUser(user, b));
    LeadsBy(s, moves, after, CommitUser(user, c));
    moves, after := moves + [CommitUser(user, c)], Next(after, CommitUser(user, c));
    moves, after := OneMore(s, moves, after, [], r, true);
    moves, after := OneMore(s, moves, after, [], after.gets[0], true);
  }

  const PAID: Database := Database(
    map["free" := FREE_PLAN, "premium" := PREMIUM_PLAN], Some("free"),
    [Subscription(7, "premium", Active, AdminGrant, 0, None, None)], map[])

  const REVOKED: Database := PAID.(subscriptions := [Subscription(7, "premium", Cancelled, AdminGrant, 0, None, None)])

  const CONSOLED: Database := REVOKED.(overrides := map[(7, LinksMax) := Override(Some(10), None, None)])

  /** Between a read's first statement and the rest an admin revokes the plan and grants ten links instead. The
      read files premium with ten links, which no state of the tables ever said. */
  lemma TornReadIsNoResolution() returns (moves: seq<Move>, after: Scene)
    ensures PlansExist(PAID) && PlansExist(REVOKED) && PlansExist(CONSOLED)
    ensures Leads(Scene(PAID, 0, Redis(map[], None), [], []), moves, after)
    ensures |after.gets| == 1 && after.gets[0].stage.Unfiled?
    ensures forall db :: db in {PAID, REVOKED, CONSOLED} ==> Resolve(db, 7, 0) != Ok(after.gets[0].stage.snapshot)
  {
    OthersKeepTheirs();
    LiveOnPaper();
    moves, after := TornPath(PAID, REVOKED, CONSOLED, 7, 0);
    TornSnapshot();
  }

  /** A plan is revoked and the user's key invalidated while an older read has its snapshot ready: the next read
      still answers premium, though the tables say free. */
  lemma RevokedPlanIsStillServed() returns (moves: seq<Move>, after: Scene)
    ensures PlansExist(PAID) && PlansExist(REVOKED)
    ensures Leads(Scene(PAID, 0, Redis(map[], None), [], []), moves, after) && Smooth(moves)
    ensures after.db == REVOKED && after.chores == [Settled] && |after.gets| == 2
    ensures after.gets[1] == Reading(7, 0, Done(Resolve(PAID, 7, 0)))
    ensures Resolve(PAID, 7, 0).Ok? && Resolve(PAID, 7, 0).value.planSlug == "premium"
    ensures Resolve(REVOKED, 7, 0).Ok? && Resolve(REVOKED, 7, 0).value.planSlug == "free"
  {
    OthersKeepTheirs();
    LiveOnPaper();
    PaidSnapshot();
    hide Resolve, SameFor;
    moves, after := OldSnapshotIsServed(PAID, CommitUser(7, REVOKED), 7, 0);
  }

  lemma PaidSnapshot()
    ensures PlansExist(PAID) && PlansExist(REVOKED)
    ensures Resolve(PAID, 7, 0).Ok? && Resolve(PAID, 7, 0).value.planSlug == "premium"
          && TimeToLive(Resolve(PAID, 7, 0).value, 0) > 0
    ensures Resolve(REVOKED, 7, 0).Ok? && Resolve(REVOKED, 7, 0).value.planSlug == "free"
  {
    LiveOnPaper();
    assert LiveOverrides(PAID, 7, 0) == {};
    assert Expiries(PAID, 7, 0) == {};
  }

  lemma LiveOnPaper()
    ensures LiveSubscription(PAID.subscriptions, 7, 0) == Some(PAID.subscriptions[0])
    ensures LiveSubscription(REVOKED.subscriptions, 7, 0) == None
  {
    assert REVOKED.subscriptions[1..] == [];
  }

  lemma TornSnapshot()
    ensures PlansExist(PAID) && PlansExist(REVOKED) && PlansExist(CONSOLED)
    ensures var torn := Mixed(PAID, PAID, CONSOLED, CONSOLED, 7, 0);
            && torn.Ok? && TimeToLive(torn.value, 0) > 0
            && forall db :: db in {PAID, REVOKED, CONSOLED} ==> Resolve(db, 7, 0) != torn
  {
    LiveOnPaper();
    var torn := Mixed(PAID, PAID, CONSOLED, CONSOLED, 7, 0);
    var keys := LiveOverrides(CONSOLED, 7, 0);
    assert keys == {LinksMax};
    assert OverrideExpiries(CONSOLED, 7, keys) == {};
    assert torn.value.planSlug == "premium" && torn.value.Limit(LinksMax) == 10;
    assert LiveOverrides(PAID, 7, 0) == {};
    assert Resolve(PAID, 7, 0).value.Limit(LinksMax) == 5;
  }

  lemma OthersKeepTheirs()
    ensures forall other: UserId :: other != 7 ==> SameFor(PAID, REVOKED, other) && SameFor(REVOKED, CONSOLED, other)
  {
    forall other: UserId | other != 7
      ensures RowsOf(PAID.subscriptions, other) == RowsOf(REVOKED.subscriptions, other)
    {
      assert PAID.subscriptions[1..] == REVOKED.subscriptions[1..] == [];
    }
  }
}
