/** The same cache with nothing atomic but single round trips: one Redis command or one SQL statement at a
    time, each statement seeing what is committed when it runs. Reads overlap each other, commits, and the
    bumps and invalidations that follow the commits. */
module SlowReads {
  import opened Wrappers
  import opened Calendar
  import opened Catalog
  import opened Entitlements
  import opened EntitlementCache

  // ---- a resolution, statement by statement ----

  /** What the first statements find: the plan, and the subscription it comes from. */
  datatype Choice = Choice(slug: string, name: string, source: Option<SubscriptionSource>, expiresAt: Option<Instant>)

  function RowChoice(db: Database, row: Subscription): Choice
    requires row.plan in db.plans
  {
    Choice(row.plan, db.plans[row.plan].name, Some(row.source), row.expiresAt)
  }

  function FreeChoice(db: Database): Option<Choice>
    requires PlansExist(db)
  {
    if db.defaultFree.None? then None
    else Some(Choice(db.defaultFree.value, db.plans[db.defaultFree.value].name, None, None))
  }

  function FeaturesOf(db: Database, slug: string): FeatureMatrix {
    if slug in db.plans then db.plans[slug].features else map[]
  }

  ghost function Assembled(c: Choice, features: FeatureMatrix, db: Database, user: UserId, now: Instant): Snapshot {
    Snapshot(c.slug, c.name, c.source, c.expiresAt,
             Earliest(ValueSet(c.expiresAt) + OverrideExpiries(db, user, LiveOverrides(db, user, now))),
             ResolvedValues(db, user, now, features))
  }

  /** The last statement reads nothing but overrides. */
  lemma OnlyOverridesMatter(c: Choice, features: FeatureMatrix, a: Database, b: Database, user: UserId, at: Instant)
    requires a.overrides == b.overrides
    ensures Assembled(c, features, a, user, at) == Assembled(c, features, b, user, at)
  {
    var keys := LiveOverrides(a, user, at);
    assert keys == LiveOverrides(b, user, at);
    assert OverrideExpiries(a, user, keys) == OverrideExpiries(b, user, keys);
    assert Overlaid(a, user, features, keys) == Overlaid(b, user, features, keys);
  }

  function Chosen(a: Database, b: Database, user: UserId, now: Instant): Option<Choice>
    requires PlansExist(a) && PlansExist(b)
  {
    LiveSubscriptionIsTheLiveRow(a.subscriptions, user, now);
    match LiveSubscription(a.subscriptions, user, now)
    case Some(row) => Some(RowChoice(a, row))
    case None => FreeChoice(b)
  }

  /** The resolution whose subscription, free plan, features and overrides are read from these tables. */
  ghost function Mixed(a: Database, b: Database, f: Database, o: Database, user: UserId,
          now: Instant): Result<Snapshot, Unavailable>
    requires PlansExist(a) && PlansExist(b)
  {
    match Chosen(a, b, user, now)
    case None => Err(Unavailable)
    case Some(c) => Ok(Assembled(c, FeaturesOf(f, c.slug), o, user, now))
  }

  /** Read from one state of the tables, the statements make up its resolution. */
  lemma OneStateResolves(db: Database, user: UserId, now: Instant)
    requires PlansExist(db)
    ensures Mixed(db, db, db, db, user, now) == Resolve(db, user, now)
  {
    LiveSubscriptionIsTheLiveRow(db.subscriptions, user, now);
  }

  /** As long as nothing in an assembled snapshot has lapsed, assembling it later gives the same. */
  lemma AssembledHolds(c: Choice, features: FeatureMatrix, db: Database, user: UserId, t: Instant, later: Instant)
    requires t <= later && Lasting(Assembled(c, features, db, user, t).validUntil, later)
    ensures Lasting(c.expiresAt, later) && LiveOverrides(db, user, later) == LiveOverrides(db, user, t)
    ensures Assembled(c, features, db, user, later) == Assembled(c, features, db, user, t)
  {
    var times := ValueSet(c.expiresAt) + OverrideExpiries(db, user, LiveOverrides(db, user, t));
    assert c.expiresAt.Some? ==> c.expiresAt.value in times;
    forall key | key in LiveOverrides(db, user, t) ensures key in LiveOverrides(db, user, later) {
      var e := db.overrides[(user, key)].expiresAt;
      assert e.Some? ==> e.value in times;
    }
    assert LiveOverrides(db, user, later) == LiveOverrides(db, user, t);
  }

  lemma MixedHolds(a: Database, b: Database, f: Database, o: Database, user: UserId, t: Instant, later: Instant)
    requires PlansExist(a) && PlansExist(b) && t <= later && Mixed(a, b, f, o, user, t).Ok?
    requires Lasting(Mixed(a, b, f, o, user, t).value.validUntil, later)
    ensures Mixed(a, b, f, o, user, later) == Mixed(a, b, f, o, user, t)
  {
    hide Assembled;
    var c := Chosen(a, b, user, t).value;
    AssembledHolds(c, FeaturesOf(f, c.slug), o, user, t, later);
    LiveSubscriptionIsTheLiveRow(a.subscriptions, user, t);
    LiveRowsOnlyLapse(a.subscriptions, user, t, later);
  }

  // ---- one round trip at a time ----

  /** How far a read has come; `since` is when its first statement ran. */
  datatype Stage =
    | Started
    | Versioned(version: nat)
    | Missed
    | NoSubscription(since: Instant)
    | Chose(choice: Choice, since: Instant)
    | Featured(choice: Choice, features: FeatureMatrix, since: Instant)
    | Unfiled(snapshot: Snapshot, ttlSeconds: int, since: Instant)
    | Addressed(snapshot: Snapshot, ttlSeconds: int, since: Instant, version: nat)
    | Done(answer: Result<Snapshot, Unavailable>)

  /** A read, with the clock value it took when it started. */
  datatype Reading = Reading(user: UserId, now: Instant, stage: Stage)

  /** What is still to be done after a commit. */
  datatype Chore = Invalidate(user: UserId) | Delete(user: UserId, version: nat) | Bump | Settled

  datatype Scene = Scene(db: Database, now: Instant, redis: Redis, gets: seq<Reading>, chores: seq<Chore>)

  /** `ok` says whether the Redis command of the step gets through. */
  datatype Move =
    | Pass(until: Instant)
    | CommitUser(user: UserId, after: Database)
    | CommitCatalog(after: Database)
    | Tidy(after: Database)                               // the expiry job
    | FollowUp(c: nat, ok: bool)
    | Lose(keys: set<(nat, UserId)>, counter: bool)       // Redis evicts or is flushed
    | Begin(reader: UserId)
    | Advance(g: nat, ok: bool)

  ghost predicate Possible(s: Scene, m: Move) {
    match m
    case Pass(until) => s.now <= until
    case CommitUser(user, after) => PlansExist(after) && forall other: UserId ::
          other != user ==> SameFor(s.db, after, other)
    case CommitCatalog(after) => PlansExist(after)
    case Tidy(after) =>
      && after == s.db.(subscriptions := after.subscriptions) && PlansExist(after)
      && SameButLapsed(s.db.subscriptions, after.subscriptions, s.now)
    case FollowUp(c, _) => c < |s.chores|
    case Lose(_, _) => true
    case Begin(_) => true
    case Advance(g, _) => g < |s.gets|
  }

  /** The next round trip of a read. */
  ghost function NextStage(s: Scene, r: Reading, ok: bool): Stage
    requires PlansExist(s.db)
  {
    match r.stage
    case Started => Versioned(VersionRead(s.redis, ok))
    case Versioned(v) =>
      var entry := Visible(s.redis, (v, r.user), s.now);
      if ok && entry.Some? && Lasting(entry.value.snapshot.validUntil, r.now) then Done(Ok(entry.value.snapshot))
            else Missed
    case Missed =>
      LiveSubscriptionIsTheLiveRow(s.db.subscriptions, r.user, r.now);
      (match LiveSubscription(s.db.subscriptions, r.user, r.now)
       case Some(row) => Chose(RowChoice(s.db, row), s.now)
       case None => NoSubscription(s.now))
    case NoSubscription(since) =>
      (match FreeChoice(s.db)
       case Some(c) => Chose(c, since)
       case None => Done(Err(Unavailable)))
    case Chose(c, since) => Featured(c, FeaturesOf(s.db, c.slug), since)
    case Featured(c, features, since) =>
      var snapshot := Assembled(c, features, s.db, r.user, r.now);
      var ttl := TimeToLive(snapshot, r.now);
      if ttl > 0 then Unfiled(snapshot, ttl, since) else Done(Ok(snapshot))
    case Unfiled(snapshot, ttl, since) => Addressed(snapshot, ttl, since, VersionRead(s.redis, ok))
    case Addressed(snapshot, _, _, _) => Done(Ok(snapshot))
    case Done(answer) => Done(answer)
  }

  /** Only the last round trip of a read writes. */
  function NextRedis(s: Scene, r: Reading, ok: bool): Redis {
    if r.stage.Addressed? && ok then s.redis.(entries := s.redis.entries[(r.stage.version, r.user) := Filed(s, r)])
          else s.redis
  }

  function Filed(s: Scene, r: Reading): Entry
    requires r.stage.Addressed?
  {
    Entry(r.stage.snapshot, s.now + Max(r.stage.ttlSeconds, 0) * MICROS_PER_SECOND)
  }

  function ChoreRedis(s: Scene, chore: Chore, ok: bool): Redis {
    match chore
    case Delete(user, version) => if ok then s.redis.(entries := s.redis.entries - {(version, user)}) else s.redis
    case Bump => Bumped(s.redis, ok)
    case _ => s.redis
  }

  function NextChore(s: Scene, chore: Chore, ok: bool): Chore {
    match chore
    case Invalidate(user) => Delete(user, VersionRead(s.redis, ok))
    case _ => Settled
  }

  ghost function Next(s: Scene, m: Move): Scene
    requires PlansExist(s.db) && Possible(s, m)
  {
    match m
    case Pass(until) => s.(now := until)
    case CommitUser(user, after) => s.(db := after, chores := s.chores + [Invalidate(user)])
    case CommitCatalog(after) => s.(db := after, chores := s.chores + [Bump])
    case Tidy(after) => s.(db := after)
    case FollowUp(c, ok) =>
      s.(redis := ChoreRedis(s, s.chores[c], ok), chores := s.chores[c := NextChore(s, s.chores[c], ok)])
    case Lose(keys, counter) => s.(redis := Redis(s.redis.entries - keys, if counter then None else s.redis.version))
    case Begin(reader) => s.(gets := s.gets + [Reading(reader, s.now, Started)])
    case Advance(g, ok) =>
      s.(redis := NextRedis(s, s.gets[g], ok), gets := s.gets[g := s.gets[g].(stage := NextStage(s, s.gets[g], ok))])
  }

  /** No read takes longer than `patience` from its first statement to its filing. */
  predicate Prompt(s: Scene, m: Move, patience: nat) {
    m.Advance? && m.g < |s.gets| && s.gets[m.g].stage.Addressed? ==> s.now <= s.gets[m.g].stage.since + patience
  }

  ghost predicate IsRun(scenes: seq<Scene>, moves: seq<Move>) {
    && |scenes| == |moves| + 1
    && scenes[0].redis.entries == map[] && scenes[0].gets == [] && scenes[0].chores == [] && PlansExist(scenes[0].db)
    && forall i :: 0 <= i < |moves| ==>
         PlansExist(scenes[i].db) && Possible(scenes[i], moves[i]) && scenes[i + 1] == Next(scenes[i], moves[i])
  }

  ghost predicate IsPromptRun(scenes: seq<Scene>, moves: seq<Move>, patience: nat) {
    IsRun(scenes, moves) && forall i :: 0 <= i < |moves| ==> Prompt(scenes[i], moves[i], patience)
  }

  // ---- the atomic steps are runs of this ----

  /** A path of moves; the scenes between are not of interest. */
  ghost predicate Leads(s: Scene, moves: seq<Move>, after: Scene)
    decreases |moves|
  {
    if moves == [] then s == after
    else PlansExist(s.db) && Possible(s, moves[0]) && Leads(Next(s, moves[0]), moves[1..], after)
  }

  /** Redis answers throughout and loses nothing. */
  predicate Smooth(moves: seq<Move>) {
    forall i :: 0 <= i < |moves| ==> !moves[i].Lose? && (moves[i].Advance? || moves[i].FollowUp? ==> moves[i].ok)
  }

  lemma {:induction false} LeadsThrough(s: Scene, a: seq<Move>, middle: Scene, b: seq<Move>, after: Scene)
    requires Leads(s, a, middle) && Leads(middle, b, after)
    ensures Leads(s, a + b, after)
    decreases |a|
  {
    if a == [] {
      assert a + b == b;
    } else {
      LeadsThrough(Next(s, a[0]), a[1..], middle, b, after);
      assert (a + b)[1..] == a[1..] + b;
    }
  }

  lemma {:induction false} LeadsBy(s: Scene, moves: seq<Move>, middle: Scene, m: Move)
    requires Leads(s, moves, middle) && PlansExist(middle.db) && Possible(middle, m)
    ensures Leads(s, moves + [m], Next(middle, m))
    decreases |moves|
  {
    if moves == [] {
      assert (moves + [m])[1..] == [];
    } else {
      LeadsBy(Next(s, moves[0]), moves[1..], middle, m);
      assert (moves + [m])[1..] == moves[1..] + [m];
    }
  }

  /** One more round trip of the newest read. */
  lemma OneMore(start: Scene, moves: seq<Move>, s: Scene, others: seq<Reading>, r: Reading, ok: bool)
          returns (more: seq<Move>, after: Scene)
    requires Leads(start, moves, s) && PlansExist(s.db) && s.gets == others + [r]
    ensures more == moves + [Advance(|others|, ok)] && Leads(start, more, after)
    ensures after == s.(redis := NextRedis(s, r, ok), gets := others + [r.(stage := NextStage(s, r, ok))])
  {
    var m := Advance(|others|, ok);
    LeadsBy(start, moves, s, m);
    more, after := moves + [m], Next(s, m);
  }

  lemma SmoothAdvance(moves: seq<Move>, g: nat)
    requires Smooth(moves)
    ensures Smooth(moves + [Advance(g, true)])
  {}

  /** The first statement, and the second if there is no subscription. */
  lemma Choosing(start: Scene, moves: seq<Move>, s: Scene, others: seq<Reading>, r: Reading)
          returns (more: seq<Move>, after: Scene)
    requires Leads(start, moves, s) && PlansExist(s.db) && s.gets == others + [r] && r.stage.Missed?
    ensures Leads(start, more, after) && (Smooth(moves) ==> Smooth(more))
    ensures after == s.(gets := others + [r.(stage :=
              match Chosen(s.db, s.db, r.user, r.now)
              case Some(c) => Chose(c, s.now)
              case None => Done(Err(Unavailable)))])
  {
    LiveSubscriptionIsTheLiveRow(s.db.subscriptions, r.user, r.now);
    hide Leads, Next, Possible, LiveSubscription, PlansExist, Smooth, Assembled;
    more, after := OneMore(start, moves, s, others, r, true);
    if Smooth(moves) { SmoothAdvance(moves, |others|); }
    if LiveSubscription(s.db.subscriptions, r.user, r.now).None? {
      if Smooth(more) { SmoothAdvance(more, |others|); }
      more, after := OneMore(start, more, after, others, r.(stage := NoSubscription(s.now)), true);
    }
  }

  /** The last two statements. */
  lemma Assembling(start: Scene, moves: seq<Move>, s: Scene, others: seq<Reading>, r: Reading)
          returns (more: seq<Move>, after: Scene)
    requires Leads(start, moves, s) && PlansExist(s.db) && s.gets == others + [r] && r.stage.Chose?
    ensures Leads(start, more, after) && (Smooth(moves) ==> Smooth(more))
    ensures var c := r.stage.choice;
            var snapshot := Assembled(c, FeaturesOf(s.db, c.slug), s.db, r.user, r.now);
            after == s.(gets := others + [r.(stage :=
              if TimeToLive(snapshot, r.now) > 0 then Unfiled(snapshot, TimeToLive(snapshot, r.now), r.stage.since)
              else Done(Ok(snapshot)))])
  {
    hide Leads, Next, Possible, PlansExist, Smooth, Assembled, TimeToLive, FeaturesOf;
    var c := r.stage.choice;
    more, after := OneMore(start, moves, s, others, r, true);
    if Smooth(moves) { SmoothAdvance(moves, |others|); }
    if Smooth(more) { SmoothAdvance(more, |others|); }
    more, after := OneMore(start, more, after, others,
          r.(stage := Featured(c, FeaturesOf(s.db, c.slug), r.stage.since)),
          true);
  }

  /** The statements of a read, run with nothing in between, from the miss to its resolution. */
  lemma StatementsResolve(start: Scene, moves: seq<Move>, s: Scene, others: seq<Reading>, r: Reading)
          returns (more: seq<Move>, after: Scene)
    requires Leads(start, moves, s) && PlansExist(s.db) && s.gets == others + [r] && r.stage.Missed?
    ensures Leads(start, more, after) && (Smooth(moves) ==> Smooth(more))
    ensures var resolved := Resolve(s.db, r.user, r.now);
            after == s.(gets := others + [r.(stage :=
              if resolved.Ok? && TimeToLive(resolved.value, r.now) > 0
              then Unfiled(resolved.value, TimeToLive(resolved.value, r.now), s.now) else Done(resolved))])
  {
    OneStateResolves(s.db, r.user, r.now);
    hide Assembled, Resolve, Leads, Chosen, Smooth, PlansExist, TimeToLive;
    more, after := Choosing(start, moves, s, others, r);
    var chosen := Chosen(s.db, s.db, r.user, r.now);
    if chosen.Some? {
      more, after := Assembling(start, more, after, others, r.(stage := Chose(chosen.value, s.now)));
    }
  }

  lemma CacheLookup(s: Scene, user: UserId, link: Link) returns (moves: seq<Move>, after: Scene)
    requires PlansExist(s.db)
    ensures Leads(s, moves, after) && (link == UP ==> Smooth(moves))
    ensures var cached := CachedSnapshot(s.redis, user, s.now, link);
            after == s.(gets := s.gets + [Reading(user, s.now,
              if cached.Some? && Lasting(cached.value.validUntil, s.now) then Done(Ok(cached.value)) else Missed)])
  {
    var others, r := s.gets, Reading(user, s.now, Started);
    LeadsBy(s, [], s, Begin(user));
    moves, after := [] + [Begin(user)], Next(s, Begin(user));
    hide Leads, Next, Possible, PlansExist;
    moves, after := OneMore(s, moves, after, others, r, link.version);
    moves, after := OneMore(s, moves, after, others, r.(stage := Versioned(VersionRead(s.redis, link.version))),
          link.entry);
  }

  lemma Filing(start: Scene, moves: seq<Move>, s: Scene, others: seq<Reading>, r: Reading, link: Link)
          returns (more: seq<Move>, after: Scene)
    requires Leads(start, moves, s) && PlansExist(s.db) && s.gets == others + [r] && r.stage.Unfiled?
          && r.stage.ttlSeconds > 0
    ensures Leads(start, more, after)
    ensures after == s.(redis := Stored(s.redis, r.user, r.stage.snapshot, r.stage.ttlSeconds, s.now, link),
                        gets := others + [r.(stage := Done(Ok(r.stage.snapshot)))])
  {
    hide Leads, PlansExist;
    more, after := OneMore(start, moves, s, others, r, link.version);
    more, after := OneMore(start, more, after, others, after.gets[|others|], link.entry);
  }

  /** An undisturbed read is the atomic read: the same answer and the same key space. */
  lemma AtomicReadIsARun(s: Scene, user: UserId, read: Link, write: Link) returns (moves: seq<Move>, after: Scene)
    requires PlansExist(s.db)
    ensures Leads(s, moves, after)
    ensures var (redis, answer) := Read(s.redis, s.db, user, s.now, read, write);
            after == s.(redis := redis, gets := s.gets + [Reading(user, s.now, Done(answer))])
  {
    hide Leads, PlansExist, Resolve, TimeToLive, CachedSnapshot, Stored;
    moves, after := CacheLookup(s, user, read);
    var r := after.gets[|s.gets|];
    if r.stage.Missed? {
      moves, after := StatementsResolve(s, moves, after, s.gets, r);
      r := after.gets[|s.gets|];
      if r.stage.Unfiled? {
        moves, after := Filing(s, moves, after, s.gets, r, write);
      }
    }
  }

  /** An undisturbed follow-up is the invalidation, or the bump, as one operation. */
  lemma FollowUpsAreRuns(s: Scene, c: nat, link: Link) returns (moves: seq<Move>, after: Scene)
    requires PlansExist(s.db) && c < |s.chores| && (s.chores[c].Invalidate? || s.chores[c].Bump?)
    ensures Leads(s, moves, after)
    ensures after == s.(chores := s.chores[c := Settled],
                        redis := if s.chores[c].Bump? then Bumped(s.redis, link.version)
                              else Invalidated(s.redis, s.chores[c].user, link))
  {
    LeadsBy(s, [], s, FollowUp(c, link.version));
    moves, after := [] + [FollowUp(c, link.version)], Next(s, FollowUp(c, link.version));
    if s.chores[c].Invalidate? {
      LeadsBy(s, moves, after, FollowUp(c, link.entry));
      moves, after := moves + [FollowUp(c, link.entry)], Next(after, FollowUp(c, link.entry));
    }
  }
}
