/** When overlapping reads are exact: as long as no commit lands between a read's first statement and its
    filing; and what becomes of one that does. */
module ReadExactness {
  import opened Wrappers
  import opened Calendar
  import opened Catalog
  import opened Entitlements
  import opened EntitlementCache
  import opened SlowReads

  /** Between its first statement and its filing. */
  predicate Midway(stage: Stage) {
    stage.NoSubscription? || stage.Chose? || stage.Featured? || stage.Unfiled? || stage.Addressed?
  }

  predicate Affects(m: Move, user: UserId) {
    m.CommitCatalog? || (m.CommitUser? && m.user == user)
  }

  /** Redis answers, and no commit lands while a read of an affected user is midway. Keys may be evicted; the
      version counter goes only with all of them, and not under a read that is about to file. */
  predicate Orderly(s: Scene, m: Move) {
    && (m.Advance? || m.FollowUp? ==> m.ok)
    && (m.CommitUser? || m.CommitCatalog? ==> forall g ::
          0 <= g < |s.gets| && Affects(m, s.gets[g].user) ==> !Midway(s.gets[g].stage))
    && (m.Lose? && m.counter ==> s.redis.entries.Keys <= m.keys && forall g ::
          0 <= g < |s.gets| ==> !s.gets[g].stage.Addressed?)
  }

  ghost predicate IsOrderlyRun(scenes: seq<Scene>, moves: seq<Move>) {
    SlowReads.IsRun(scenes, moves) && forall i :: 0 <= i < |moves| ==> Orderly(scenes[i], moves[i])
  }

  predicate Concerns(chore: Chore, user: UserId) {
    chore.Bump? || (chore.Invalidate? && chore.user == user) || (chore.Delete? && chore.user == user)
  }

  /** A commit that affects the user is still to be followed up. */
  predicate Outstanding(s: Scene, user: UserId) {
    exists c :: 0 <= c < |s.chores| && Concerns(s.chores[c], user)
  }

  function Current(s: Scene): nat {
    VersionRead(s.redis, true)
  }

  /** Unless something in it has lapsed, the snapshot is what the tables say right now. */
  ghost predicate IsTrue(s: Scene, user: UserId, snapshot: Snapshot)
    requires PlansExist(s.db)
  {
    Lasting(snapshot.validUntil, s.now) ==> Resolve(s.db, user, s.now) == Ok(snapshot)
  }

  ghost predicate Exact(s: Scene, user: UserId, answer: Result<Snapshot, Unavailable>)
    requires PlansExist(s.db)
  {
    match answer
    case Ok(snapshot) => IsTrue(s, user, snapshot)
    case Err(_) => Resolve(s.db, user, s.now) == answer
  }

  /** Subscription rows that differ from the table's, as far as the user goes, only in the status of rows that
      are over by now. */
  ghost predicate RowsLike(s: Scene, user: UserId, rows: seq<Subscription>) {
    PlansExist(s.db.(subscriptions := rows))
          && SameButLapsed(RowsOf(rows, user), RowsOf(s.db.subscriptions, user), s.now)
  }

  /** The tables say so at `at`, with the statuses that the user's lapsed rows may have had then. */
  ghost predicate Told(s: Scene, user: UserId, at: Instant, snapshot: Snapshot) {
    exists rows :: RowsLike(s, user, rows) && Resolve(s.db.(subscriptions := rows), user, at) == Ok(snapshot)
  }

  ghost predicate ToldSince(s: Scene, user: UserId, since: Instant, snapshot: Snapshot) {
    exists at: Instant :: since <= at <= s.now && Told(s, user, at, snapshot)
  }

  /** A read's answer is what the tables say at an instant while it ran; and what they say right now, unless
      something in it has lapsed on the way. */
  ghost predicate ExactFor(s: Scene, r: Reading, answer: Result<Snapshot, Unavailable>)
    requires PlansExist(s.db)
  {
    Exact(s, r.user, answer) && (answer.Ok? ==> ToldSince(s, r.user, r.now, answer.value))
  }

  /** Some chore still to be done takes the entry out of sight. */
  predicate Excused(s: Scene, key: (nat, UserId)) {
    exists c :: 0 <= c < |s.chores| && Removes(s.chores[c], key)
  }

  predicate Removes(chore: Chore, key: (nat, UserId)) {
    chore == Bump || chore == Invalidate(key.1) || chore == Delete(key.1, key.0)
  }

  ghost predicate EntryGood(s: Scene, key: (nat, UserId))
    requires PlansExist(s.db) && key in s.redis.entries
  {
    key.0 <= Current(s) && (key.0 == Current(s) ==>
          ToldSince(s, key.1, 0, s.redis.entries[key].snapshot) || Excused(s, key))
  }

  ghost predicate NoneLive(s: Scene, r: Reading) {
    exists rows :: RowsLike(s, r.user, rows) && LiveSubscription(rows, r.user, r.now).None?
  }

  ghost predicate ChoiceTold(s: Scene, r: Reading, c: Choice) {
    exists rows :: RowsLike(s, r.user, rows) && ChosenFrom(s.db.(subscriptions := rows), r, c)
  }

  ghost predicate ChosenFrom(db: Database, r: Reading, c: Choice) {
    PlansExist(db) && Chosen(db, db, r.user, r.now) == Some(c)
  }

  /** What a read has found so far is what the tables say at its own clock. */
  ghost predicate ReadGood(s: Scene, r: Reading)
    requires PlansExist(s.db)
  {
    && r.now <= s.now
    && match r.stage
       case NoSubscription(_) => NoneLive(s, r)
       case Chose(c, _) => ChoiceTold(s, r, c)
       case Featured(c, features, _) => ChoiceTold(s, r, c) && FeaturesOf(s.db, c.slug) == features
       case Unfiled(snapshot, _, _) => Told(s, r.user, r.now, snapshot)
       case Addressed(snapshot, _, _, version) => Told(s, r.user, r.now, snapshot) && version <= Current(s)
       case _ => true
  }

  ghost predicate Good(s: Scene) {
    && PlansExist(s.db)
    && (forall key :: key in s.redis.entries ==> EntryGood(s, key))
    && (forall g :: 0 <= g < |s.gets| ==> ReadGood(s, s.gets[g]))
  }

  // ---- what a change of the tables or of the time leaves true ----

  /** The tables and the time may change in ways that do not touch this user: time passes, lapsed rows are
      marked, or somebody else's rows change. */
  ghost predicate Harmless(s: Scene, s': Scene, user: UserId) {
    && PlansExist(s.db) && PlansExist(s'.db) && s.now <= s'.now
    && (s.db == s'.db || (s.now == s'.now && (SameFor(s.db, s'.db, user) || Tidied(s, s'))))
  }

  predicate Tidied(s: Scene, s': Scene) {
    s'.db == s.db.(subscriptions := s'.db.subscriptions)
          && SameButLapsed(s.db.subscriptions, s'.db.subscriptions, s.now)
  }

  lemma {:induction false} RowsOfSimilarRows(a: seq<Subscription>, b: seq<Subscription>, now: Instant, user: UserId)
    requires SameButLapsed(a, b, now)
    ensures SameButLapsed(RowsOf(a, user), RowsOf(b, user), now)
    decreases |a|
  {
    if a != [] {
      RowsOfSimilarRows(a[1..], b[1..], now, user);
    }
  }

  /** Whatever is like the user's rows stays so, and goes on saying the same. */
  lemma LikenessSurvives(s: Scene, s': Scene, user: UserId, rows: seq<Subscription>)
    requires Harmless(s, s', user) && RowsLike(s, user, rows)
    ensures RowsLike(s', user, rows) && s'.db.plans == s.db.plans && s'.db.defaultFree == s.db.defaultFree
    ensures forall at ::
          Resolve(s'.db.(subscriptions := rows), user, at) == Resolve(s.db.(subscriptions := rows), user, at)
  {
    var d, d' := s.db.(subscriptions := rows), s'.db.(subscriptions := rows);
    hide Resolve, RowsOf;
    if s.db == s'.db {
    } else if SameFor(s.db, s'.db, user) {
      forall at ensures Resolve(d', user, at) == Resolve(d, user, at) {
        OthersUnaffected(d, d', user, at);
      }
    } else {
      RowsOfSimilarRows(s.db.subscriptions, s'.db.subscriptions, s.now, user);
      assert d == d';
    }
  }

  lemma ToldSurvives(s: Scene, s': Scene, user: UserId, at: Instant, snapshot: Snapshot)
    requires Harmless(s, s', user) && Told(s, user, at, snapshot)
    ensures Told(s', user, at, snapshot)
  {
    hide Harmless, SameButLapsed, RowsOf, Resolve;
    var rows :| RowsLike(s, user, rows) && Resolve(s.db.(subscriptions := rows), user, at) == Ok(snapshot);
    LikenessSurvives(s, s', user, rows);
  }

  lemma ReadSurvives(s: Scene, s': Scene, r: Reading)
    requires Harmless(s, s', r.user) && ReadGood(s, r) && Current(s) <= Current(s')
    ensures ReadGood(s', r)
  {
    hide Told, RowsLike, Resolve;
    match r.stage
    case NoSubscription(_) =>
      var rows :| RowsLike(s, r.user, rows) && LiveSubscription(rows, r.user, r.now).None?;
      LikenessSurvives(s, s', r.user, rows);
    case Chose(c, _) => ChoiceSurvives(s, s', r, c);
    case Featured(c, _, _) => ChoiceSurvives(s, s', r, c);
    case Unfiled(snapshot, _, _) => ToldSurvives(s, s', r.user, r.now, snapshot);
    case Addressed(snapshot, _, _, _) => ToldSurvives(s, s', r.user, r.now, snapshot);
    case _ =>
  }

  lemma ChoiceSurvives(s: Scene, s': Scene, r: Reading, c: Choice)
    requires Harmless(s, s', r.user) && ChoiceTold(s, r, c)
    ensures ChoiceTold(s', r, c) && s'.db.plans == s.db.plans
  {
    var rows :| RowsLike(s, r.user, rows) && ChosenFrom(s.db.(subscriptions := rows), r, c);
    hide Resolve, Harmless, SameButLapsed;
    LikenessSurvives(s, s', r.user, rows);
    assert ChosenFrom(s'.db.(subscriptions := rows), r, c);
  }

  // ---- what was told and has not lapsed is true ----

  /** Rows like the table's have the same live subscription from now on. */
  lemma LikeRowsResolveAlike(s: Scene, user: UserId, rows: seq<Subscription>)
    requires PlansExist(s.db) && RowsLike(s, user, rows)
    ensures LiveSubscription(rows, user, s.now) == LiveSubscription(s.db.subscriptions, user, s.now)
    ensures Resolve(s.db.(subscriptions := rows), user, s.now) == Resolve(s.db, user, s.now)
  {
    OwnRowsDecide(rows, user, s.now);
    OwnRowsDecide(s.db.subscriptions, user, s.now);
    LapsedRowsAreInvisible(RowsOf(rows, user), RowsOf(s.db.subscriptions, user), s.now, user, s.now);
    assert Expiries(s.db.(subscriptions := rows), user, s.now) == Expiries(s.db, user, s.now);
  }

  lemma ToldIsTrue(s: Scene, user: UserId, at: Instant, snapshot: Snapshot)
    requires PlansExist(s.db) && Told(s, user, at, snapshot) && at <= s.now
    ensures IsTrue(s, user, snapshot)
  {
    hide Resolve, SameButLapsed, RowsOf;
    var rows :| RowsLike(s, user, rows) && Resolve(s.db.(subscriptions := rows), user, at) == Ok(snapshot);
    LikeRowsResolveAlike(s, user, rows);
    SnapshotHoldsUntilValidUntil(s.db.(subscriptions := rows), user, at, s.now);
  }

  // ---- the statements find what is told ----

  lemma StatementIsGood(s: Scene, r: Reading)
    requires PlansExist(s.db) && ReadGood(s, r) && (r.stage.Missed? || r.stage.NoSubscription? || r.stage.Chose?)
    ensures ReadGood(s, r.(stage := NextStage(s, r, true)))
    ensures NextStage(s, r, true).Done? ==> ExactFor(s, r, NextStage(s, r, true).answer)
  {
    hide Assembled, Resolve, SameButLapsed, RowsOf;
    match r.stage
    case Missed => MissIsGood(s, r);
    case NoSubscription(_) => FreePlanIsGood(s, r);
    case Chose(c, _) =>
      var rows :| RowsLike(s, r.user, rows) && ChosenFrom(s.db.(subscriptions := rows), r, c);
  }

  lemma MissIsGood(s: Scene, r: Reading)
    requires PlansExist(s.db) && ReadGood(s, r) && r.stage.Missed?
    ensures ReadGood(s, r.(stage := NextStage(s, r, true)))
  {
    var rows := s.db.subscriptions;
    assert RowsLike(s, r.user, rows) && s.db.(subscriptions := rows) == s.db;
    hide RowsLike, Resolve;
    LiveSubscriptionIsTheLiveRow(rows, r.user, r.now);
    var after := NextStage(s, r, true);
    if after.Chose? {
      assert ChosenFrom(s.db.(subscriptions := rows), r.(stage := after), after.choice);
    } else {
      assert LiveSubscription(rows, r.user, r.now).None?;
    }
  }

  lemma FreePlanIsGood(s: Scene, r: Reading)
    requires PlansExist(s.db) && ReadGood(s, r) && r.stage.NoSubscription?
    ensures ReadGood(s, r.(stage := NextStage(s, r, true)))
    ensures NextStage(s, r, true).Done? ==> ExactFor(s, r, NextStage(s, r, true).answer)
  {
    var rows :| RowsLike(s, r.user, rows) && LiveSubscription(rows, r.user, r.now).None?;
    var after := NextStage(s, r, true);
    if after.Chose? {
      assert ChosenFrom(s.db.(subscriptions := rows), r.(stage := after), after.choice);
    } else {
      LiveRowsOnlyLapse(rows, r.user, r.now, s.now);
      LikeRowsResolveAlike(s, r.user, rows);
    }
  }

  lemma AssemblyIsTold(s: Scene, r: Reading)
    requires PlansExist(s.db) && ReadGood(s, r) && r.stage.Featured?
    ensures Told(s, r.user, r.now, Assembled(r.stage.choice, r.stage.features, s.db, r.user, r.now))
  {
    var c, features := r.stage.choice, r.stage.features;
    var rows :| RowsLike(s, r.user, rows) && ChosenFrom(s.db.(subscriptions := rows), r, c);
    var d := s.db.(subscriptions := rows);
    OneStateResolves(d, r.user, r.now);
    OnlyOverridesMatter(c, features, s.db, d, r.user, r.now);
    hide RowsLike, Assembled, Resolve;
    assert FeaturesOf(d, c.slug) == features;
  }

  lemma ToldNowIsExact(s: Scene, r: Reading, snapshot: Snapshot)
    requires PlansExist(s.db) && r.now <= s.now && Told(s, r.user, r.now, snapshot)
    ensures ExactFor(s, r, Ok(snapshot))
  {
    hide Told, IsTrue;
    ToldIsTrue(s, r.user, r.now, snapshot);
  }

  /** An entry was told at the clock of the read that filed it, which may be earlier or later than this one's. */
  lemma HitIsExact(s: Scene, r: Reading, snapshot: Snapshot)
    requires PlansExist(s.db) && r.now <= s.now && ToldSince(s, r.user, 0, snapshot)
          && Lasting(snapshot.validUntil, r.now)
    ensures ExactFor(s, r, Ok(snapshot))
  {
    hide Told, IsTrue;
    var at: Instant :| 0 <= at <= s.now && Told(s, r.user, at, snapshot);
    ToldIsTrue(s, r.user, at, snapshot);
    if at < r.now {
      ToldHolds(s, r.user, at, r.now, snapshot);
    }
  }

  lemma ToldHolds(s: Scene, user: UserId, at: Instant, later: Instant, snapshot: Snapshot)
    requires PlansExist(s.db) && Told(s, user, at, snapshot) && at <= later && Lasting(snapshot.validUntil, later)
    ensures Told(s, user, later, snapshot)
  {
    hide Resolve, SameButLapsed, RowsOf;
    var rows :| RowsLike(s, user, rows) && Resolve(s.db.(subscriptions := rows), user, at) == Ok(snapshot);
    SnapshotHoldsUntilValidUntil(s.db.(subscriptions := rows), user, at, later);
  }

  /** A read that misses is exact when it answers; one that hits is if the version it looked under is the current
      one and nothing is outstanding. */
  lemma AnswersAreExact(s: Scene, g: nat)
    requires Good(s) && g < |s.gets| && !s.gets[g].stage.Done? && NextStage(s, s.gets[g], true).Done?
    requires s.gets[g].stage.Versioned? ==> s.gets[g].stage.version == Current(s) && !Outstanding(s, s.gets[g].user)
    ensures ExactFor(s, s.gets[g], NextStage(s, s.gets[g], true).answer)
  {
    var r := s.gets[g];
    assert ReadGood(s, r);
    hide ExactFor, ToldSince, Told, Assembled, Resolve;
    match r.stage
    case Versioned(v) =>
      assert EntryGood(s, (v, r.user));
      HitIsExact(s, r, s.redis.entries[(v, r.user)].snapshot);
    case Featured(c, features, _) =>
      AssemblyIsTold(s, r);
      ToldNowIsExact(s, r, Assembled(c, features, s.db, r.user, r.now));
    case Addressed(snapshot, _, _, _) => ToldNowIsExact(s, r, snapshot);
    case _ => StatementIsGood(s, r);
  }

  // ---- an orderly move keeps everything good ----

  lemma AdvancedReadIsGood(s: Scene, r: Reading)
    requires PlansExist(s.db) && ReadGood(s, r)
    ensures ReadGood(s, r.(stage := NextStage(s, r, true)))
  {
    match r.stage
    case Missed | NoSubscription(_) | Chose(_, _) => StatementIsGood(s, r);
    case Featured(_, _, _) =>
      AssemblyIsTold(s, r);
      hide Told, Assembled;
    case _ =>
  }

  lemma ReadStaysGood(s: Scene, m: Move, g: nat)
    requires Good(s) && Possible(s, m) && Orderly(s, m) && g < |s.gets| && !(m.Advance? && m.g == g)
    ensures g < |Next(s, m).gets| && Next(s, m).gets[g] == s.gets[g] && PlansExist(Next(s, m).db)
          && ReadGood(Next(s, m), s.gets[g])
  {
    var s', r := Next(s, m), s.gets[g];
    assert ReadGood(s, r);
    hide PlansExist, Told, RowsLike, Resolve, NextStage;
    if Affects(m, r.user) {
      assert !Midway(r.stage);
    } else if m.Lose? && m.counter {
      assert Harmless(s, s', r.user);
      CounterLossIsNoMatter(s, s', r);
    } else {
      assert Harmless(s, s', r.user) by {
        assert m.CommitUser? ==> SameFor(s.db, s'.db, r.user);
      }
      ReadSurvives(s, s', r);
    }
  }

  lemma CounterLossIsNoMatter(s: Scene, s': Scene, r: Reading)
    requires PlansExist(s.db) && s'.db == s.db && s'.now == s.now && ReadGood(s, r) && !r.stage.Addressed?
    ensures ReadGood(s', r)
  {}

  lemma EntryStaysGood(s: Scene, m: Move, key: (nat, UserId))
    requires Good(s) && Possible(s, m) && Orderly(s, m)
    requires key in s.redis.entries && key in Next(s, m).redis.entries
          && Next(s, m).redis.entries[key] == s.redis.entries[key]
    requires PlansExist(Next(s, m).db)
    ensures EntryGood(Next(s, m), key)
  {
    var s' := Next(s, m);
    assert EntryGood(s, key);
    if key.0 == Current(s') {
      if Affects(m, key.1) {
        assert Removes(s'.chores[|s.chores|], key);
      } else if Excused(s, key) {
        ExcuseSurvives(s, m, key);
      } else {
        hide Resolve;
        assert Harmless(s, s', key.1);
        EntrySurvives(s, s', key.1, s.redis.entries[key].snapshot);
      }
    }
  }

  lemma EntrySurvives(s: Scene, s': Scene, user: UserId, snapshot: Snapshot)
    requires Harmless(s, s', user) && ToldSince(s, user, 0, snapshot)
    ensures ToldSince(s', user, 0, snapshot)
  {
    hide Told;
    var at: Instant :| 0 <= at <= s.now && Told(s, user, at, snapshot);
    ToldSurvives(s, s', user, at, snapshot);
  }

  lemma ExcuseSurvives(s: Scene, m: Move, key: (nat, UserId))
    requires Good(s) && Possible(s, m) && Orderly(s, m) && key in s.redis.entries && Excused(s, key)
    requires key in Next(s, m).redis.entries && key.0 == Current(Next(s, m))
    ensures Excused(Next(s, m), key)
  {
    var s' := Next(s, m);
    assert EntryGood(s, key);
    assert key.0 == Current(s);
    var c :| 0 <= c < |s.chores| && Removes(s.chores[c], key);
    if m.FollowUp? && m.c == c {
      assert Removes(s'.chores[c], key);
    } else {
      assert s'.chores[c] == s.chores[c];
    }
  }

  lemma MoveKeepsGood(s: Scene, m: Move)
    requires Good(s) && Possible(s, m) && Orderly(s, m)
    ensures Good(Next(s, m))
  {
    var s' := Next(s, m);
    NextIsLocal(s, m);
    forall g: nat | g < |s'.gets| ensures ReadGood(s', s'.gets[g]) {
      if m.Advance? && m.g == g {
        AdvancedReadIsGood(s, s.gets[g]);
        CounterStays(s, m, s'.gets[g]);
      } else if g < |s.gets| {
        ReadStaysGood(s, m, g);
      }
    }
    forall key | key in s'.redis.entries ensures EntryGood(s', key) {
      if key in s.redis.entries && s'.redis.entries[key] == s.redis.entries[key] {
        EntryStaysGood(s, m, key);
      } else {
        FiledEntryIsGood(s, m, key);
      }
    }
  }

  lemma NextIsLocal(s: Scene, m: Move)
    requires PlansExist(s.db) && Possible(s, m)
    ensures PlansExist(Next(s, m).db)
    ensures m.Advance? ==> Next(s, m).gets[m.g] == s.gets[m.g].(stage := NextStage(s, s.gets[m.g], m.ok))
    ensures forall g: nat ::
          |s.gets| <= g < |Next(s, m).gets| ==>
          Next(s, m).gets[g].stage.Started? && Next(s, m).gets[g].now == s.now == Next(s, m).now
    ensures forall key ::
          key in Next(s, m).redis.entries
          && !(key in s.redis.entries && Next(s, m).redis.entries[key] == s.redis.entries[key]) ==>
              m.Advance? && s.gets[m.g].stage.Addressed? && key == (s.gets[m.g].stage.version, s.gets[m.g].user)
  {
    hide PlansExist, NextStage, SameFor, SameButLapsed;
  }

  lemma CounterStays(s: Scene, m: Move, r: Reading)
    requires PlansExist(s.db) && Possible(s, m) && m.Advance? && ReadGood(s, r)
    ensures PlansExist(Next(s, m).db) && ReadGood(Next(s, m), r)
  {}

  lemma FiledEntryIsGood(s: Scene, m: Move, key: (nat, UserId))
    requires Good(s) && Possible(s, m) && m.Advance? && s.gets[m.g].stage.Addressed?
    requires key == (s.gets[m.g].stage.version, s.gets[m.g].user) && key in Next(s, m).redis.entries
          && PlansExist(Next(s, m).db)
    requires !(key in s.redis.entries && Next(s, m).redis.entries[key] == s.redis.entries[key])
    ensures EntryGood(Next(s, m), key)
  {
    var s', r := Next(s, m), s.gets[m.g];
    assert ReadGood(s, r) && s'.db == s.db && s'.now == s.now;
    ToldHere(s, s', r.user, r.now, r.stage.snapshot);
  }

  lemma ToldHere(s: Scene, s': Scene, user: UserId, at: Instant, snapshot: Snapshot)
    requires Told(s, user, at, snapshot) && at <= s.now && s'.db == s.db && s'.now == s.now && PlansExist(s.db)
    ensures ToldSince(s', user, 0, snapshot)
  {
    hide SameButLapsed, RowsOf, Resolve;
    ToldSurvives(s, s', user, at, snapshot);
  }

  lemma {:induction false} OrderlyRunsStayGood(scenes: seq<Scene>, moves: seq<Move>, n: nat)
    requires IsOrderlyRun(scenes, moves) && n <= |moves|
    ensures Good(scenes[n])
  {
    if n > 0 {
      OrderlyRunsStayGood(scenes, moves, n - 1);
      MoveKeepsGood(scenes[n - 1], moves[n - 1]);
    }
  }

  // ---- exact reads ----

  /** Since its start at scene j nothing that affects the read's user was committed, or is outstanding. */
  ghost predicate Undisturbed(s: Scene, user: UserId, g: nat) {
    && g < |s.gets| && s.gets[g].user == user && !Outstanding(s, user)
    && (s.gets[g].stage.Versioned? ==> s.gets[g].stage.version >= Current(s))
  }

  lemma UndisturbedStays(s: Scene, m: Move, user: UserId, g: nat)
    requires PlansExist(s.db) && Possible(s, m) && Orderly(s, m) && Undisturbed(s, user, g) && !Affects(m, user)
    ensures Undisturbed(Next(s, m), user, g)
  {
    hide PlansExist, Resolve, SameFor, SameButLapsed;
    var s' := Next(s, m);
    forall c | 0 <= c < |s'.chores| ensures !Concerns(s'.chores[c], user) {
      if c < |s.chores| {
        assert !Concerns(s.chores[c], user);
      }
    }
  }

  lemma {:induction false} StaysUndisturbed(scenes: seq<Scene>, moves: seq<Move>, j: nat, n: nat, user: UserId)
    requires IsOrderlyRun(scenes, moves) && j < n <= |moves| && moves[j] == Begin(user) && !Outstanding(scenes[j], user)
    requires forall i :: j <= i < n ==> !Affects(moves[i], user)
    ensures Undisturbed(scenes[n], user, |scenes[j].gets|)
  {
    if n == j + 1 {
      assert scenes[n].chores == scenes[j].chores;
    } else {
      StaysUndisturbed(scenes, moves, j, n - 1, user);
      UndisturbedStays(scenes[n - 1], moves[n - 1], user, |scenes[j].gets|);
    }
  }

  /** In an orderly run, a read that begins when every commit affecting its user has been followed up, and that
      no such commit overtakes, answers what the tables say while it runs: at the moment it answers, unless
      something in the answer lapses on the way. */
  lemma SettledReadsAreExact(scenes: seq<Scene>, moves: seq<Move>, j: nat, n: nat, user: UserId)
    requires IsOrderlyRun(scenes, moves) && j < n < |moves| && moves[j] == Begin(user) && !Outstanding(scenes[j], user)
    requires forall i :: j <= i < n ==> !Affects(moves[i], user)
    requires moves[n] == Advance(|scenes[j].gets|, true)
    ensures var g := |scenes[j].gets|;
            && PlansExist(scenes[n].db) && g < |scenes[n].gets| && g < |scenes[n + 1].gets|
            && (!scenes[n].gets[g].stage.Done? && scenes[n + 1].gets[g].stage.Done? ==>
                  ExactFor(scenes[n], scenes[n].gets[g], scenes[n + 1].gets[g].stage.answer))
  {
    var g := |scenes[j].gets|;
    OrderlyRunsStayGood(scenes, moves, n);
    StaysUndisturbed(scenes, moves, j, n, user);
    var s, r := scenes[n], scenes[n].gets[g];
    NextIsLocal(s, moves[n]);
    if !r.stage.Done? && scenes[n + 1].gets[g].stage.Done? {
      if r.stage.Versioned? {
        assert EntryGood(s, (r.stage.version, user));
      }
      AnswersAreExact(s, g);
    }
  }

  /** Reads that miss are exact whatever is outstanding. */
  lemma MissesAreExact(scenes: seq<Scene>, moves: seq<Move>, n: nat, g: nat)
    requires IsOrderlyRun(scenes, moves) && n < |moves| && moves[n] == Advance(g, true)
    requires g < |scenes[n].gets| && !scenes[n].gets[g].stage.Versioned? && !scenes[n].gets[g].stage.Done?
    ensures PlansExist(scenes[n].db) && g < |scenes[n + 1].gets|
    ensures scenes[n + 1].gets[g].stage.Done? ==>
          ExactFor(scenes[n], scenes[n].gets[g], scenes[n + 1].gets[g].stage.answer)
  {
    OrderlyRunsStayGood(scenes, moves, n);
    NextIsLocal(scenes[n], moves[n]);
    if scenes[n + 1].gets[g].stage.Done? {
      AnswersAreExact(scenes[n], g);
    }
  }

  // ---- and what becomes of a read that a commit overtakes ----

  /** What a read that is midway answers if the tables stay as they are from now on. */
  ghost function Finished(db: Database, r: Reading): Result<Snapshot, Unavailable>
    requires PlansExist(db) && Midway(r.stage)
  {
    match r.stage
    case NoSubscription(_) =>
      (match FreeChoice(db)
       case Some(c) => Ok(Assembled(c, FeaturesOf(db, c.slug), db, r.user, r.now))
       case None => Err(Unavailable))
    case Chose(c, _) => Ok(Assembled(c, FeaturesOf(db, c.slug), db, r.user, r.now))
    case Featured(c, features, _) => Ok(Assembled(c, features, db, r.user, r.now))
    case Unfiled(snapshot, _, _) => Ok(snapshot)
    case Addressed(snapshot, _, _, _) => Ok(snapshot)
  }

  /** It will be filed, under whatever version is current. */
  ghost predicate WillFile(db: Database, r: Reading)
    requires PlansExist(db) && Midway(r.stage)
  {
    && Finished(db, r).Ok? && !r.stage.Addressed?
    && (if r.stage.Unfiled? then r.stage.ttlSeconds > 0 else TimeToLive(Finished(db, r).value, r.now) > 0)
  }

  lemma StepOn(start: Scene, moves: seq<Move>, s: Scene, g: nat) returns (more: seq<Move>, after: Scene)
    requires Leads(start, moves, s) && Smooth(moves) && PlansExist(s.db) && g < |s.gets|
    ensures more == moves + [Advance(g, true)] && Leads(start, more, after) && Smooth(more)
    ensures after == s.(redis := NextRedis(s, s.gets[g], true),
          gets := s.gets[g := s.gets[g].(stage := NextStage(s, s.gets[g], true))])
  {
    LeadsBy(start, moves, s, Advance(g, true));
    more, after := moves + [Advance(g, true)], Next(s, Advance(g, true));
  }

  /** The rest of the statements, up to the snapshot. */
  lemma {:induction false} RunToSnapshot(start: Scene, moves: seq<Move>, s: Scene, g: nat)
          returns (more: seq<Move>, after: Scene)
    requires Leads(start, moves, s) && Smooth(moves) && PlansExist(s.db) && g < |s.gets| && Midway(s.gets[g].stage)
          && WillFile(s.db, s.gets[g])
    ensures moves <= more && Leads(start, more, after) && Smooth(more)
    ensures |after.gets| == |s.gets| && after.gets[g].stage.Unfiled? && after.gets[g].stage.ttlSeconds > 0
    ensures Ok(after.gets[g].stage.snapshot) == Finished(s.db, s.gets[g])
    ensures after == s.(gets := s.gets[g := s.gets[g].(stage := after.gets[g].stage)])
    decreases var stage := s.gets[g].stage; if stage.NoSubscription? then 3 else if stage.Chose? then 2
          else if stage.Featured? then 1 else 0
  {
    hide Leads, Smooth, Assembled, TimeToLive, PlansExist;
    if s.gets[g].stage.Unfiled? {
      more, after := moves, s;
      assert s.gets[g := s.gets[g]] == s.gets;
    } else {
      var first, on := StepOn(start, moves, s, g);
      more, after := RunToSnapshot(start, first, on, g);
      assert s.gets[g := on.gets[g]][g := after.gets[g]] == s.gets[g := after.gets[g]];
    }
  }

  /** Whatever a read files, the next read answers, as long as it has not lapsed. */
  lemma NextReadAnswersWhatWasFiled(start: Scene, moves: seq<Move>, s: Scene, g: nat)
          returns (more: seq<Move>, after: Scene)
    requires Leads(start, moves, s) && Smooth(moves) && PlansExist(s.db) && g < |s.gets| && s.gets[g].stage.Unfiled?
    requires s.gets[g].stage.ttlSeconds > 0 && Lasting(s.gets[g].stage.snapshot.validUntil, s.now)
    ensures moves <= more && Leads(start, more, after) && Smooth(more)
    ensures after.db == s.db && after.now == s.now && after.chores == s.chores && |after.gets| == |s.gets| + 1
    ensures after.gets[|s.gets|] == Reading(s.gets[g].user, s.now, Done(Ok(s.gets[g].stage.snapshot)))
  {
    hide Leads, Smooth, PlansExist;
    var r, n := s.gets[g], |s.gets|;
    more, after := StepOn(start, moves, s, g);
    more, after := StepOn(start, more, after, g);
    var filed := after;
    assert (Current(s), r.user) in filed.redis.entries && Visible(filed.redis, (Current(s), r.user), s.now).Some?;
    more, after := BeginRead(start, more, after, r.user);
    more, after := StepOn(start, more, after, n);
    assert after.gets[n].stage == Versioned(Current(s)) && after.redis == filed.redis;
    more, after := StepOn(start, more, after, n);
  }

  lemma BeginRead(start: Scene, moves: seq<Move>, s: Scene, user: UserId) returns (more: seq<Move>, after: Scene)
    requires Leads(start, moves, s) && Smooth(moves) && PlansExist(s.db)
    ensures moves <= more && Leads(start, more, after) && Smooth(more)
    ensures after == s.(gets := s.gets + [Reading(user, s.now, Started)])
  {
    LeadsBy(start, moves, s, Begin(user));
    more, after := moves + [Begin(user)], Next(s, Begin(user));
  }

  /** A commit and all of its follow-up. */
  lemma CommitAndFollowUp(s: Scene, commit: Move) returns (moves: seq<Move>, after: Scene)
    requires PlansExist(s.db) && Possible(s, commit) && (commit.CommitUser? || commit.CommitCatalog?)
    ensures [commit] <= moves && Leads(s, moves, after) && Smooth(moves)
    ensures PlansExist(commit.after) && after.db == commit.after && after.now == s.now && after.gets == s.gets
    ensures after.chores == s.chores + [Settled]
  {
    var c := |s.chores|;
    LeadsBy(s, [], s, commit);
    moves, after := [] + [commit], Next(s, commit);
    if commit.CommitUser? {
      LeadsBy(s, moves, after, FollowUp(c, true));
      moves, after := moves + [FollowUp(c, true)], Next(after, FollowUp(c, true));
    }
    LeadsBy(s, moves, after, FollowUp(c, true));
    moves, after := moves + [FollowUp(c, true)], Next(after, FollowUp(c, true));
  }

  /** A commit of either kind lands while a read is midway and is followed up at once; the read then goes on and
      files, and another begins. With Redis answering throughout, the second read answers what the first made of
      the tables of before and after: it is exact if and only if that is what the tables now say. */
  lemma StraddlingReadServesOldTables(s: Scene, g: nat, commit: Move) returns (moves: seq<Move>, after: Scene)
    requires PlansExist(s.db) && g < |s.gets| && Midway(s.gets[g].stage)
    requires Possible(s, commit) && (commit.CommitUser? || commit.CommitCatalog?) && PlansExist(commit.after)
    requires WillFile(commit.after, s.gets[g]) && Lasting(Finished(commit.after, s.gets[g]).value.validUntil, s.now)
    ensures [commit] <= moves && Leads(s, moves, after) && Smooth(moves)
    ensures after.db == commit.after && after.now == s.now && after.chores == s.chores + [Settled]
          && |after.gets| == |s.gets| + 1
    ensures var next := after.gets[|s.gets|];
            && next == Reading(s.gets[g].user, s.now, Done(Finished(commit.after, s.gets[g])))
            && (Exact(after, next.user, next.stage.answer) <==>
                  Resolve(commit.after, next.user, s.now) == Finished(commit.after, s.gets[g]))
  {
    hide Leads, Smooth, Finished, WillFile, Resolve, PlansExist, Possible;
    moves, after := CommitAndFollowUp(s, commit);
    moves, after := RunToSnapshot(s, moves, after, g);
    moves, after := NextReadAnswersWhatWasFiled(s, moves, after, g);
  }

  /** The case of a read overtaken with its snapshot ready, by a purchase, a grant, an override or a plan edit:
      the next read still answers from the old tables unless the commit did not matter to the user. */
  lemma OldSnapshotIsServed(before: Database, commit: Move, user: UserId, t: Instant)
          returns (moves: seq<Move>, after: Scene)
    requires PlansExist(before) && Resolve(before, user, t).Ok? && TimeToLive(Resolve(before, user, t).value, t) > 0
    requires commit.CommitCatalog? || (commit.CommitUser? && commit.user == user)
    requires Possible(Scene(before, t, Redis(map[], None), [], []), commit) && PlansExist(commit.after)
    ensures Leads(Scene(before, t, Redis(map[], None), [], []), moves, after) && Smooth(moves) && commit in moves
    ensures after.db == commit.after && after.now == t && after.chores == [Settled]
    ensures |after.gets| == 2 && after.gets[1] == Reading(user, t, Done(Resolve(before, user, t)))
    ensures Exact(after, user, Resolve(before, user, t)) <==> Resolve(commit.after, user, t) == Resolve(before, user, t)
  {
    var cold := Scene(before, t, Redis(map[], None), [], []);
    assert Lasting(Resolve(before, user, t).value.validUntil, t);
    hide Resolve, PlansExist, Leads, TimeToLive, Stored;
    moves, after := CacheLookup(cold, user, UP);
    moves, after := StatementsResolve(cold, moves, after, [], Reading(user, t, Missed));
    hide Possible;
    var first, overtaken := moves, after;
    assert Possible(overtaken, commit) by { SamePossible(cold, overtaken, commit); }
    moves, after := StraddlingReadServesOldTables(overtaken, 0, commit);
    LeadsThrough(cold, first, overtaken, moves, after);
    SmoothParts(first, moves);
    moves := first + moves;
    assert moves[|first|] == commit;
  }

  lemma SamePossible(s: Scene, s': Scene, commit: Move)
    requires Possible(s, commit) && s'.db == s.db && (commit.CommitUser? || commit.CommitCatalog?)
    ensures Possible(s', commit)
  {}

  lemma SmoothParts(a: seq<Move>, b: seq<Move>)
    requires Smooth(a) && Smooth(b)
    ensures Smooth(a + b)
  {}
}
