/** What one user may do at one instant: unexpired override over live subscription over free plan. */
module Entitlements {
  import opened Wrappers
  import opened Calendar
  import opened Catalog
  import Periods

  type UserId = nat

  datatype SubscriptionStatus = Active | Expired | Cancelled

  datatype SubscriptionSource = AdminGrant | Trial | SupportKoriLicense

  /** `order` is the row of the purchase that created it, None for trials and admin grants. */
  datatype Subscription = Subscription(
    user: UserId, plan: string, status: SubscriptionStatus, source: SubscriptionSource,
    startsAt: Instant, expiresAt: Option<Instant>, order: Option<nat>)

  datatype Override = Override(intValue: Option<int>, boolValue: Option<bool>, expiresAt: Option<Instant>)

  /** The committed tables a resolution reads; `subscriptions` holds the rows in insertion order. */
  datatype Database = Database(
    plans: map<string, Plan>, defaultFree: Option<string>,
    subscriptions: seq<Subscription>, overrides: map<(UserId, FeatureKey), Override>)

  /** A resolved snapshot; a None source means the free plan. */
  datatype Snapshot = Snapshot(
    planSlug: string, planName: string, source: Option<SubscriptionSource>,
    subscriptionExpiresAt: Option<Instant>, validUntil: Option<Instant>,
    values: map<FeatureKey, FeatureValue>)
  {
    // Missing or mistyped features fail closed.
    function Value(key: FeatureKey): FeatureValue {
      if key in values then values[key] else FeatureValue(None, None, None)
    }

    function Limit(key: FeatureKey): int {
      match Value(key).intValue
      case None => 0
      case Some(n) => n
    }

    predicate IsUnlimited(key: FeatureKey) {
      Limit(key) == UNLIMITED
    }

    predicate Enabled(key: FeatureKey) {
      Value(key).boolValue == Some(true)
    }

    function Period(key: FeatureKey): Option<Periods.QuotaPeriod> {
      Value(key).period
    }
  }

  datatype Unavailable = Unavailable

  /** Not yet over at `now`; None never ends. */
  predicate Lasting(expiresAt: Option<Instant>, now: Instant) {
    expiresAt.None? || expiresAt.value > now
  }

  predicate LiveRow(s: Subscription, user: UserId, now: Instant) {
    s.user == user && s.status.Active? && Lasting(s.expiresAt, now)
  }

  /** The row the subscription query returns. */
  function LiveSubscription(rows: seq<Subscription>, user: UserId, now: Instant): Option<Subscription> {
    if rows == [] then None
    else if LiveRow(rows[0], user, now) then Some(rows[0])
    else LiveSubscription(rows[1..], user, now)
  }

  predicate OneActivePerUser(rows: seq<Subscription>) {
    forall i, j ::
          0 <= i < j < |rows| && rows[i].status.Active? && rows[j].status.Active? ==> rows[i].user != rows[j].user
  }

  /** The query finds a row exactly when there is a live one; under the one-active index it is the
      only one it could find. */
  lemma {:induction false} LiveSubscriptionIsTheLiveRow(rows: seq<Subscription>, user: UserId, now: Instant)
    ensures var found := LiveSubscription(rows, user, now);
            && (found.Some? ==> found.value in rows && LiveRow(found.value, user, now))
            && (found.None? ==> forall s :: s in rows ==> !LiveRow(s, user, now))
            && (OneActivePerUser(rows) ==> forall s :: s in rows && LiveRow(s, user, now) ==> found == Some(s))
  {
    if rows != [] {
      LiveSubscriptionIsTheLiveRow(rows[1..], user, now);
      assert rows == [rows[0]] + rows[1..];
      assert OneActivePerUser(rows) ==> OneActivePerUser(rows[1..]);
    }
  }

  // ---- resolution ----

  function LiveOverrides(db: Database, user: UserId, now: Instant): set<FeatureKey> {
    set key: FeatureKey | (user, key) in db.overrides && Lasting(db.overrides[(user, key)].expiresAt, now)
  }

  function Overlay(base: FeatureValue, o: Override): FeatureValue {
    FeatureValue(if o.intValue.Some? then o.intValue else base.intValue,
                 if o.boolValue.Some? then o.boolValue else base.boolValue,
                 base.period)
  }

  function BaseValue(features: FeatureMatrix, key: FeatureKey): FeatureValue {
    if key in features then features[key] else FeatureValue(None, None, None)
  }

  /** The plan's values with the overrides of `keys` on top. */
  function Overlaid(db: Database, user: UserId, features: FeatureMatrix, keys: set<FeatureKey>): map<FeatureKey,
          FeatureValue>
    requires forall key :: key in keys ==> (user, key) in db.overrides
  {
    map key | key in features.Keys + keys ::
      if key in keys then Overlay(BaseValue(features, key), db.overrides[(user, key)]) else features[key]
  }

  function ResolvedValues(db: Database, user: UserId, now: Instant, features: FeatureMatrix): map<FeatureKey,
          FeatureValue> {
    Overlaid(db, user, features, LiveOverrides(db, user, now))
  }

  function ValueSet(t: Option<Instant>): set<Instant> {
    if t.Some? then {t.value} else {}
  }

  function OverrideExpiries(db: Database, user: UserId, keys: set<FeatureKey>): set<Instant>
    requires forall key :: key in keys ==> (user, key) in db.overrides
  {
    set key | key in keys && db.overrides[(user, key)].expiresAt.Some? :: db.overrides[(user, key)].expiresAt.value
  }

  /** When the parts of a snapshot that can lapse do. */
  function Expiries(db: Database, user: UserId, now: Instant): set<Instant> {
    var live := LiveSubscription(db.subscriptions, user, now);
    ValueSet(if live.Some? then live.value.expiresAt else None)
          + OverrideExpiries(db, user, LiveOverrides(db, user, now))
  }

  ghost predicate IsEarliest(t: Option<Instant>, times: set<Instant>) {
    && (t.None? <==> times == {})
    && (t.Some? ==> t.value in times && forall x :: x in times ==> t.value <= x)
  }

  lemma EarliestIsUnique(a: Option<Instant>, b: Option<Instant>, times: set<Instant>)
    requires IsEarliest(a, times) && IsEarliest(b, times)
    ensures a == b
  {}

  lemma {:induction false} EarliestExists(times: set<Instant>)
    ensures exists t :: IsEarliest(t, times)
    decreases times
  {
    if times == {} {
      assert IsEarliest(None, times);
    } else {
      var x :| x in times;
      EarliestExists(times - {x});
      var rest :| IsEarliest(rest, times - {x});
      assert times == times - {x} + {x};
      assert IsEarliest(if rest.None? || x <= rest.value then Some(x) else rest, times);
    }
  }

  ghost function Earliest(times: set<Instant>): (t: Option<Instant>)
    ensures IsEarliest(t, times)
  {
    EarliestExists(times);
    var t :| IsEarliest(t, times);
    t
  }

  /** Foreign keys: a row's plan cannot be deleted while the row exists. */
  predicate PlansExist(db: Database) {
    && (db.defaultFree.Some? ==> db.defaultFree.value in db.plans)
    && (forall s :: s in db.subscriptions ==> s.plan in db.plans)
  }

  ghost function Resolve(db: Database, user: UserId, now: Instant): (r: Result<Snapshot, Unavailable>)
    requires PlansExist(db)
    ensures r.Ok? ==> r.value.planSlug in db.plans
  {
    var live := LiveSubscription(db.subscriptions, user, now);
    LiveSubscriptionIsTheLiveRow(db.subscriptions, user, now);
    if live.None? && db.defaultFree.None? then Err(Unavailable)
    else
      var slug := if live.Some? then live.value.plan else db.defaultFree.value;
      Ok(Snapshot(slug, db.plans[slug].name,
                  if live.Some? then Some(live.value.source) else None,
                  if live.Some? then live.value.expiresAt else None,
                  Earliest(Expiries(db, user, now)),
                  ResolvedValues(db, user, now, db.plans[slug].features)))
  }

  /** The loop over the override rows: values and earliest expiry are updated row by row. */
  method OverlayRows(db: Database, user: UserId, now: Instant, features: FeatureMatrix, expiresAt: Option<Instant>)
    returns (values: map<FeatureKey, FeatureValue>, earliest: Option<Instant>)
    ensures values == ResolvedValues(db, user, now, features)
    ensures IsEarliest(earliest, ValueSet(expiresAt) + OverrideExpiries(db, user, LiveOverrides(db, user, now)))
  {
    hide Overlaid, OverrideExpiries, Overlay, BaseValue;
    NothingOverlaid(db, user, features, expiresAt);
    values, earliest := features, expiresAt;
    var rest := LiveOverrides(db, user, now);
    ghost var done: set<FeatureKey> := {};
    while rest != {}
      invariant done !! rest && done + rest == LiveOverrides(db, user, now)
      invariant values == Overlaid(db, user, features, done)
      invariant IsEarliest(earliest, ValueSet(expiresAt) + OverrideExpiries(db, user, done))
    {
      var key :| key in rest;
      var o := db.overrides[(user, key)];
      var base := BaseValue(values, key);
      values := values[key := Overlay(base, o)];
      if o.expiresAt.Some? {
        earliest := if earliest.None? || o.expiresAt.value <= earliest.value then o.expiresAt else earliest;
      }
      OverlayStep(db, user, features, done, key);
      EarliestStep(db, user, expiresAt, done, key);
      rest, done := rest - {key}, done + {key};
    }
  }

  lemma NothingOverlaid(db: Database, user: UserId, features: FeatureMatrix, expiresAt: Option<Instant>)
    ensures Overlaid(db, user, features, {}) == features && OverrideExpiries(db, user, {}) == {}
  {}

  lemma OverlayStep(db: Database, user: UserId, features: FeatureMatrix, done: set<FeatureKey>, key: FeatureKey)
    requires key !in done && (user, key) in db.overrides
    requires forall k :: k in done ==> (user, k) in db.overrides
    ensures var before := Overlaid(db, user, features, done);
            before[key := Overlay(BaseValue(before, key), db.overrides[(user, key)])]
              == Overlaid(db, user, features, done + {key})
  {}

  lemma EarliestStep(db: Database, user: UserId, expiresAt: Option<Instant>, done: set<FeatureKey>, key: FeatureKey)
    requires (user, key) in db.overrides
    requires forall k :: k in done ==> (user, k) in db.overrides
    ensures ValueSet(expiresAt) + OverrideExpiries(db, user, done + {key})
         == ValueSet(expiresAt) + OverrideExpiries(db, user, done) + ValueSet(db.overrides[(user, key)].expiresAt)
  {}

  /** The statement-by-statement resolution of the service. */
  method ResolveRows(db: Database, user: UserId, now: Instant) returns (r: Result<Snapshot, Unavailable>)
    requires PlansExist(db)
    ensures r == Resolve(db, user, now)
  {
    LiveSubscriptionIsTheLiveRow(db.subscriptions, user, now);
    var subscription := LiveSubscription(db.subscriptions, user, now);
    var slug, source, expiresAt := "", None, None;
    if subscription.Some? {
      slug, source, expiresAt := subscription.value.plan, Some(subscription.value.source), subscription.value.expiresAt;
    } else {
      if db.defaultFree.None? {
        return Err(Unavailable);
      }
      slug := db.defaultFree.value;
    }
    var plan := db.plans[slug];
    var values, earliest := OverlayRows(db, user, now, plan.features, expiresAt);
    EarliestIsUnique(earliest, Earliest(Expiries(db, user, now)), Expiries(db, user, now));
    return Ok(Snapshot(slug, plan.name, source, expiresAt, earliest, values));
  }

  // ---- how long a snapshot stays true ----

  /** What can lapse at a later instant has an expiry that counts towards `validUntil`. */
  lemma {:induction false} LiveRowsOnlyLapse(rows: seq<Subscription>, user: UserId, t: Instant, later: Instant)
    requires t <= later
    ensures var found := LiveSubscription(rows, user, t);
            found.None? || Lasting(found.value.expiresAt, later) ==> LiveSubscription(rows, user, later) == found
  {
    if rows != [] {
      LiveRowsOnlyLapse(rows[1..], user, t, later);
    }
  }

  /** With the tables unchanged, a snapshot equals the resolution at a later instant exactly until
      its `validUntil`: the bound is sound and it is tight. */
  lemma SnapshotHoldsUntilValidUntil(db: Database, user: UserId, t: Instant, later: Instant)
    requires PlansExist(db) && t <= later
    requires Resolve(db, user, t).Ok?
    ensures Resolve(db, user, later) == Resolve(db, user, t)
       <==> Lasting(Resolve(db, user, t).value.validUntil, later)
  {
    var snapshot := Resolve(db, user, t).value;
    LiveSubscriptionIsTheLiveRow(db.subscriptions, user, t);
    LiveSubscriptionIsTheLiveRow(db.subscriptions, user, later);
    if Lasting(snapshot.validUntil, later) {
      var live := LiveSubscription(db.subscriptions, user, t);
      assert live.Some? && live.value.expiresAt.Some? ==> live.value.expiresAt.value in Expiries(db, user, t);
      LiveRowsOnlyLapse(db.subscriptions, user, t, later);
      forall key | key in LiveOverrides(db, user, t) ensures key in LiveOverrides(db, user, later) {
        var e := db.overrides[(user, key)].expiresAt;
        assert e.Some? ==> e.value in Expiries(db, user, t);
      }
      assert LiveOverrides(db, user, later) == LiveOverrides(db, user, t);
    } else {
      var after := Resolve(db, user, later);
      if after.Ok? && after.value.validUntil.Some? {
        assert after.value.validUntil.value in Expiries(db, user, later);
        assert after.value.validUntil.value > later >= snapshot.validUntil.value;
      }
    }
  }

  // ---- edits of the tables that a resolution cannot see ----

  predicate Lapsed(s: Subscription, now: Instant) {
    !Lasting(s.expiresAt, now)
  }

  /** The same rows, except that rows already over at `now` may carry another status. */
  predicate SameButLapsed(a: seq<Subscription>, b: seq<Subscription>, now: Instant) {
    |a| == |b| && forall i :: 0 <= i < |a| ==>
      a[i] == b[i] || (Lapsed(a[i], now) && a[i] == b[i].(status := a[i].status))
  }

  lemma {:induction false} LapsedRowsAreInvisible(a: seq<Subscription>, b: seq<Subscription>, now: Instant,
          user: UserId, later: Instant)
    requires SameButLapsed(a, b, now) && now <= later
    ensures LiveSubscription(a, user, later) == LiveSubscription(b, user, later)
    decreases |a|
  {
    if a != [] {
      LapsedRowsAreInvisible(a[1..], b[1..], now, user, later);
    }
  }

  function RowsOf(rows: seq<Subscription>, user: UserId): seq<Subscription> {
    if rows == [] then []
    else (if rows[0].user == user then [rows[0]] else []) + RowsOf(rows[1..], user)
  }

  lemma {:induction false} OwnRowsDecide(rows: seq<Subscription>, user: UserId, now: Instant)
    ensures LiveSubscription(rows, user, now) == LiveSubscription(RowsOf(rows, user), user, now)
  {
    if rows != [] {
      OwnRowsDecide(rows[1..], user, now);
      var own := RowsOf(rows, user);
      if rows[0].user == user {
        assert own[0] == rows[0] && own[1..] == RowsOf(rows[1..], user);
      } else {
        assert own == RowsOf(rows[1..], user);
      }
    }
  }

  /** Nothing of `user` differs between the two databases. */
  ghost predicate SameFor(a: Database, b: Database, user: UserId) {
    && a.plans == b.plans && a.defaultFree == b.defaultFree
    && RowsOf(a.subscriptions, user) == RowsOf(b.subscriptions, user)
    && (forall key: FeatureKey :: ((user, key) in a.overrides <==> (user, key) in b.overrides)
          && ((user, key) in a.overrides ==> a.overrides[(user, key)] == b.overrides[(user, key)]))
  }

  lemma OthersUnaffected(a: Database, b: Database, user: UserId, now: Instant)
    requires PlansExist(a) && PlansExist(b) && SameFor(a, b, user)
    ensures Resolve(a, user, now) == Resolve(b, user, now)
  {
    OwnRowsDecide(a.subscriptions, user, now);
    OwnRowsDecide(b.subscriptions, user, now);
    var keys := LiveOverrides(a, user, now);
    assert keys == LiveOverrides(b, user, now);
    assert OverrideExpiries(a, user, keys) == OverrideExpiries(b, user, keys);
    forall slug | slug in a.plans
      ensures Overlaid(a, user, a.plans[slug].features, keys) == Overlaid(b, user, a.plans[slug].features, keys)
    {}
  }

  /** Housekeeping on lapsed rows changes no resolution from then on. */
  lemma HousekeepingIsInvisible(a: Database, b: Database, now: Instant, user: UserId, later: Instant)
    requires PlansExist(a) && PlansExist(b) && now <= later
    requires b == a.(subscriptions := b.subscriptions) && SameButLapsed(a.subscriptions, b.subscriptions, now)
    ensures Resolve(a, user, later) == Resolve(b, user, later)
  {
    LapsedRowsAreInvisible(a.subscriptions, b.subscriptions, now, user, later);
    assert Expiries(a, user, later) == Expiries(b, user, later);
  }

  // ---- the catalogue's promises reach every resolved limit ----

  ghost predicate ValidDatabase(db: Database) {
    && PlansExist(db) && db.defaultFree.Some?
    && (forall slug :: slug in db.plans ==> CompleteMatrix(db.plans[slug].features))
    && (forall row :: row in db.overrides ==>
          ValidateFeatureValue(row.1,
                FeatureValue(db.overrides[row].intValue, db.overrides[row].boolValue, None)).None?)
  }

  /** Every feature of every resolved snapshot has one well-typed value: limits are -1 or more,
      switches are never limits, flow features have a period. */
  lemma ResolvedSnapshotsAreWellTyped(db: Database, user: UserId, now: Instant)
    requires ValidDatabase(db)
    ensures Resolve(db, user, now).Ok?
    ensures CompleteMatrix(Resolve(db, user, now).value.values)
    ensures forall key: FeatureKey :: Resolve(db, user, now).value.Limit(key) >= UNLIMITED
  {
    LiveSubscriptionIsTheLiveRow(db.subscriptions, user, now);
    var snapshot := Resolve(db, user, now).value;
    var features := db.plans[snapshot.planSlug].features;
    assert CompleteMatrix(features);
    forall key: FeatureKey ensures key in snapshot.values && WellTyped(key, snapshot.values[key]) {
      assert key in features && WellTyped(key, features[key]);
      if key in LiveOverrides(db, user, now) {
        assert (user, key) in db.overrides;
      }
    }
    forall key: FeatureKey ensures snapshot.Limit(key) >= UNLIMITED {
      assert WellTyped(key, snapshot.values[key]);
    }
  }

  /** Cell by cell, over any database: a value the override in force leaves out is the plan's own, and the period is
      always the plan's. A feature that neither has is not there. */
  lemma ResolvedCells(db: Database, user: UserId, now: Instant, key: FeatureKey)
    requires PlansExist(db) && Resolve(db, user, now).Ok?
    ensures var snapshot := Resolve(db, user, now).value;
            var features := db.plans[snapshot.planSlug].features;
            var inForce := (user, key) in db.overrides
                           && (match db.overrides[(user, key)].expiresAt case None => true case Some(end) => now < end);
            && (key in snapshot.values <==> key in features || inForce)
            && snapshot.Period(key) == (if key in features then features[key].period else None)
            && snapshot.Value(key).intValue ==
                 (if inForce && db.overrides[(user, key)].intValue.Some? then db.overrides[(user, key)].intValue
                  else if key in features then features[key].intValue else None)
            && snapshot.Value(key).boolValue ==
                 (if inForce && db.overrides[(user, key)].boolValue.Some? then db.overrides[(user, key)].boolValue
                  else if key in features then features[key].boolValue else None)
  {
    LiveSubscriptionIsTheLiveRow(db.subscriptions, user, now);
    var features := db.plans[Resolve(db, user, now).value.planSlug].features;
    assert Resolve(db, user, now).value.values == ResolvedValues(db, user, now, features);
    assert key in LiveOverrides(db, user, now) <==>
        (user, key) in db.overrides && Lasting(db.overrides[(user, key)].expiresAt, now);
    hide Resolve, LiveOverrides, LiveSubscription;
  }

  /** The plan is that of the user's one row that is ACTIVE and not over, or else the free one; without either there
      is no answer. */
  lemma ResolvedPlan(db: Database, user: UserId, now: Instant)
    requires PlansExist(db) && OneActivePerUser(db.subscriptions)
    ensures var r := Resolve(db, user, now);
            var mine := set s | s in db.subscriptions && s.user == user && s.status == Active
                                && (s.expiresAt.None? || now < s.expiresAt.value);
            && (forall s :: s in mine ==>
                  && r.Ok? && r.value.planSlug == s.plan && r.value.source == Some(s.source)
                  && r.value.subscriptionExpiresAt == s.expiresAt)
            && (mine == {} ==> (r.Ok? <==> db.defaultFree.Some?))
            && (mine == {} && r.Ok? ==>
                  && Some(r.value.planSlug) == db.defaultFree && r.value.source.None?
                  && r.value.subscriptionExpiresAt.None?)
            && (r.Ok? ==> r.value.planName == db.plans[r.value.planSlug].name)
  {
    LiveSubscriptionIsTheLiveRow(db.subscriptions, user, now);
    var live := LiveSubscription(db.subscriptions, user, now);
    hide LiveSubscription, Earliest, Expiries, ResolvedValues;
    var mine := set s | s in db.subscriptions && s.user == user && s.status == Active
                        && (s.expiresAt.None? || now < s.expiresAt.value);
    forall s | s in mine ensures live == Some(s) {
      assert LiveRow(s, user, now);
    }
    assert live.Some? ==> live.value in mine;
  }

  /** An override in force decides its feature, whatever the plan says; without one, the plan does. */
  lemma OverrideWins(db: Database, user: UserId, now: Instant, key: FeatureKey)
    requires ValidDatabase(db)
    ensures var snapshot := Resolve(db, user, now).value;
            var row := (user, key);
            if row in db.overrides && Lasting(db.overrides[row].expiresAt, now) then
              && (ValueType(key).IntType? ==> Some(snapshot.Limit(key)) == db.overrides[row].intValue)
              && (ValueType(key).BoolType? ==> (snapshot.Enabled(key) <==> db.overrides[row].boolValue == Some(true)))
            else
              key in db.plans[snapshot.planSlug].features
                    && snapshot.values[key] == db.plans[snapshot.planSlug].features[key]
  {
    ResolvedSnapshotsAreWellTyped(db, user, now);
    LiveSubscriptionIsTheLiveRow(db.subscriptions, user, now);
    var snapshot := Resolve(db, user, now).value;
    assert CompleteMatrix(db.plans[snapshot.planSlug].features);
    assert key in db.plans[snapshot.planSlug].features;
    if (user, key) in db.overrides {
      assert ValidateFeatureValue(key,
            FeatureValue(db.overrides[(user, key)].intValue, db.overrides[(user, key)].boolValue, None)).None?;
    }
  }
}
