/** Overrides, and why every database the admin requests and billing can reach gives every feature a limit
    both quota gates agree on. */
module EntitlementTables {
  import opened Wrappers
  import opened Calendar
  import opened Catalog
  import opened Durations
  import opened Entitlements
  import opened Billing
  import opened BillingInvariants
  import Quota = QuotaService

  type OverrideRows = map<(UserId, FeatureKey), Override>

  predicate ValidOverride(key: FeatureKey, o: Override) {
    ValidateFeatureValue(key, FeatureValue(o.intValue, o.boolValue, None)).None?
  }

  /** `known` says whether the user exists. */
  function OverrideSet(rows: OverrideRows, known: bool, user: UserId, name: string, o: Override,
          now: Instant): Result<OverrideRows, AdminError> {
    if !known then Err(AdminError.NotFound)
    else
      match Catalog.Lookup(name)
      case None => Err(AdminError.NotFound)
      case Some(key) =>
        if !ValidOverride(key, o) || !Lasting(o.expiresAt, now) then Err(AdminError.ValidationFailed)
        else Ok(rows[(user, key) := o])
  }

  function OverrideDeleted(rows: OverrideRows, known: bool, user: UserId, name: string): Result<OverrideRows,
          AdminError> {
    match Catalog.Lookup(name)
    case Some(key) => if known && (user, key) in rows then Ok(rows - {(user, key)}) else Err(AdminError.NotFound)
    case None => Err(AdminError.NotFound)
  }

  class OverrideTable {
    var rows: OverrideRows

    constructor ()
      ensures rows == map[]
    {
      rows := map[];
    }

    method SetOverride(known: bool, user: UserId, name: string, o: Override, now: Instant)
            returns (r: Result<(), AdminError>)
      modifies this
      ensures var result := OverrideSet(old(rows), known, user, name, o, now);
              if result.Ok? then r.Ok? && rows == result.value else r == Err(result.error) && rows == old(rows)
    {
      if !known {
        return Err(AdminError.NotFound);
      }
      var definition := Catalog.Lookup(name);
      if definition.None? {
        return Err(AdminError.NotFound);
      }
      var problem := ValidateFeatureValue(definition.value, FeatureValue(o.intValue, o.boolValue, None));
      if problem.Some? {
        return Err(AdminError.ValidationFailed);
      }
      if o.expiresAt.Some? && o.expiresAt.value <= now {
        return Err(AdminError.ValidationFailed);
      }
      rows := rows[(user, definition.value) := o];
      return Ok(());
    }

    method DeleteOverride(known: bool, user: UserId, name: string) returns (r: Result<(), AdminError>)
      modifies this
      ensures var result := OverrideDeleted(old(rows), known, user, name);
              if result.Ok? then r.Ok? && rows == result.value else r == Err(result.error) && rows == old(rows)
    {
      if !known {
        return Err(AdminError.NotFound);
      }
      var definition := Catalog.Lookup(name);
      if definition.None? || (user, definition.value) !in rows {
        return Err(AdminError.NotFound);
      }
      rows := rows - {(user, definition.value)};
      return Ok(());
    }
  }

  // ---- runs of everything that writes the tables a resolution reads ----

  /** The database a resolution reads, and the billing tables whose subscriptions it shares. */
  datatype Tables = Tables(db: Database, books: Books)

  datatype Request =
    | AddPlan(slug: string, name: string, cloneFrom: Option<string>, plan: Plan)
    | EditPlan(slug: string, edits: seq<Edit>, features: FeatureMatrix)
    | RenamePlan(slug: string, name: string)
    | DropPlan(slug: string)
    | PutOverride(known: bool, user: UserId, feature: string, o: Override)
    | DropOverride(known: bool, user: UserId, feature: string)
    | Bill(act: Act)

  predicate Named(b: Books, slug: string) {
    exists s :: s in b.subscriptions && s.plan == slug
  }

  /** The plan a billing act is about. */
  function OfferOf(act: Act): Option<string> {
    match act
    case ClaimKey(_, plan, _) => Some(plan.slug)
    case GrantPlan(_, plan, _) => Some(plan.slug)
    case BeginTrial(_, plan, _, _) => Some(plan.slug)
    case _ => None
  }

  /** Requests that pass the checks of the plan table; an override request is free to fail. */
  ghost predicate Accepted(t: Tables, q: Request) {
    match q
    case AddPlan(slug, name, cloneFrom, plan) => IsNewPlan(t.db.plans, slug, name, cloneFrom, plan)
    case EditPlan(slug, edits, features) =>
      && slug in t.db.plans && DistinctNames(edits) && (forall e :: e in edits ==> Acceptable(e))
      && Edited(edits, t.db.plans[slug].features, features)
    case RenamePlan(slug, _) => slug in t.db.plans
    case DropPlan(slug) => slug in t.db.plans && t.db.defaultFree != Some(slug) && !Named(t.books, slug)
    case PutOverride(_, _, _, _) => true
    case DropOverride(_, _, _) => true
    case Bill(act) => OfferOf(act).Some? ==> OfferOf(act).value in t.db.plans
  }

  function Kept(rows: OverrideRows, r: Result<OverrideRows, AdminError>): OverrideRows {
    if r.Ok? then r.value else rows
  }

  ghost function Handled(t: Tables, q: Request, now: Instant): Tables
    requires Accepted(t, q)
  {
    match q
    case AddPlan(slug, _, _, plan) => t.(db := t.db.(plans := t.db.plans[slug := plan]))
    case EditPlan(slug, _,
          features) => t.(db := t.db.(plans := t.db.plans[slug := t.db.plans[slug].(features := features)]))
    case RenamePlan(slug, name) => t.(db := t.db.(plans := t.db.plans[slug := t.db.plans[slug].(name := name)]))
    case DropPlan(slug) => t.(db := t.db.(plans := t.db.plans - {slug}))
    case PutOverride(known, user, feature, o) =>
      t.(db := t.db.(overrides := Kept(t.db.overrides, OverrideSet(t.db.overrides, known, user, feature, o, now))))
    case DropOverride(known, user, feature) =>
      t.(db := t.db.(overrides := Kept(t.db.overrides, OverrideDeleted(t.db.overrides, known, user, feature))))
    case Bill(act) =>
      var books := Apply(t.books, act, now);
      Tables(t.db.(subscriptions := books.subscriptions), books)
  }

  datatype Stamped = Stamped(now: Instant, request: Request)

  ghost predicate IsHistory(t: Tables, history: seq<Stamped>)
    decreases |history|
  {
    history == [] || (Accepted(t, history[0].request)
          && IsHistory(Handled(t, history[0].request, history[0].now), history[1..]))
  }

  ghost function After(t: Tables, history: seq<Stamped>): Tables
    requires IsHistory(t, history)
    decreases |history|
  {
    if history == [] then t else After(Handled(t, history[0].request, history[0].now), history[1..])
  }

  /** A database just seeded. */
  const SEEDED: Tables := Tables(
    Database(map["free" := FREE_PLAN, "premium" := PREMIUM_PLAN], Some("free"), [], map[]), EMPTY)

  ghost predicate SoundTables(t: Tables) {
    Sound(t.books) && t.db.subscriptions == t.books.subscriptions && ValidDatabase(t.db)
  }

  /** A billing act adds rows of the plan it is about, and of no other. */
  lemma NewRowsNameTheOffer(b: Books, act: Act, now: Instant)
    requires Sound(b)
    ensures forall s :: s in Apply(b, act, now).subscriptions ==> Named(b, s.plan) || OfferOf(act) == Some(s.plan)
  {
    hide ComputeExpiry;
    var after := Apply(b, act, now).subscriptions;
    ApplyExtends(b, act, now);
    AtMostOneRow(b, act, now);
    forall s | s in after ensures Named(b, s.plan) || OfferOf(act) == Some(s.plan) {
      var i :| 0 <= i < |after| && after[i] == s;
      if i < |b.subscriptions| {
        assert after[..|b.subscriptions|][i] == s;
        assert b.subscriptions[i] in b.subscriptions;
      }
    }
  }

  lemma AtMostOneRow(b: Books, act: Act, now: Instant)
    requires Sound(b)
    ensures var after := Apply(b, act, now).subscriptions;
            |after| <= |b.subscriptions| + 1
                  && (|after| == |b.subscriptions| + 1 ==> OfferOf(act) == Some(after[|b.subscriptions|].plan))
  {
    hide ComputeExpiry, OneActivePerUser, Sound, CanInsertOrder, CanInsertLicense, CanInsertSubscription;
  }

  lemma BillingKeepsTables(t: Tables, act: Act, now: Instant)
    requires SoundTables(t) && Accepted(t, Bill(act))
    ensures SoundTables(Handled(t, Bill(act), now))
  {
    hide Apply, Sound;
    ApplyKeepsSound(t.books, act, now);
    NewRowsNameTheOffer(t.books, act, now);
  }

  lemma RequestKeepsTables(t: Tables, q: Request, now: Instant)
    requires SoundTables(t) && Accepted(t, q)
    ensures SoundTables(Handled(t, q, now))
  {
    hide Sound, Apply, Catalog.Lookup, ValidateFeatureValue;
    match q
    case AddPlan(slug, _, cloneFrom, _) =>
      NewPlansAreComplete(if cloneFrom.Some? then t.db.plans[cloneFrom.value].features else map[]);
    case EditPlan(slug, edits, features) => EditsKeepComplete(edits, t.db.plans[slug].features, features);
    case Bill(act) => BillingKeepsTables(t, act, now);
    case _ =>
  }

  lemma SeededTablesAreSound()
    ensures SoundTables(SEEDED)
  {
    SeedsAreComplete();
    EmptyBooksAreSound();
  }

  lemma {:induction false} HistoryKeepsTables(t: Tables, history: seq<Stamped>)
    requires SoundTables(t) && IsHistory(t, history)
    ensures SoundTables(After(t, history))
    decreases |history|
  {
    hide SoundTables, Accepted, Handled;
    if history != [] {
      RequestKeepsTables(t, history[0].request, history[0].now);
      HistoryKeepsTables(Handled(t, history[0].request, history[0].now), history[1..]);
    }
  }

  /** Whatever plans are made, edited and dropped, whatever overrides are set and whatever billing does: every
      user always resolves, every limit is -1 or more, and on it the Redis script and the row-locked path
      refuse the same amounts. */
  lemma GatesAgreeOnEveryResolvedLimit(history: seq<Stamped>, user: UserId, now: Instant, key: FeatureKey, used: int,
          amount: int)
    requires IsHistory(SEEDED, history)
    ensures var db := After(SEEDED, history).db;
            && ValidDatabase(db) && Resolve(db, user, now).Ok?
            && var snapshot := Resolve(db, user, now).value;
            && CompleteMatrix(snapshot.values)
            && var limit := snapshot.Limit(key);
            && limit >= UNLIMITED
            && (Quota.ConsumeScript(Some(used), limit, amount).1.Denied? <==> Quota.RowRefuses(used, limit, amount))
  {
    SeededTablesAreSound();
    HistoryKeepsTables(SEEDED, history);
    var db := After(SEEDED, history).db;
    ResolvedSnapshotsAreWellTyped(db, user, now);
    Quota.GatesAgree(used, Resolve(db, user, now).value.Limit(key), amount);
  }

  /** Which override requests are accepted, why the others are not, and what the accepted ones write: that row and no
      other. */
  lemma OverrideOutcome(rows: OverrideRows, known: bool, user: UserId, name: string, o: Override, now: Instant)
    ensures var r := OverrideSet(rows, known, user, name, o, now);
            var feature := Catalog.Lookup(name);
            var fits := feature.Some? && (if Kind(feature.value).Gate? then o.boolValue.Some? && o.intValue.None?
                                          else o.intValue.Some? && o.intValue.value >= -1 && o.boolValue.None?);
            && (r == Err(AdminError.NotFound) <==> !known || feature.None?)
            && (r == Err(AdminError.ValidationFailed) <==>
                  known && feature.Some? && !(fits && (o.expiresAt.Some? ==> now < o.expiresAt.value)))
            && (r.Err? ==> r.error in {AdminError.NotFound, AdminError.ValidationFailed})
            && (r.Ok? ==> forall row :: (row in r.value <==> row in rows || row == (user, feature.value))
                            && (row in r.value ==> r.value[row] == if row == (user, feature.value) then o
                                  else rows[row]))
  {
    hide Catalog.Lookup;
  }

  /** And which deletions: the row goes, and no other. */
  lemma DeletionOutcome(rows: OverrideRows, known: bool, user: UserId, name: string)
    ensures var r := OverrideDeleted(rows, known, user, name);
            var feature := Catalog.Lookup(name);
            && (r.Ok? <==> known && feature.Some? && (user, feature.value) in rows)
            && (r.Err? ==> r.error == AdminError.NotFound)
            && (r.Ok? ==> forall row :: (row in r.value <==> row in rows && row != (user, feature.value))
                            && (row in r.value ==> r.value[row] == rows[row]))
  {
    hide Catalog.Lookup;
  }

  /** An accepted override decides its user's feature from the request on, and nobody else's. */
  lemma OverrideTakesEffect(t: Tables, user: UserId, name: string, o: Override, now: Instant)
    requires SoundTables(t) && OverrideSet(t.db.overrides, true, user, name, o, now).Ok?
    ensures var after := Handled(t, PutOverride(true, user, name, o), now).db;
            var key := Catalog.Lookup(name).value;
            && ValidDatabase(after)
            && (ValueType(key).IntType? ==> o.intValue == Some(Resolve(after, user, now).value.Limit(key)))
            && (ValueType(key).BoolType? ==>
                  (Resolve(after, user, now).value.Enabled(key) <==> o.boolValue == Some(true)))
            && forall other: UserId, later: Instant ::
                  other != user ==> Resolve(after, other, later) == Resolve(t.db, other, later)
  {
    hide Sound, Catalog.Lookup, ValidateFeatureValue;
    RequestKeepsTables(t, PutOverride(true, user, name, o), now);
    var after := Handled(t, PutOverride(true, user, name, o), now).db;
    var key := Catalog.Lookup(name).value;
    ResolvedSnapshotsAreWellTyped(after, user, now);
    OverrideWins(after, user, now, key);
    hide Resolve;
    forall other: UserId, later: Instant | other != user
      ensures Resolve(after, other, later) == Resolve(t.db, other, later)
    {
      OthersUnaffected(after, t.db, other, later);
    }
  }

  /** Dropping it gives the feature back to the plan. */
  lemma DroppedOverrideRestoresPlan(t: Tables, user: UserId, name: string, now: Instant)
    requires SoundTables(t) && OverrideDeleted(t.db.overrides, true, user, name).Ok?
    ensures var after := Handled(t, DropOverride(true, user, name), now).db;
            var key := Catalog.Lookup(name).value;
            && ValidDatabase(after) && Resolve(after, user, now).Ok?
            && var snapshot := Resolve(after, user, now).value;
            && snapshot.planSlug in after.plans && key in after.plans[snapshot.planSlug].features
                  && key in snapshot.values
            && snapshot.values[key] == t.db.plans[snapshot.planSlug].features[key]
  {
    hide Sound, Catalog.Lookup, ValidateFeatureValue;
    RequestKeepsTables(t, DropOverride(true, user, name), now);
    var after := Handled(t, DropOverride(true, user, name), now).db;
    ResolvedSnapshotsAreWellTyped(after, user, now);
    OverrideWins(after, user, now, Catalog.Lookup(name).value);
  }
}
