/** Why the expiry job is housekeeping: no purchase, grant or revocation, and no entitlement read,
    can tell whether and when it ran. */
module ExpiryJob {
  import opened Wrappers
  import opened Calendar
  import opened Durations
  import opened Entitlements
  import opened Billing
  import opened BillingInvariants

  /** The same tables, up to the status of rows already over. */
  predicate Similar(a: Books, b: Books, now: Instant) {
    SameButLapsed(a.subscriptions, b.subscriptions, now) && a.orders == b.orders && a.licenses == b.licenses
  }

  lemma LapsedStaysLapsed(a: seq<Subscription>, b: seq<Subscription>, now: Instant, later: Instant)
    requires SameButLapsed(a, b, now) && now <= later
    ensures SameButLapsed(a, b, later)
  {}

  lemma JobIsSimilar(a: Books, b: Books, now: Instant)
    requires Similar(a, b, now)
    ensures Similar(a, Expire(b, now), now)
  {}

  // ---- the statements the acts are made of ----

  lemma SameRowsOfOrder(a: seq<Subscription>, b: seq<Subscription>, now: Instant, order: nat, from: nat)
    requires SameButLapsed(a, b, now) && from <= |a|
    ensures RowOfOrder(a, order, from) == RowOfOrder(b, order, from)
    decreases |a| - from
  {
    if from < |a| && a[from].order != Some(order) {
      SameRowsOfOrder(a, b, now, order, from + 1);
    }
  }

  /** A live ACTIVE row is the ACTIVE row of both tables. */
  lemma SameLiveActive(a: seq<Subscription>, b: seq<Subscription>, now: Instant, user: UserId)
    requires SameButLapsed(a, b, now) && OneActivePerUser(a) && OneActivePerUser(b)
    ensures var i, j := ActiveRow(a, user), ActiveRow(b, user);
            || (i == j && i.Some? && a[i.value] == b[j.value])
            || ((i.Some? ==> Lapsed(a[i.value], now)) && (j.Some? ==> Lapsed(b[j.value], now)))
  {
    var i, j := ActiveRow(a, user), ActiveRow(b, user);
    if i.Some? && !Lapsed(a[i.value], now) {
      assert a[i.value] == b[i.value];
    }
  }

  lemma SameTermStart(a: seq<Subscription>, b: seq<Subscription>, now: Instant, user: UserId, plan: string)
    requires SameButLapsed(a, b, now) && OneActivePerUser(a) && OneActivePerUser(b)
    ensures TermStart(a, user, plan, now) == TermStart(b, user, plan, now)
  {
    SameLiveActive(a, b, now, user);
  }

  lemma CancelKeepsSimilar(a: seq<Subscription>, b: seq<Subscription>, now: Instant, user: UserId)
    requires SameButLapsed(a, b, now) && OneActivePerUser(a) && OneActivePerUser(b)
    ensures SameButLapsed(CancelActive(a, user), CancelActive(b, user), now)
  {
    SameLiveActive(a, b, now, user);
  }

  lemma EndOrderKeepsSimilar(a: seq<Subscription>, b: seq<Subscription>, now: Instant, order: nat)
    requires SameButLapsed(a, b, now)
    ensures SameButLapsed(EndOrder(a, order), EndOrder(b, order), now)
  {
    SameRowsOfOrder(a, b, now, order, 0);
  }

  lemma AppendKeepsSimilar(a: seq<Subscription>, b: seq<Subscription>, now: Instant, s: Subscription)
    requires SameButLapsed(a, b, now)
    ensures SameButLapsed(a + [s], b + [s], now)
  {}

  // ---- every other act preserves similarity ----

  lemma ClaimKeepsSimilar(a: Books, b: Books, user: UserId, plan: Offer, key: KeyHash, now: Instant)
    requires Sound(a) && Sound(b) && Similar(a, b, now)
    ensures Similar(Claim(a, user, plan, key, now).0, Claim(b, user, plan, key, now).0, now)
    ensures Claim(a, user, plan, key, now).1 == Claim(b, user, plan, key, now).1
  {
    hide ComputeExpiry;
    ClaimSucceeds(a, user, plan, key, now);
    ClaimSucceeds(b, user, plan, key, now);
    SameTermStart(a.subscriptions, b.subscriptions, now, user, plan.slug);
    CancelKeepsSimilar(a.subscriptions, b.subscriptions, now, user);
    var found := LicenseOf(a.licenses, key);
    if found.None? {
      AppendKeepsSimilar(CancelActive(a.subscriptions, user), CancelActive(b.subscriptions, user), now,
                         Claim(a, user, plan, key, now).0.subscriptions[|a.subscriptions|]);
    } else {
      SameRowsOfOrder(a.subscriptions, b.subscriptions, now, a.licenses[found.value].order, 0);
    }
  }

  lemma GrantKeepsSimilar(a: Books, b: Books, user: UserId, plan: Offer, until: Option<Instant>, now: Instant)
    requires Sound(a) && Sound(b) && Similar(a, b, now)
    ensures Similar(Applied(a, Grant(a, user, plan, until, now)), Applied(b, Grant(b, user, plan, until, now)), now)
    ensures Grant(a, user, plan, until, now).Ok? <==> Grant(b, user, plan, until, now).Ok?
  {
    hide ComputeExpiry;
    SameTermStart(a.subscriptions, b.subscriptions, now, user, plan.slug);
    var expiresAt := if until.Some? then until
                     else ComputeExpiry(TermStart(a.subscriptions, user, plan.slug, now), plan.unit, plan.count);
    var row := Subscription(user, plan.slug, Active, AdminGrant, now, expiresAt, None);
    ReplaceSucceeds(a, row);
    ReplaceSucceeds(b, row);
    CancelKeepsSimilar(a.subscriptions, b.subscriptions, now, user);
    AppendKeepsSimilar(CancelActive(a.subscriptions, user), CancelActive(b.subscriptions, user), now, row);
  }

  lemma RefundKeepsSimilar(a: Books, b: Books, license: nat, now: Instant)
    requires Similar(a, b, now) && license < |a.licenses|
    ensures Similar(RevokeLicense(a, license), RevokeLicense(b, license), now)
  {
    EndOrderKeepsSimilar(a.subscriptions, b.subscriptions, now, a.licenses[license].order);
  }

  /** The tables the job has been at have no ACTIVE row the others lack. */
  predicate Fewer(a: Books, b: Books) {
    FewerRows(a.subscriptions, b.subscriptions)
  }

  predicate FewerRows(a: seq<Subscription>, b: seq<Subscription>) {
    |a| == |b| && forall i :: 0 <= i < |a| && a[i].status.Active? ==> b[i].status.Active?
  }

  /** No trial is asked for by a user whose ACTIVE row is already over. */
  predicate Unblocked(b: Books, act: Act, now: Instant) {
    act.BeginTrial? ==>
      var i := ActiveRow(b.subscriptions, act.user);
      i.Some? ==> !Lapsed(b.subscriptions[i.value], now)
  }

  lemma SameTrials(a: seq<Subscription>, b: seq<Subscription>, now: Instant, user: UserId)
    requires SameButLapsed(a, b, now)
    ensures HasTrial(a, user) <==> HasTrial(b, user)
  {
    if HasTrial(a, user) {
      var i :| 0 <= i < |a| && a[i].user == user && a[i].source.Trial?;
      assert b[i] in b;
    }
    if HasTrial(b, user) {
      var i :| 0 <= i < |b| && b[i].user == user && b[i].source.Trial?;
      assert a[i] in a;
    }
  }

  lemma SameRoom(a: Books, b: Books, act: Act, now: Instant)
    requires Sound(a) && Sound(b) && Similar(a, b, now) && Fewer(a, b) && act.BeginTrial? && Unblocked(b, act, now)
    ensures ActiveRow(a.subscriptions, act.user).None? <==> ActiveRow(b.subscriptions, act.user).None?
  {
    SameLiveActive(a.subscriptions, b.subscriptions, now, act.user);
  }

  lemma TrialKeepsSimilar(a: Books, b: Books, act: Act, now: Instant)
    requires Sound(a) && Sound(b) && Similar(a, b, now) && Fewer(a, b) && act.BeginTrial? && Unblocked(b, act, now)
    ensures Similar(Apply(a, act, now), Apply(b, act, now), now)
    ensures Fewer(Apply(a, act, now), Apply(b, act, now))
    ensures Apply(a, act, now) == a <==> Apply(b, act, now) == b
  {
    hide Sound, HasTrial, LiveSubscription, SameButLapsed, FewerRows, Unblocked, ActiveRow;
    SameTrials(a.subscriptions, b.subscriptions, now, act.user);
    SameRoom(a, b, act, now);
    LapsedRowsAreInvisible(a.subscriptions, b.subscriptions, now, act.user, now);
    var row := Subscription(act.user, act.plan.slug, Active, SubscriptionSource.Trial, now,
                            Some(now + act.plan.trialDays * MICROS_PER_DAY), None);
    AppendKeepsSimilar(a.subscriptions, b.subscriptions, now, row);
    AppendKeepsFewer(a.subscriptions, b.subscriptions, row);
    SameInsertion(a.subscriptions, b.subscriptions, row);
  }

  lemma SameInsertion(a: seq<Subscription>, b: seq<Subscription>, s: Subscription)
    requires HasTrial(a, s.user) <==> HasTrial(b, s.user)
    requires ActiveRow(a, s.user).None? <==> ActiveRow(b, s.user).None?
    ensures s.source.Trial? ==> (CanInsertSubscription(a, s) <==> CanInsertSubscription(b, s))
  {
    hide ActiveRow;
  }

  lemma CancelKeepsFewer(a: seq<Subscription>, b: seq<Subscription>, now: Instant, user: UserId)
    requires SameButLapsed(a, b, now) && OneActivePerUser(a) && OneActivePerUser(b) && FewerRows(a, b)
    ensures FewerRows(CancelActive(a, user), CancelActive(b, user))
  {
    SameLiveActive(a, b, now, user);
  }

  lemma AppendKeepsFewer(a: seq<Subscription>, b: seq<Subscription>, s: Subscription)
    requires FewerRows(a, b)
    ensures FewerRows(a + [s], b + [s])
  {}

  lemma ClaimKeepsFewer(a: Books, b: Books, user: UserId, plan: Offer, key: KeyHash, now: Instant)
    requires Sound(a) && Sound(b) && Similar(a, b, now) && Fewer(a, b)
    ensures Fewer(Claim(a, user, plan, key, now).0, Claim(b, user, plan, key, now).0)
  {
    hide ComputeExpiry;
    ClaimSucceeds(a, user, plan, key, now);
    ClaimSucceeds(b, user, plan, key, now);
    SameTermStart(a.subscriptions, b.subscriptions, now, user, plan.slug);
    CancelKeepsFewer(a.subscriptions, b.subscriptions, now, user);
    hide Sound, Similar, SameButLapsed, CancelActive, Claim, FewerRows, TermStart;
    if LicenseOf(a.licenses, key).None? {
      AppendKeepsFewer(CancelActive(a.subscriptions, user), CancelActive(b.subscriptions, user),
            Subscription(user, plan.slug, Active, SupportKoriLicense, now,
                  ComputeExpiry(TermStart(a.subscriptions, user, plan.slug, now), plan.unit, plan.count),
                  Some(|a.orders|)));
    }
  }

  lemma GrantKeepsFewer(a: Books, b: Books, user: UserId, plan: Offer, until: Option<Instant>, now: Instant)
    requires Sound(a) && Sound(b) && Similar(a, b, now) && Fewer(a, b)
    ensures Fewer(Applied(a, Grant(a, user, plan, until, now)), Applied(b, Grant(b, user, plan, until, now)))
  {
    hide ComputeExpiry;
    SameTermStart(a.subscriptions, b.subscriptions, now, user, plan.slug);
    var expiresAt := if until.Some? then until
                     else ComputeExpiry(TermStart(a.subscriptions, user, plan.slug, now), plan.unit, plan.count);
    var row := Subscription(user, plan.slug, Active, AdminGrant, now, expiresAt, None);
    ReplaceSucceeds(a, row);
    ReplaceSucceeds(b, row);
    CancelKeepsFewer(a.subscriptions, b.subscriptions, now, user);
    hide Sound, Similar, SameButLapsed, CancelActive, FewerRows, TermStart, Replace;
    AppendKeepsFewer(CancelActive(a.subscriptions, user), CancelActive(b.subscriptions, user), row);
  }

  lemma RefundKeepsFewer(a: Books, b: Books, license: nat, now: Instant)
    requires Similar(a, b, now) && Fewer(a, b) && license < |a.licenses|
    ensures Fewer(RevokeLicense(a, license), RevokeLicense(b, license))
  {
    SameRowsOfOrder(a.subscriptions, b.subscriptions, now, a.licenses[license].order, 0);
  }

  lemma JobKeepsFewer(a: Books, b: Books, now: Instant)
    requires Similar(a, b, now) && Fewer(a, b)
    ensures Fewer(Expire(a, now), Expire(b, now))
  {}

  lemma ApplyKeepsFewer(a: Books, b: Books, act: Act, now: Instant)
    requires Sound(a) && Sound(b) && Similar(a, b, now) && Fewer(a, b) && Unblocked(b, act, now)
    ensures Fewer(Apply(a, act, now), Apply(b, act, now))
  {
    hide Claim, Grant, StartTrial, RevokeLicense, SameButLapsed;
    match act
    case ClaimKey(user, plan, key) => ClaimKeepsFewer(a, b, user, plan, key, now);
    case GrantPlan(user, plan, until) => GrantKeepsFewer(a, b, user, plan, until, now);
    case RevokePlan(user) => CancelKeepsFewer(a.subscriptions, b.subscriptions, now, user);
    case BeginTrial(_, _, _, _) => TrialKeepsSimilar(a, b, act, now);
    case RefundLicense(license) => if license < |a.licenses| { RefundKeepsFewer(a, b, license, now); }
    case Recheck(license, verdict) => if license < |a.licenses| { RefundKeepsFewer(a, b, license, now); }
    case ExpiryJob => JobKeepsFewer(a, b, now);
  }

  lemma ApplyKeepsSimilar(a: Books, b: Books, act: Act, now: Instant)
    requires Sound(a) && Sound(b) && Similar(a, b, now) && Fewer(a, b) && Unblocked(b, act, now)
    ensures Similar(Apply(a, act, now), Apply(b, act, now), now)
  {
    match act
    case ClaimKey(user, plan, key) => ClaimKeepsSimilar(a, b, user, plan, key, now);
    case GrantPlan(user, plan, until) => GrantKeepsSimilar(a, b, user, plan, until, now);
    case RevokePlan(user) => CancelKeepsSimilar(a.subscriptions, b.subscriptions, now, user);
    case BeginTrial(_, _, _, _) => TrialKeepsSimilar(a, b, act, now);
    case RefundLicense(license) => if license < |a.licenses| { RefundKeepsSimilar(a, b, license, now); }
    case Recheck(license, verdict) => if license < |a.licenses| { RefundKeepsSimilar(a, b, license, now); }
    case ExpiryJob =>
      JobIsSimilar(a, b, now);
      forall i | 0 <= i < |a.subscriptions|
        ensures Expire(a, now).subscriptions[i] == Expire(b, now).subscriptions[i]
             || (Lapsed(a.subscriptions[i], now)
                 && Expire(a, now).subscriptions[i]
                       == Expire(b, now).subscriptions[i].(status := Expire(a, now).subscriptions[i].status)) {}
  }

  // ---- whole runs ----

  /** Time never runs backwards, and no trial is asked for by a user who is waiting for the job: in the run
      without it, that user's ACTIVE row is already over. */
  predicate InOrder(b: Books, acts: seq<Timed>, now: Instant)
    decreases |acts|
  {
    acts == []
    || (now <= acts[0].now && Unblocked(b, acts[0].act, acts[0].now)
        && InOrder(if acts[0].act.ExpiryJob? then b else Apply(b, acts[0].act, acts[0].now), acts[1..], acts[0].now))
  }

  function EndOf(acts: seq<Timed>, now: Instant): Instant
    decreases |acts|
  {
    if acts == [] then now else EndOf(acts[1..], acts[0].now)
  }

  function WithoutJob(acts: seq<Timed>): seq<Timed>
    decreases |acts|
  {
    if acts == [] then []
    else (if acts[0].act.ExpiryJob? then [] else [acts[0]]) + WithoutJob(acts[1..])
  }

  lemma {:induction false} RunsStaySimilar(a: Books, b: Books, acts: seq<Timed>, now: Instant)
    requires Sound(a) && Sound(b) && Similar(a, b, now) && Fewer(a, b) && InOrder(b, acts, now)
    ensures Similar(Replay(a, acts), Replay(b, WithoutJob(acts)), EndOf(acts, now))
    decreases |acts|
  {
    if acts != [] {
      var t, act := acts[0].now, acts[0].act;
      LapsedStaysLapsed(a.subscriptions, b.subscriptions, now, t);
      ApplyKeepsSound(a, act, t);
      if act.ExpiryJob? {
        SimilarIsSymmetric(a, b, t);
        JobIsSimilar(b, a, t);
        SimilarIsSymmetric(b, Expire(a, t), t);
        assert Fewer(Apply(a, act, t), b);
        RunsStaySimilar(Apply(a, act, t), b, acts[1..], t);
        assert WithoutJob(acts) == WithoutJob(acts[1..]);
      } else {
        ApplyKeepsSimilar(a, b, act, t);
        ApplyKeepsFewer(a, b, act, t);
        ApplyKeepsSound(b, act, t);
        RunsStaySimilar(Apply(a, act, t), Apply(b, act, t), acts[1..], t);
        assert WithoutJob(acts)[1..] == WithoutJob(acts[1..]);
      }
    }
  }

  lemma SimilarIsSymmetric(a: Books, b: Books, now: Instant)
    requires Similar(a, b, now)
    ensures Similar(b, a, now)
  {}

  /** Insert the job anywhere in a run of purchases, grants, trials, revocations and refunds in which nobody waits for
      it to start a trial: from the end of the
      run on, every user's live plan is what it would be had the job never run. */
  lemma JobIsInvisible(b: Books, acts: seq<Timed>, now: Instant, user: UserId, later: Instant)
    requires Sound(b) && InOrder(b, acts, now) && EndOf(acts, now) <= later
    ensures LiveSubscription(Replay(b, acts).subscriptions, user, later)
         == LiveSubscription(Replay(b, WithoutJob(acts)).subscriptions, user, later)
  {
    RunsStaySimilar(b, b, acts, now);
    LapsedRowsAreInvisible(Replay(b, acts).subscriptions, Replay(b, WithoutJob(acts)).subscriptions,
          EndOf(acts, now), user, later);
  }

  /** So the resolved entitlements are the same too. */
  lemma JobChangesNoEntitlement(db: Database, b: Books, acts: seq<Timed>, now: Instant, user: UserId, later: Instant)
    requires Sound(b) && InOrder(b, acts, now) && EndOf(acts, now) <= later
    requires PlansExist(db.(subscriptions := Replay(b, acts).subscriptions))
    requires PlansExist(db.(subscriptions := Replay(b, WithoutJob(acts)).subscriptions))
    ensures Resolve(db.(subscriptions := Replay(b, acts).subscriptions), user, later)
         == Resolve(db.(subscriptions := Replay(b, WithoutJob(acts)).subscriptions), user, later)
  {
    RunsStaySimilar(b, b, acts, now);
    HousekeepingIsInvisible(db.(subscriptions := Replay(b, acts).subscriptions),
                            db.(subscriptions := Replay(b, WithoutJob(acts)).subscriptions), EndOf(acts, now), user,
                                  later);
  }
}
