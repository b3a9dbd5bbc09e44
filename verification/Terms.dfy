/** What purchases, refunds and trials mean for the plan a user has. */
module Terms {
  import opened Wrappers
  import opened Calendar
  import opened Durations
  import opened Entitlements
  import opened Billing
  import opened BillingInvariants

  /** When the user's live plan ends; the outer None is no live plan. */
  function LiveEnd(b: Books, user: UserId, now: Instant): Option<Option<Instant>> {
    match LiveSubscription(b.subscriptions, user, now)
    case None => None
    case Some(s) => Some(s.expiresAt)
  }

  lemma LiveIsActiveRow(b: Books, user: UserId, now: Instant)
    requires Sound(b)
    ensures var active, live := ActiveRow(b.subscriptions, user), LiveSubscription(b.subscriptions, user, now);
            live == if active.Some? && Lasting(b.subscriptions[active.value].expiresAt, now)
                    then Some(b.subscriptions[active.value]) else None
  {
    LiveSubscriptionIsTheLiveRow(b.subscriptions, user, now);
    var live := LiveSubscription(b.subscriptions, user, now);
    if live.Some? {
      var i :| 0 <= i < |b.subscriptions| && b.subscriptions[i] == live.value;
    }
  }

  /** The user's only ACTIVE row after an append is the appended one. */
  lemma AppendedRowIsLive(b: Books, rows: seq<Subscription>, s: Subscription, now: Instant)
    requires Sound(b) && b.subscriptions == rows + [s] && s.status.Active?
    ensures LiveSubscription(b.subscriptions, s.user, now) == if Lasting(s.expiresAt, now) then Some(s) else None
  {
    assert b.subscriptions[|rows|] == s;
    LiveIsActiveRow(b, s.user, now);
  }

  /** A fresh key gives its buyer the plan: from now, or from the end of the term they already have. */
  lemma PurchaseTakesEffect(b: Books, user: UserId, plan: Offer, key: KeyHash, now: Instant)
    requires Sound(b) && LicenseOf(b.licenses, key).None? && (plan.unit.Lifetime? || plan.count >= 1)
    ensures var after := Claim(b, user, plan, key, now).0;
            var current := LiveSubscription(b.subscriptions, user, now);
            var stacks := current.Some? && current.value.plan == plan.slug && current.value.expiresAt.Some?;
            var from := if stacks then current.value.expiresAt.value else now;
            var live := LiveSubscription(after.subscriptions, user, now);
            && Sound(after) && live.Some?
            && live.value.plan == plan.slug && live.value.source.SupportKoriLicense?
            && live.value.order == Some(|b.orders|)
            && live.value.expiresAt == ComputeExpiry(from, plan.unit, plan.count)
            && forall other, t :: other != user ==>
                 LiveSubscription(after.subscriptions, other, t) == LiveSubscription(b.subscriptions, other, t)
  {
    var after := Claim(b, user, plan, key, now).0;
    ClaimSucceeds(b, user, plan, key, now);
    ClaimKeepsSound(b, user, plan, key, now);
    LiveIsActiveRow(b, user, now);
    var from := TermStart(b.subscriptions, user, plan.slug, now);
    ExpiryIsLater(from, plan.unit, plan.count);
    hide ComputeExpiry;
    var row := after.subscriptions[|b.subscriptions|];
    AppendedRowIsLive(after, CancelActive(b.subscriptions, user), row, now);
    forall other, t | other != user
      ensures LiveSubscription(after.subscriptions, other, t) == LiveSubscription(b.subscriptions, other, t)
    {
      CancelLeavesOthers(b.subscriptions, user, other, t);
      AppendLeavesOthers(CancelActive(b.subscriptions, user), row, other, t);
    }
  }

  lemma {:induction false} AppendLeavesOthers(rows: seq<Subscription>, s: Subscription, other: UserId, t: Instant)
    requires s.user != other
    ensures LiveSubscription(rows + [s], other, t) == LiveSubscription(rows, other, t)
  {
    if rows != [] {
      assert (rows + [s])[1..] == rows[1..] + [s];
      AppendLeavesOthers(rows[1..], s, other, t);
    } else {
      assert (rows + [s])[1..] == [];
    }
  }

  lemma {:induction false} StatusLeavesOthers(rows: seq<Subscription>, i: nat, status: SubscriptionStatus,
          other: UserId, t: Instant)
    requires i < |rows| && rows[i].user != other
    ensures LiveSubscription(WithStatus(rows, i, status), other, t) == LiveSubscription(rows, other, t)
    decreases i
  {
    if i > 0 {
      assert WithStatus(rows, i, status)[1..] == WithStatus(rows[1..], i - 1, status);
      StatusLeavesOthers(rows[1..], i - 1, status, other, t);
    } else {
      assert WithStatus(rows, i, status)[1..] == rows[1..];
    }
  }

  lemma CancelLeavesOthers(rows: seq<Subscription>, user: UserId, other: UserId, t: Instant)
    requires user != other
    ensures LiveSubscription(CancelActive(rows, user), other, t) == LiveSubscription(rows, other, t)
  {
    var active := ActiveRow(rows, user);
    if active.Some? {
      StatusLeavesOthers(rows, active.value, Cancelled, other, t);
    }
  }

  // ---- grants ----

  /** An admin grant is refused exactly for the free plan, an inactive one and an end that is not ahead, and otherwise
      gives the plan at once: until the end asked for, or else for one term from the end of the running one or from
      now. Everybody else's plan stays, and no order or licence is touched. */
  lemma GrantTakesEffect(b: Books, user: UserId, plan: Offer, until: Option<Instant>, now: Instant)
    requires Sound(b) && (until.Some? || plan.unit.Lifetime? || plan.count >= 1)
    ensures var granted := Grant(b, user, plan, until, now);
            && (granted.Err? <==> plan.isDefaultFree || !plan.isActive || (until.Some? && until.value <= now))
            && (granted.Err? ==> granted.error == ValidationFailed)
            && (granted.Ok? ==>
                  var after, current := granted.value, LiveSubscription(b.subscriptions, user, now);
                  var stacks := current.Some? && current.value.plan == plan.slug && current.value.expiresAt.Some?;
                  var from := if stacks then current.value.expiresAt.value else now;
                  var end := if until.Some? then until else ComputeExpiry(from, plan.unit, plan.count);
                  && Sound(after) && after.orders == b.orders && after.licenses == b.licenses
                  && LiveSubscription(after.subscriptions, user, now)
                       == Some(Subscription(user, plan.slug, Active, AdminGrant, now, end, None))
                  && forall other, t :: other != user ==>
                       LiveSubscription(after.subscriptions, other, t) == LiveSubscription(b.subscriptions, other, t))
  {
    var from := TermStart(b.subscriptions, user, plan.slug, now);
    var end := if until.Some? then until else ComputeExpiry(from, plan.unit, plan.count);
    var row := Subscription(user, plan.slug, Active, AdminGrant, now, end, None);
    if until.None? {
      ExpiryIsLater(from, plan.unit, plan.count);
    }
    hide ComputeExpiry;
    LiveIsActiveRow(b, user, now);
    ReplaceSucceeds(b, row);
    GrantKeepsSound(b, user, plan, until, now);
    hide Replace;
    var granted := Grant(b, user, plan, until, now);
    if granted.Ok? {
      AppendedRowIsLive(granted.value, CancelActive(b.subscriptions, user), row, now);
      forall other, t | other != user
        ensures LiveSubscription(granted.value.subscriptions, other, t) == LiveSubscription(b.subscriptions, other, t)
      {
        CancelLeavesOthers(b.subscriptions, user, other, t);
        AppendLeavesOthers(CancelActive(b.subscriptions, user), row, other, t);
      }
    }
  }

  /** Revoking somebody's plan is refused exactly when they have no ACTIVE row; otherwise they have no plan from then
      on, while everybody else keeps theirs. */
  lemma RevokedPlanEnds(b: Books, user: UserId)
    requires Sound(b)
    ensures var revoked := RevokeSubscription(b, user);
            && (revoked == Err(NotFound) <==> forall s :: s in b.subscriptions && s.user == user ==> s.status != Active)
            && (revoked.Err? ==> revoked.error == NotFound)
            && (revoked.Ok? ==>
                  && Sound(revoked.value) && revoked.value.orders == b.orders && revoked.value.licenses == b.licenses
                  && (forall t :: LiveSubscription(revoked.value.subscriptions, user, t).None?)
                  && forall other, t :: other != user ==>
                       LiveSubscription(revoked.value.subscriptions, other, t)
                         == LiveSubscription(b.subscriptions, other, t))
  {
    var active := ActiveRow(b.subscriptions, user);
    if active.Some? {
      assert b.subscriptions[active.value] in b.subscriptions;
      var after := RevokeSubscription(b, user).value;
      CancelActiveOnlyEnds(b.subscriptions, user);
      EndKeepsSound(b, after.subscriptions);
      forall t ensures LiveSubscription(after.subscriptions, user, t).None? {
        LiveIsActiveRow(after, user, t);
      }
      forall other, t | other != user
        ensures LiveSubscription(after.subscriptions, other, t) == LiveSubscription(b.subscriptions, other, t)
      {
        CancelLeavesOthers(b.subscriptions, user, other, t);
      }
    }
  }

  // ---- stacked terms ----

  /** One more term of a plan: another key, or an admin grant without an end. */
  datatype Renewal = ByKey(key: KeyHash, now: Instant) | ByGrant(now: Instant)

  function Renewed(b: Books, user: UserId, plan: Offer, r: Renewal): Books {
    match r
    case ByKey(key, now) => Claim(b, user, plan, key, now).0
    case ByGrant(now) => Applied(b, Grant(b, user, plan, None, now))
  }

  function RenewedAll(b: Books, user: UserId, plan: Offer, renewals: seq<Renewal>): Books {
    if renewals == [] then b
    else Renewed(RenewedAll(b, user, plan, renewals[..|renewals| - 1]), user, plan, renewals[|renewals| - 1])
  }

  predicate StillRunning(end: Option<Instant>, now: Instant) {
    end.Some? && now < end.value
  }

  /** The keys are fresh and all different, the plan can be granted if it is, and each renewal comes while the terms so
      far are still running. */
  predicate InTime(b: Books, plan: Offer, renewals: seq<Renewal>, end: Instant) {
    && (forall i :: 0 <= i < |renewals| ==> StillRunning(Stacked(end, plan.unit, plan.count, i), renewals[i].now))
    && (forall i :: 0 <= i < |renewals| ==>
          match renewals[i]
          case ByKey(key, _) => LicenseOf(b.licenses, key).None?
          case ByGrant(_) => plan.isActive && !plan.isDefaultFree)
    && (forall i, j :: 0 <= i < j < |renewals| && renewals[i].ByKey? && renewals[j].ByKey? ==>
          renewals[i].key != renewals[j].key)
  }

  /** The user's ACTIVE row is a term of this plan ending then. */
  predicate RunsUntil(b: Books, user: UserId, plan: Offer, end: Option<Instant>) {
    var active := ActiveRow(b.subscriptions, user);
    active.Some? && b.subscriptions[active.value].plan == plan.slug && b.subscriptions[active.value].expiresAt == end
  }

  lemma OneMoreTerm(b: Books, user: UserId, plan: Offer, r: Renewal, end: Instant)
    requires Sound(b) && RunsUntil(b, user, plan, Some(end)) && r.now < end
    requires match r
             case ByKey(key, _) => LicenseOf(b.licenses, key).None?
             case ByGrant(_) => plan.isActive && !plan.isDefaultFree
    ensures var after := Renewed(b, user, plan, r);
            && Sound(after) && RunsUntil(after, user, plan, ComputeExpiry(end, plan.unit, plan.count))
            && (forall l :: l in after.licenses ==> l in b.licenses || (r.ByKey? && l.keyHash == r.key))
  {
    hide ComputeExpiry;
    var after := Renewed(b, user, plan, r);
    match r
    case ByKey(key, now) =>
      ClaimSucceeds(b, user, plan, key, now);
      ClaimKeepsSound(b, user, plan, key, now);
      assert after.subscriptions[|b.subscriptions|].status.Active?;
    case ByGrant(now) =>
      GrantKeepsSound(b, user, plan, None, now);
      ReplaceSucceeds(b, Subscription(user, plan.slug, Active, AdminGrant, now,
            ComputeExpiry(end, plan.unit, plan.count), None));
      assert after.subscriptions[|b.subscriptions|].status.Active?;
  }

  /** Every licence of `after` is one of b's or of a key used. */
  predicate OnlyUsedKeys(b: Books, after: Books, renewals: seq<Renewal>) {
    forall l :: l in after.licenses ==>
      l in b.licenses || exists r :: r in renewals && r.ByKey? && r.key == l.keyHash
  }

  lemma KeysAreStillFresh(b: Books, middle: Books, plan: Offer, renewals: seq<Renewal>, end: Instant, n: nat)
    requires InTime(b, plan, renewals, end) && |renewals| == n + 1 && OnlyUsedKeys(b, middle, renewals[..n])
    ensures renewals[n].ByKey? ==> LicenseOf(middle.licenses, renewals[n].key).None?
  {}

  /** n more keys and grants for the running plan, each in time and in any order, extend it by n stacked terms. */
  lemma {:induction false} TermsStack(b: Books, user: UserId, plan: Offer, renewals: seq<Renewal>, end: Instant)
    requires Sound(b) && InTime(b, plan, renewals, end) && RunsUntil(b, user, plan, Some(end))
    ensures var after := RenewedAll(b, user, plan, renewals);
            && Sound(after) && OnlyUsedKeys(b, after, renewals)
            && RunsUntil(after, user, plan, Stacked(end, plan.unit, plan.count, |renewals|))
    decreases |renewals|
  {
    hide Renewed, Sound, ComputeExpiry, RunsUntil;
    if renewals != [] {
      var n := |renewals| - 1;
      var middle := RenewedAll(b, user, plan, renewals[..n]);
      TermsStack(b, user, plan, renewals[..n], end);
      KeysAreStillFresh(b, middle, plan, renewals, end, n);
      OneMoreTerm(middle, user, plan, renewals[n], Stacked(end, plan.unit, plan.count, n).value);
    }
  }

  // ---- refunds ----

  /** Refunding a purchase takes the plan away exactly when the live row is that purchase's own row;
      a purchase that a later one was stacked on keeps the whole stacked term. */
  lemma RefundEndsItsOwnRowOnly(b: Books, license: nat, now: Instant)
    requires Sound(b) && license < |b.licenses|
    ensures var user := b.licenses[license].user;
            var before := LiveSubscription(b.subscriptions, user, now);
            var after := LiveSubscription(RevokeLicense(b, license).subscriptions, user, now);
            after == if before.Some? && before.value.order == Some(license) then None else before
  {
    var user := b.licenses[license].user;
    var after := RevokeLicense(b, license);
    assert LicenseMatches(b.licenses[license], b.orders[license], license);
    RefundKeepsSound(b, license);
    LiveIsActiveRow(b, user, now);
    LiveIsActiveRow(after, user, now);
    var row := RowOfOrder(b.subscriptions, license);
    assert PurchaseMatches(b, b.subscriptions[row.value], license);
    var active := ActiveRow(b.subscriptions, user);
    if active.Some? {
      assert b.subscriptions[active.value].order == Some(license) ==> row == active;
    }
  }

  /** Buy a month, stack a second one, refund the first: the user keeps both months. */
  lemma RefundAfterStackingKeepsBothTerms()
    ensures var plan := Offer("premium", Day, 30, 0, true, false);
            var bought := Claim(Claim(EMPTY, 7, plan, 1, 0).0, 7, plan, 2, 0).0;
            && LiveEnd(bought, 7, 0) == Some(Some(60 * MICROS_PER_DAY))
            && LiveEnd(RevokeLicense(bought, 0), 7, 0) == LiveEnd(bought, 7, 0)
  {
    var plan := Offer("premium", Day, 30, 0, true, false);
    var one := Claim(EMPTY, 7, plan, 1, 0).0;
    var two := Claim(one, 7, plan, 2, 0).0;
    EmptyBooksAreSound();
    assert ComputeExpiry(0, Day, 30) == Some(30 * MICROS_PER_DAY)
        && ComputeExpiry(30 * MICROS_PER_DAY, Day, 30) == Some(60 * MICROS_PER_DAY);
    hide Claim, Sound, ComputeExpiry, CancelActive, LiveSubscription, RevokeLicense, TermStart;
    PurchaseTakesEffect(EMPTY, 7, plan, 1, 0);
    ClaimSucceeds(EMPTY, 7, plan, 1, 0);
    assert one.licenses == [License(1, 7, "premium", 0, Valid, 0, None)];
    PurchaseTakesEffect(one, 7, plan, 2, 0);
    ClaimSucceeds(one, 7, plan, 2, 0);
    RefundEndsItsOwnRowOnly(two, 0, 0);
  }

  // ---- what a key answers ----

  lemma KeyIsOnOneLicense(b: Books, l: nat, m: nat)
    requires Sound(b) && l < |b.licenses| && m < |b.licenses| && b.licenses[l].keyHash == b.licenses[m].keyHash
    ensures l == m
  {
    assert LicenseMatches(b.licenses[l], b.orders[l], l) && LicenseMatches(b.licenses[m], b.orders[m], m);
  }

  /** The outcomes of a claim told apart by the key's record: a fresh key is redeemed; another user's key, or a revoked
      one, is invalid, and nothing else is; one's own is there already while the row of its purchase is ACTIVE and not
      over. Nothing but a redemption changes anything. */
  lemma ClaimAnswers(b: Books, user: UserId, plan: Offer, key: KeyHash, now: Instant)
    requires Sound(b)
    ensures var (after, outcome) := Claim(b, user, plan, key, now);
            && (outcome == Activated <==> forall l :: l in b.licenses ==> l.keyHash != key)
            && (outcome == InvalidLicense <==>
                  exists l ::
                    l in b.licenses && l.keyHash == key && (l.user != user || l.status == LicenseStatus.Revoked))
            && (outcome == AlreadyYours <==>
                  exists l, s ::
                    && l in b.licenses && l.keyHash == key && l.user == user && l.status == LicenseStatus.Valid
                    && s in b.subscriptions && s.order == Some(l.order) && s.status == Active
                    && (s.expiresAt.Some? ==> now < s.expiresAt.value))
            && outcome != TryAgain && (outcome != Activated ==> after == b)
  {
    hide ComputeExpiry;
    ClaimSucceeds(b, user, plan, key, now);
    hide Claim;
    var found := LicenseOf(b.licenses, key);
    if found.Some? {
      var l := b.licenses[found.value];
      assert l in b.licenses;
      forall m | m in b.licenses && m.keyHash == key ensures m == l {
        var i :| 0 <= i < |b.licenses| && b.licenses[i] == m;
        KeyIsOnOneLicense(b, i, found.value);
      }
      RowOfKey(b, found.value);
      hide Sound;
      var row := RowOfOrder(b.subscriptions, l.order).value;
      assert b.subscriptions[row] in b.subscriptions;
    }
  }

  /** A purchase has one subscription row. */
  lemma RowOfKey(b: Books, license: nat)
    requires Sound(b) && license < |b.licenses|
    ensures var order := b.licenses[license].order;
            && RowOfOrder(b.subscriptions, order).Some?
            && forall s :: s in b.subscriptions && s.order == Some(order) ==>
                 s == b.subscriptions[RowOfOrder(b.subscriptions, order).value]
  {
    assert LicenseMatches(b.licenses[license], b.orders[license], license);
    var order := b.licenses[license].order;
    forall s | s in b.subscriptions && s.order == Some(order)
      ensures s == b.subscriptions[RowOfOrder(b.subscriptions, order).value]
    {
      var i :| 0 <= i < |b.subscriptions| && b.subscriptions[i] == s;
      assert RowOfOrder(b.subscriptions, order) == Some(i);
    }
  }

  // ---- revocation ----

  /** What a revocation of licence i must leave behind. */
  ghost predicate RevokedOnly(b: Books, after: Books, i: nat)
    requires i < |b.licenses|
  {
    var order := b.licenses[i].order;
    && |after.licenses| == |b.licenses| && |after.orders| == |b.orders| && |after.subscriptions| == |b.subscriptions|
    && (forall l :: 0 <= l < |b.licenses| ==>
          after.licenses[l] == if l == i then b.licenses[l].(status := LicenseStatus.Revoked) else b.licenses[l])
    && order < |b.orders|
    && (forall o :: 0 <= o < |b.orders| ==>
          after.orders[o] == if o == order then b.orders[o].(status := Refunded) else b.orders[o])
    && (forall r :: 0 <= r < |b.subscriptions| ==>
          after.subscriptions[r] ==
            if b.subscriptions[r].order == Some(order) && b.subscriptions[r].status == Active
            then b.subscriptions[r].(status := Cancelled) else b.subscriptions[r])
  }

  /** The licence is revoked, its order refunded and every ACTIVE row of that order cancelled, and nothing else
      changes; the seller's "not valid" does the same. An admin is refused exactly for an unknown licence and for one
      revoked before, so a second revocation always is. */
  lemma RevocationIsComplete(b: Books, i: nat, now: Instant)
    requires Sound(b)
    ensures AdminRevokeLicense(b, i) == Err(NotFound) <==> i >= |b.licenses|
    ensures AdminRevokeLicense(b, i) == Err(AlreadyRevoked) <==>
              i < |b.licenses| && b.licenses[i].status == LicenseStatus.Revoked
    ensures AdminRevokeLicense(b, i).Err? ==> AdminRevokeLicense(b, i).error in {NotFound, AlreadyRevoked}
    ensures AdminRevokeLicense(b, i).Ok? ==> RevokedOnly(b, AdminRevokeLicense(b, i).value, i)
    ensures i < |b.licenses| ==>
              && RevokedOnly(b, RevokeLicense(b, i), i) && RevokedOnly(b, Revalidate(b, i, NotValid, now), i)
              && AdminRevokeLicense(RevokeLicense(b, i), i) == Err(AlreadyRevoked)
  {
    if i < |b.licenses| {
      var order := b.licenses[i].order;
      assert LicenseMatches(b.licenses[i], b.orders[i], i);
      forall r | 0 <= r < |b.subscriptions| && b.subscriptions[r].order == Some(order)
        ensures RowOfOrder(b.subscriptions, order) == Some(r)
      {}
      hide Sound;
    }
  }

  /** A re-check the seller confirms stamps its licence and nothing else, and one without an answer changes nothing. */
  lemma RecheckWithoutRefund(b: Books, i: nat, now: Instant)
    requires i < |b.licenses|
    ensures Revalidate(b, i, NoAnswer, now) == b
    ensures var after := Revalidate(b, i, StillValid, now);
            && after.subscriptions == b.subscriptions && after.orders == b.orders && |after.licenses| == |b.licenses|
            && forall l :: 0 <= l < |b.licenses| ==>
                 after.licenses[l] == if l == i then b.licenses[l].(lastRevalidatedAt := Some(now)) else b.licenses[l]
  {}

  /** An act that ends licence i for good. */
  predicate Revokes(act: Act, i: nat) {
    act == RefundLicense(i) || act == Recheck(i, NotValid)
  }

  lemma ActRevokesExactlyWhen(b: Books, act: Act, now: Instant, i: nat)
    requires Sound(b) && i < |b.licenses|
    ensures var after := Apply(b, act, now);
            && i < |after.licenses| && after.licenses[i].keyHash == b.licenses[i].keyHash
            && after.licenses[i].order == b.licenses[i].order
            && (after.licenses[i].status.Revoked? <==> b.licenses[i].status.Revoked? || Revokes(act, i))
  {
    ApplyExtends(b, act, now);
    hide ComputeExpiry, RevokeLicense, Grant, StartTrial, Revalidate, Claim, CancelActive;
    match act
    case ClaimKey(user, plan, key) =>
      ClaimSucceeds(b, user, plan, key, now);
    case RefundLicense(l) => RefundRevokesExactlyWhen(b, l, now, i);
    case Recheck(l, verdict) => if l < |b.licenses| { RecheckRevokesExactlyWhen(b, l, verdict, now, i); }
    case _ =>
  }

  lemma RefundRevokesExactlyWhen(b: Books, l: nat, now: Instant, i: nat)
    requires Sound(b) && i < |b.licenses|
    ensures var after := Applied(b, AdminRevokeLicense(b, l));
            |after.licenses| == |b.licenses|
            && (after.licenses[i].status.Revoked? <==> b.licenses[i].status.Revoked? || l == i)
  {
    RevocationIsComplete(b, l, now);
    hide Sound, AdminRevokeLicense, RevokeLicense;
  }

  /** Over any run a licence ends up revoked exactly when it was, or when somebody revoked it on the way. */
  lemma {:induction false} RevokedExactlyWhen(b: Books, acts: seq<Timed>, i: nat)
    requires Sound(b) && i < |b.licenses|
    ensures var after := Replay(b, acts);
            && i < |after.licenses| && after.licenses[i].keyHash == b.licenses[i].keyHash
            && after.licenses[i].order == b.licenses[i].order
            && (after.licenses[i].status.Revoked? <==>
                  b.licenses[i].status.Revoked? || exists n :: 0 <= n < |acts| && Revokes(acts[n].act, i))
    decreases |acts|
  {
    hide Sound, Apply;
    if acts != [] {
      ApplyKeepsSound(b, acts[0].act, acts[0].now);
      ActRevokesExactlyWhen(b, acts[0].act, acts[0].now, i);
      RevokedExactlyWhen(Apply(b, acts[0].act, acts[0].now), acts[1..], i);
      if n :| 0 <= n < |acts[1..]| && Revokes(acts[1..][n].act, i) {
        assert Revokes(acts[n + 1].act, i);
      }
      if n :| 0 <= n < |acts| && Revokes(acts[n].act, i) {
        assert n > 0 ==> Revokes(acts[1..][n - 1].act, i);
      }
    }
  }

  /** Once it is, whatever happens after: nobody can redeem its key, its owner included, and no row of its order is
      ever ACTIVE again. */
  lemma RevokedKeysAreDead(b: Books, acts: seq<Timed>, i: nat, user: UserId, plan: Offer, now: Instant)
    requires Sound(b) && i < |b.licenses| && b.licenses[i].status.Revoked?
    ensures var after := Replay(b, acts);
            && Claim(after, user, plan, b.licenses[i].keyHash, now) == (after, InvalidLicense)
            && forall s :: s in after.subscriptions && s.order == Some(b.licenses[i].order) ==> s.status != Active
  {
    ReachableBooksAreSound(b, acts);
    RevokedExactlyWhen(b, acts, i);
    var after := Replay(b, acts);
    ClaimAnswers(after, user, plan, b.licenses[i].keyHash, now);
    assert after.licenses[i] in after.licenses;
    assert LicenseMatches(after.licenses[i], after.orders[i], i);
    forall s | s in after.subscriptions && s.order == Some(b.licenses[i].order) ensures s.status != Active {
      var r :| 0 <= r < |after.subscriptions| && after.subscriptions[r] == s;
      assert PurchaseMatches(after, after.subscriptions[r], i);
    }
  }

  /** Re-submitting one's own valid key is accepted exactly while its own row is the live one. */
  lemma OwnKeyOutcome(b: Books, license: nat, now: Instant)
    requires Sound(b) && license < |b.licenses| && b.licenses[license].status.Valid?
    ensures var user := b.licenses[license].user;
            var live := LiveSubscription(b.subscriptions, user, now);
            ExistingOutcome(b, license, user, now) ==
              if live.Some? && live.value.order == Some(license) then AlreadyYours else ExpiredLicense
  {
    var user := b.licenses[license].user;
    assert LicenseMatches(b.licenses[license], b.orders[license], license);
    LiveIsActiveRow(b, user, now);
    var row := RowOfOrder(b.subscriptions, license);
    assert PurchaseMatches(b, b.subscriptions[row.value], license);
    LiveSubscriptionIsTheLiveRow(b.subscriptions, user, now);
  }

  /** Buy a month, stack a second one, submit the first key again: it answers "expired" with both months to run. */
  lemma EarlierKeyAnswersExpired()
    ensures var plan := Offer("premium", Day, 30, 0, true, false);
            var bought := Claim(Claim(EMPTY, 7, plan, 1, 0).0, 7, plan, 2, 0).0;
            && LiveEnd(bought, 7, 0) == Some(Some(60 * MICROS_PER_DAY))
            && |bought.licenses| == 2 && bought.licenses[0].keyHash == 1 && bought.licenses[0].status.Valid?
            && ExistingOutcome(bought, 0, 7, 0) == ExpiredLicense
  {
    var plan := Offer("premium", Day, 30, 0, true, false);
    var one := Claim(EMPTY, 7, plan, 1, 0).0;
    var two := Claim(one, 7, plan, 2, 0).0;
    RefundAfterStackingKeepsBothTerms();
    EmptyBooksAreSound();
    ClaimSucceeds(EMPTY, 7, plan, 1, 0);
    ClaimKeepsSound(EMPTY, 7, plan, 1, 0);
    assert one.licenses == [License(1, 7, "premium", 0, Valid, 0, None)];
    PurchaseTakesEffect(one, 7, plan, 2, 0);
    ClaimSucceeds(one, 7, plan, 2, 0);
    OwnKeyOutcome(two, 0, 0);
  }

  // ---- re-validation ----

  /** A pass of the job changes the plan of a user only if the seller called one of their licences invalid. */
  lemma {:induction false} OutagesTouchNobody(b: Books, batch: seq<nat>, verdicts: seq<Verdict>, now: Instant,
          user: UserId, t: Instant)
    requires Sound(b) && |batch| == |verdicts| && InRange(batch, |b.licenses|)
    requires forall i :: 0 <= i < |batch| && verdicts[i].NotValid? ==> b.licenses[batch[i]].user != user
    ensures var after := RevalidateAll(b, batch, verdicts, now);
            && Sound(after)
            && (forall l :: 0 <= l < |b.licenses| ==> after.licenses[l].user == b.licenses[l].user)
            && LiveSubscription(after.subscriptions, user, t) == LiveSubscription(b.subscriptions, user, t)
    decreases |batch|
  {
    if batch != [] {
      var n := |batch| - 1;
      var middle := RevalidateAll(b, batch[..n], verdicts[..n], now);
      OutagesTouchNobody(b, batch[..n], verdicts[..n], now, user, t);
      RecheckKeepsSound(middle, batch[n], verdicts[n], now);
      if verdicts[n].NotValid? {
        var order := middle.licenses[batch[n]].order;
        assert LicenseMatches(middle.licenses[batch[n]], middle.orders[batch[n]], batch[n]);
        var row := RowOfOrder(middle.subscriptions, order);
        assert PurchaseMatches(middle, middle.subscriptions[row.value], order);
        StatusLeavesOthers(middle.subscriptions, row.value, Cancelled, user, t);
      }
    }
  }

  lemma RecheckRevokesExactlyWhen(b: Books, i: nat, verdict: Verdict, now: Instant, l: nat)
    requires Sound(b) && i < |b.licenses| && l < |b.licenses|
    ensures var after := Revalidate(b, i, verdict, now);
            && Sound(after) && |after.licenses| == |b.licenses|
            && (after.licenses[l].status.Revoked? <==>
                  b.licenses[l].status.Revoked? || (i == l && verdict.NotValid?))
  {
    RecheckKeepsSound(b, i, verdict, now);
    RevocationIsComplete(b, i, now);
    RecheckWithoutRefund(b, i, now);
    hide Sound, RevokeLicense, AdminRevokeLicense, Revalidate;
  }

  /** A pass revokes exactly the licences of its batch that the seller called invalid. */
  lemma {:induction false} PassRevokesExactlyWhen(b: Books, batch: seq<nat>, verdicts: seq<Verdict>, now: Instant,
          l: nat)
    requires Sound(b) && |batch| == |verdicts| && InRange(batch, |b.licenses|) && l < |b.licenses|
    ensures var after := RevalidateAll(b, batch, verdicts, now);
            && Sound(after)
            && (after.licenses[l].status.Revoked? <==>
                  b.licenses[l].status.Revoked? || exists i ::
                        0 <= i < |batch| && batch[i] == l && verdicts[i].NotValid?)
    decreases |batch|
  {
    if batch != [] {
      var n := |batch| - 1;
      var middle := RevalidateAll(b, batch[..n], verdicts[..n], now);
      PassRevokesExactlyWhen(b, batch[..n], verdicts[..n], now, l);
      RecheckRevokesExactlyWhen(middle, batch[n], verdicts[n], now, l);
      assert RevalidateAll(b, batch, verdicts, now) == Revalidate(middle, batch[n], verdicts[n], now);
      hide Sound, Revalidate, RevalidateAll;
      if i :| 0 <= i < n && batch[..n][i] == l && verdicts[..n][i].NotValid? {
        assert batch[i] == l && verdicts[i].NotValid?;
      }
      if i :| 0 <= i < n && batch[i] == l && verdicts[i].NotValid? {
        assert batch[..n][i] == l && verdicts[..n][i].NotValid?;
      }
    }
  }

  // ---- trials ----

  /** Who gets a trial, and who is refused and why. */
  lemma TrialOutcome(b: Books, user: UserId, plan: Offer, verified: bool, reused: bool, now: Instant)
    ensures var started := StartTrial(b, user, plan, verified, reused, now);
            var offered := plan.isActive && !plan.isDefaultFree && plan.trialDays > 0;
            var hadTrial := exists s :: s in b.subscriptions && s.user == user && s.source == SubscriptionSource.Trial;
            var active := exists s :: s in b.subscriptions && s.user == user && s.status == Active;
            var live := exists s :: s in b.subscriptions && s.user == user && s.status == Active
                          && (s.expiresAt.Some? ==> now < s.expiresAt.value);
            && (started.Ok? <==> offered && verified && !hadTrial && !reused && !active)
            && (started == Err(NotFound) <==> !offered)
            && (started == Err(PhoneVerificationRequired) <==> offered && !verified)
            && (started == Err(PhoneReused) <==> offered && verified && !hadTrial && reused)
            && (started == Err(HasActivePlan) <==> offered && verified && !hadTrial && !reused && live)
            && (started == Err(TrialUsed) <==> offered && verified && (hadTrial || (!reused && active && !live)))
  {
    LiveSubscriptionIsTheLiveRow(b.subscriptions, user, now);
    var found := ActiveRow(b.subscriptions, user);
    assert found.Some? ==> b.subscriptions[found.value] in b.subscriptions;
    hide LiveSubscription, ActiveRow;
  }

  /** A trial gives the plan at once and for its trial days, with everybody else's plan, the orders and the licences
      as they were. */
  lemma TrialTakesEffect(b: Books, user: UserId, plan: Offer, verified: bool, reused: bool, now: Instant)
    requires Sound(b) && StartTrial(b, user, plan, verified, reused, now).Ok?
    ensures var after := StartTrial(b, user, plan, verified, reused, now).value;
            && Sound(after) && after.orders == b.orders && after.licenses == b.licenses
            && LiveSubscription(after.subscriptions, user, now)
                 == Some(Subscription(user, plan.slug, Active, SubscriptionSource.Trial, now,
                                      Some(now + plan.trialDays * MICROS_PER_DAY), None))
            && forall other, t :: other != user ==>
                 LiveSubscription(after.subscriptions, other, t) == LiveSubscription(b.subscriptions, other, t)
  {
    var after := StartTrial(b, user, plan, verified, reused, now).value;
    TrialKeepsSound(b, user, plan, verified, reused, now);
    var row := Subscription(user, plan.slug, Active, SubscriptionSource.Trial, now,
                            Some(now + plan.trialDays * MICROS_PER_DAY), None);
    AppendedRowIsLive(after, b.subscriptions, row, now);
    forall other, t | other != user
      ensures LiveSubscription(after.subscriptions, other, t) == LiveSubscription(b.subscriptions, other, t)
    {
      AppendLeavesOthers(b.subscriptions, row, other, t);
    }
  }

  /** For a user the eligibility checks let through, a trial starts exactly when no ACTIVE row is left:
      a plan that is over but not yet marked by the expiry job still blocks it. */
  lemma TrialNeedsNoActiveRow(b: Books, user: UserId, plan: Offer, now: Instant)
    requires plan.isActive && !plan.isDefaultFree && plan.trialDays > 0
    requires !HasTrial(b.subscriptions, user) && LiveSubscription(b.subscriptions, user, now).None?
    ensures StartTrial(b, user, plan, true, false, now) ==
              if ActiveRow(b.subscriptions, user).Some? then Err(TrialUsed)
              else Ok(b.(subscriptions := b.subscriptions + [Subscription(user, plan.slug, Active, Trial, now,
                           Some(now + plan.trialDays * MICROS_PER_DAY), None)]))
  {}

  // ---- the expiry job ----

  /** After the job no ACTIVE row's end is past; it marks those rows EXPIRED and changes nothing else. */
  lemma JobEndsWhatIsOver(b: Books, now: Instant)
    ensures var after := Expire(b, now);
            && after.orders == b.orders && after.licenses == b.licenses && |after.subscriptions| == |b.subscriptions|
            && forall i :: 0 <= i < |b.subscriptions| ==>
                 after.subscriptions[i] ==
                   if i in PastRows(b.subscriptions, now) then b.subscriptions[i].(status := Expired)
                   else b.subscriptions[i]
    ensures PastRows(Expire(b, now).subscriptions, now) == {}
    ensures OverdueCount(b.subscriptions, now) == |PastRows(b.subscriptions, now)|
  {
    JobCountsThem(b.subscriptions, now);
  }

  function PastRows(rows: seq<Subscription>, now: Instant): set<nat> {
    set i | 0 <= i < |rows| && rows[i].status == Active
            && (match rows[i].expiresAt case None => false case Some(end) => end < now)
  }

  lemma {:induction false} JobCountsThem(rows: seq<Subscription>, now: Instant)
    ensures OverdueCount(rows, now) == |PastRows(rows, now)|
    decreases |rows|
  {
    if rows != [] {
      var n := |rows| - 1;
      JobCountsThem(rows[..n], now);
      assert PastRows(rows, now) == PastRows(rows[..n], now) + if Overdue(rows[n], now) then {n} else {};
    }
  }

  /** A one-day grant two days ago: the trial is refused before the expiry job and granted after it. */
  lemma ExpiryJobUnblocksTrial()
    ensures var plan := Offer("premium", Day, 30, 14, true, false);
            var now := 2 * MICROS_PER_DAY;
            var b := EMPTY.(subscriptions := [Subscription(7, "premium", Active, AdminGrant, 0, Some(MICROS_PER_DAY),
                  None)]);
            && Sound(b)
            && StartTrial(b, 7, plan, true, false, now) == Err(TrialUsed)
            && StartTrial(Expire(b, now), 7, plan, true, false, now).Ok?
  {
    var plan := Offer("premium", Day, 30, 14, true, false);
    var now := 2 * MICROS_PER_DAY;
    var b := EMPTY.(subscriptions := [Subscription(7, "premium", Active, AdminGrant, 0, Some(MICROS_PER_DAY), None)]);
    var after := Expire(b, now);
    assert b.subscriptions[0].status.Active?;
    assert b.subscriptions[1..] == [] && after.subscriptions[1..] == [];
    assert |after.subscriptions| == 1 && after.subscriptions[0].status.Expired?;
    TrialNeedsNoActiveRow(b, 7, plan, now);
    TrialNeedsNoActiveRow(after, 7, plan, now);
  }
}
