/** What every reachable state of the billing tables satisfies, and what no step ever undoes. */
module BillingInvariants {
  import opened Wrappers
  import opened Calendar
  import opened Durations
  import opened Entitlements
  import opened Billing

  /** One committed request or job. */
  datatype Act =
    | ClaimKey(user: UserId, plan: Offer, key: KeyHash)
    | GrantPlan(user: UserId, plan: Offer, until: Option<Instant>)
    | RevokePlan(user: UserId)
    | BeginTrial(user: UserId, plan: Offer, phoneVerified: bool, phoneReused: bool)
    | RefundLicense(license: nat)
    | Recheck(license: nat, verdict: Verdict)
    | ExpiryJob

  function Applied(b: Books, r: Result<Books, BillingError>): Books {
    if r.Ok? then r.value else b
  }

  function Apply(b: Books, act: Act, now: Instant): Books {
    match act
    case ClaimKey(user, plan, key) => Claim(b, user, plan, key, now).0
    case GrantPlan(user, plan, until) => Applied(b, Grant(b, user, plan, until, now))
    case RevokePlan(user) => Applied(b, RevokeSubscription(b, user))
    case BeginTrial(user, plan, verified, reused) => Applied(b, StartTrial(b, user, plan, verified, reused, now))
    case RefundLicense(license) => Applied(b, AdminRevokeLicense(b, license))
    case Recheck(license, verdict) => if license < |b.licenses| then Revalidate(b, license, verdict, now) else b
    case ExpiryJob => Expire(b, now)
  }

  datatype Timed = Timed(now: Instant, act: Act)

  function Replay(b: Books, acts: seq<Timed>): Books
    decreases |acts|
  {
    if acts == [] then b else Replay(Apply(b, acts[0].act, acts[0].now), acts[1..])
  }

  const EMPTY: Books := Books([], [], [])

  // ---- the invariant ----

  predicate OneTrialPerUser(rows: seq<Subscription>) {
    forall i, j ::
          0 <= i < j < |rows| && rows[i].source.Trial? && rows[j].source.Trial? ==> rows[i].user != rows[j].user
  }

  /** A purchased row names a PAID-while-active order of the same user and plan, and no other row does. */
  predicate PurchasedRows(b: Books) {
    && (forall i :: 0 <= i < |b.subscriptions| && b.subscriptions[i].order.Some? ==>
          && PurchaseMatches(b, b.subscriptions[i], b.subscriptions[i].order.value)
          && RowOfOrder(b.subscriptions, b.subscriptions[i].order.value) == Some(i))
    && (forall o :: 0 <= o < |b.orders| ==> RowOfOrder(b.subscriptions, o).Some?)
  }

  predicate PurchaseMatches(b: Books, s: Subscription, o: nat) {
    && o < |b.orders|
    && s.user == b.orders[o].user && s.plan == b.orders[o].plan
    && (s.status.Active? ==> b.orders[o].status.Paid?)
  }

  /** Orders and licences are matched one to one, agree on who bought what with which key, and are
      revoked together; no two of them carry the same key. */
  predicate MatchedLicenses(b: Books) {
    && |b.licenses| == |b.orders|
    && (forall o :: 0 <= o < |b.orders| ==> LicenseMatches(b.licenses[o], b.orders[o], o))
    && (forall o, p :: 0 <= o < p < |b.orders| ==> b.orders[o].ref != b.orders[p].ref)
  }

  predicate LicenseMatches(l: License, o: Order, id: nat) {
    && l.order == id && l.user == o.user && l.plan == o.plan && l.keyHash == o.ref
    && (l.status.Revoked? <==> o.status.Refunded?)
  }

  ghost predicate Sound(b: Books) {
    OneActivePerUser(b.subscriptions) && OneTrialPerUser(b.subscriptions) && PurchasedRows(b) && MatchedLicenses(b)
  }

  // ---- row updates ----

  /** Same rows with other statuses, none of which became ACTIVE. */
  predicate OnlyEnds(rows: seq<Subscription>, after: seq<Subscription>) {
    |after| == |rows| && forall i :: 0 <= i < |rows| ==>
      after[i] == rows[i] || (rows[i].status.Active? && !after[i].status.Active?
            && after[i] == rows[i].(status := after[i].status))
  }

  lemma {:induction false} SameOrders(rows: seq<Subscription>, after: seq<Subscription>, order: nat, from: nat)
    requires |rows| <= |after| && from <= |rows|
    requires forall i :: 0 <= i < |rows| ==> after[i].order == rows[i].order
    requires forall i :: |rows| <= i < |after| ==> after[i].order != Some(order)
    ensures RowOfOrder(after, order, from) == RowOfOrder(rows, order, from)
    decreases |after| - from
  {
    if from < |rows| {
      if rows[from].order != Some(order) {
        SameOrders(rows, after, order, from + 1);
      }
    }
  }

  lemma EndingKeepsRows(b: Books, after: seq<Subscription>)
    requires OneActivePerUser(b.subscriptions) && OneTrialPerUser(b.subscriptions) && PurchasedRows(b)
    requires OnlyEnds(b.subscriptions, after)
    ensures OneActivePerUser(after) && OneTrialPerUser(after) && PurchasedRows(b.(subscriptions := after))
  {
    forall o ensures RowOfOrder(after, o) == RowOfOrder(b.subscriptions, o) {
      SameOrders(b.subscriptions, after, o, 0);
    }
  }

  lemma CancelActiveOnlyEnds(rows: seq<Subscription>, user: UserId)
    ensures OnlyEnds(rows, CancelActive(rows, user))
    ensures OneActivePerUser(rows) ==> ActiveRow(CancelActive(rows, user), user).None?
  {}

  lemma EndOrderOnlyEnds(rows: seq<Subscription>, order: nat)
    ensures OnlyEnds(rows, EndOrder(rows, order))
  {}

  lemma ExpireOnlyEnds(b: Books, now: Instant)
    ensures OnlyEnds(b.subscriptions, Expire(b, now).subscriptions)
  {}

  /** Under the one-active index a replacement is never refused. */
  lemma ReplaceSucceeds(b: Books, s: Subscription)
    requires OneActivePerUser(b.subscriptions) && !s.source.Trial?
    ensures Replace(b.subscriptions, s) == Ok(CancelActive(b.subscriptions, s.user) + [s])
  {
    CancelActiveOnlyEnds(b.subscriptions, s.user);
  }

  lemma AppendKeepsIndexes(rows: seq<Subscription>, s: Subscription)
    requires OneActivePerUser(rows) && OneTrialPerUser(rows) && CanInsertSubscription(rows, s)
    ensures OneActivePerUser(rows + [s]) && OneTrialPerUser(rows + [s])
  {
    forall i | 0 <= i < |rows| && s.source.Trial? && rows[i].source.Trial? ensures rows[i].user != s.user {
      assert rows[i] in rows;
    }
  }

  /** Appending a row that belongs to no order. */
  lemma AppendUnpaidKeepsPurchases(b: Books, s: Subscription)
    requires PurchasedRows(b) && s.order.None?
    ensures PurchasedRows(b.(subscriptions := b.subscriptions + [s]))
  {
    forall o ensures RowOfOrder(b.subscriptions + [s], o) == RowOfOrder(b.subscriptions, o) {
      SameOrders(b.subscriptions, b.subscriptions + [s], o, 0);
    }
  }

  lemma {:induction false} LastRowOfOrder(rows: seq<Subscription>, s: Subscription, order: nat, from: nat)
    requires s.order == Some(order) && from <= |rows|
    requires forall i :: 0 <= i < |rows| ==> rows[i].order != Some(order)
    ensures RowOfOrder(rows + [s], order, from) == Some(|rows|)
    decreases |rows| - from
  {
    if from < |rows| {
      LastRowOfOrder(rows, s, order, from + 1);
    }
  }

  lemma AppendPurchaseKeepsPurchases(b: Books, s: Subscription, o: Order)
    requires PurchasedRows(b) && s.order == Some(|b.orders|)
    requires s.user == o.user && s.plan == o.plan && o.status.Paid?
    ensures PurchasedRows(b.(subscriptions := b.subscriptions + [s], orders := b.orders + [o]))
  {
    var after := b.(subscriptions := b.subscriptions + [s], orders := b.orders + [o]);
    LastRowOfOrder(b.subscriptions, s, |b.orders|, 0);
    forall p | p != |b.orders| ensures RowOfOrder(after.subscriptions, p) == RowOfOrder(b.subscriptions, p) {
      SameOrders(b.subscriptions, after.subscriptions, p, 0);
    }
    forall i | 0 <= i < |b.subscriptions| && b.subscriptions[i].order.Some?
      ensures PurchaseMatches(after, b.subscriptions[i], b.subscriptions[i].order.value)
    {
      assert PurchaseMatches(b, b.subscriptions[i], b.subscriptions[i].order.value);
    }
  }

  // ---- every act keeps the invariant ----

  lemma ClaimSucceeds(b: Books, user: UserId, plan: Offer, key: KeyHash, now: Instant)
    requires Sound(b)
    ensures var row := Subscription(user, plan.slug, Active, SupportKoriLicense, now,
                         ComputeExpiry(TermStart(b.subscriptions, user, plan.slug, now), plan.unit, plan.count),
                               Some(|b.orders|));
            Claim(b, user, plan, key, now) ==
              match LicenseOf(b.licenses, key)
              case None => (Books(CancelActive(b.subscriptions, user) + [row],
                                  b.orders + [Order(user, plan.slug, key, Paid)],
                                  b.licenses + [License(key, user, plan.slug, |b.orders|, Valid, now, None)]),
                                        Activated)
              case Some(i) => (b, ExistingOutcome(b, i, user, now))
  {
    var row := Subscription(user, plan.slug, Active, SupportKoriLicense, now,
                 ComputeExpiry(TermStart(b.subscriptions, user, plan.slug, now), plan.unit, plan.count),
                       Some(|b.orders|));
    ReplaceSucceeds(b, row);
    hide ComputeExpiry;
    var found := LicenseOf(b.licenses, key);
    if found.Some? {
      assert LicenseMatches(b.licenses[found.value], b.orders[found.value], found.value);
      assert b.orders[found.value] in b.orders;
    } else {
      forall o | o in b.orders ensures o.ref != key {
        var i :| 0 <= i < |b.orders| && b.orders[i] == o;
        assert LicenseMatches(b.licenses[i], b.orders[i], i);
      }
    }
  }

  lemma ClaimKeepsSound(b: Books, user: UserId, plan: Offer, key: KeyHash, now: Instant)
    requires Sound(b)
    ensures Sound(Claim(b, user, plan, key, now).0)
  {
    hide ComputeExpiry;
    ClaimSucceeds(b, user, plan, key, now);
    if LicenseOf(b.licenses, key).None? {
      var cancelled := b.(subscriptions := CancelActive(b.subscriptions, user));
      var after := Claim(b, user, plan, key, now).0;
      var row := after.subscriptions[|b.subscriptions|];
      CancelActiveOnlyEnds(b.subscriptions, user);
      EndingKeepsRows(b, cancelled.subscriptions);
      AppendKeepsIndexes(cancelled.subscriptions, row);
      AppendPurchaseKeepsPurchases(cancelled, row, Order(user, plan.slug, key, Paid));
      forall o | 0 <= o < |b.orders| ensures b.orders[o].ref != key {
        assert LicenseMatches(b.licenses[o], b.orders[o], o);
      }
      forall o | 0 <= o < |after.orders| ensures LicenseMatches(after.licenses[o], after.orders[o], o) {
        if o < |b.orders| {
          assert LicenseMatches(b.licenses[o], b.orders[o], o);
        }
      }
    }
  }

  lemma GrantKeepsSound(b: Books, user: UserId, plan: Offer, until: Option<Instant>, now: Instant)
    requires Sound(b)
    ensures Sound(Applied(b, Grant(b, user, plan, until, now)))
  {
    hide ComputeExpiry;
    var granted := Grant(b, user, plan, until, now);
    if granted.Ok? {
      var row := granted.value.subscriptions[|granted.value.subscriptions| - 1];
      ReplaceSucceeds(b, row);
      var cancelled := b.(subscriptions := CancelActive(b.subscriptions, user));
      CancelActiveOnlyEnds(b.subscriptions, user);
      EndingKeepsRows(b, cancelled.subscriptions);
      AppendKeepsIndexes(cancelled.subscriptions, row);
      AppendUnpaidKeepsPurchases(cancelled, row);
    }
  }

  lemma TrialKeepsSound(b: Books, user: UserId, plan: Offer, verified: bool, reused: bool, now: Instant)
    requires Sound(b)
    ensures Sound(Applied(b, StartTrial(b, user, plan, verified, reused, now)))
  {
    var started := StartTrial(b, user, plan, verified, reused, now);
    if started.Ok? {
      var row := started.value.subscriptions[|b.subscriptions|];
      AppendKeepsIndexes(b.subscriptions, row);
      AppendUnpaidKeepsPurchases(b, row);
    }
  }

  lemma RefundKeepsSound(b: Books, license: nat)
    requires Sound(b) && license < |b.licenses|
    ensures Sound(RevokeLicense(b, license))
  {
    var after := RevokeLicense(b, license);
    var order := b.licenses[license].order;
    assert LicenseMatches(b.licenses[license], b.orders[license], license);
    EndOrderOnlyEnds(b.subscriptions, order);
    EndingKeepsRows(b, after.subscriptions);
    var ended := b.(subscriptions := after.subscriptions);
    forall i | 0 <= i < |after.subscriptions| && after.subscriptions[i].order.Some?
      ensures PurchaseMatches(after, after.subscriptions[i], after.subscriptions[i].order.value)
    {
      assert PurchaseMatches(ended, after.subscriptions[i], after.subscriptions[i].order.value);
      if after.subscriptions[i].order == Some(order) {
        assert RowOfOrder(b.subscriptions, order) == Some(i);
      }
    }
    forall o | 0 <= o < |after.orders| ensures LicenseMatches(after.licenses[o], after.orders[o], o) {
      assert LicenseMatches(b.licenses[o], b.orders[o], o);
    }
  }

  lemma RecheckKeepsSound(b: Books, license: nat, verdict: Verdict, now: Instant)
    requires Sound(b) && license < |b.licenses|
    ensures Sound(Revalidate(b, license, verdict, now))
  {
    if verdict.NotValid? {
      RefundKeepsSound(b, license);
    } else {
      var after := Revalidate(b, license, verdict, now);
      forall o | 0 <= o < |after.orders| ensures LicenseMatches(after.licenses[o], after.orders[o], o) {
        assert LicenseMatches(b.licenses[o], b.orders[o], o);
      }
      forall i | 0 <= i < |after.subscriptions| && after.subscriptions[i].order.Some?
        ensures PurchaseMatches(after, after.subscriptions[i], after.subscriptions[i].order.value)
      {
        assert PurchaseMatches(b, b.subscriptions[i], b.subscriptions[i].order.value);
      }
    }
  }

  lemma EndKeepsSound(b: Books, rows: seq<Subscription>)
    requires Sound(b) && OnlyEnds(b.subscriptions, rows)
    ensures Sound(b.(subscriptions := rows))
  {
    EndingKeepsRows(b, rows);
  }

  lemma ApplyKeepsSound(b: Books, act: Act, now: Instant)
    requires Sound(b)
    ensures Sound(Apply(b, act, now))
  {
    match act
    case ClaimKey(user, plan, key) => ClaimKeepsSound(b, user, plan, key, now);
    case GrantPlan(user, plan, until) => GrantKeepsSound(b, user, plan, until, now);
    case RevokePlan(user) =>
      CancelActiveOnlyEnds(b.subscriptions, user);
      EndKeepsSound(b, CancelActive(b.subscriptions, user));
    case BeginTrial(user, plan, verified, reused) => TrialKeepsSound(b, user, plan, verified, reused, now);
    case RefundLicense(license) => if license < |b.licenses| { RefundKeepsSound(b, license); }
    case Recheck(license, verdict) => if license < |b.licenses| { RecheckKeepsSound(b, license, verdict, now); }
    case ExpiryJob =>
      ExpireOnlyEnds(b, now);
      EndKeepsSound(b, Expire(b, now).subscriptions);
  }

  // ---- nothing is undone ----

  /** Rows stay, keep everything but their status, and a status only ever leaves ACTIVE; orders and
      licences stay, keep their owner, plan and key, and are never un-revoked. */
  ghost predicate Extends(b: Books, after: Books) {
    && |b.subscriptions| <= |after.subscriptions| && |b.orders| <= |after.orders| && |b.licenses| <= |after.licenses|
    && OnlyEnds(b.subscriptions, after.subscriptions[..|b.subscriptions|])
    && (forall o :: 0 <= o < |b.orders| ==>
          && after.orders[o] == b.orders[o].(status := after.orders[o].status)
          && (b.orders[o].status.Refunded? ==> after.orders[o].status.Refunded?))
    && (forall l :: 0 <= l < |b.licenses| ==>
          && after.licenses[l] == b.licenses[l].(status := after.licenses[l].status,
                lastRevalidatedAt := after.licenses[l].lastRevalidatedAt)
          && (b.licenses[l].status.Revoked? ==> after.licenses[l].status.Revoked?))
  }

  /** Ending rows and appending at most one row, order and licence. */
  lemma AppendExtends(b: Books, after: Books, ended: seq<Subscription>)
    requires OnlyEnds(b.subscriptions, ended) && ended <= after.subscriptions
    requires b.orders <= after.orders && b.licenses <= after.licenses
    ensures Extends(b, after)
  {
    assert after.subscriptions[..|b.subscriptions|] == ended;
  }

  lemma ClaimExtends(b: Books, user: UserId, plan: Offer, key: KeyHash, now: Instant)
    requires Sound(b)
    ensures Extends(b, Claim(b, user, plan, key, now).0)
  {
    hide ComputeExpiry;
    ClaimSucceeds(b, user, plan, key, now);
    CancelActiveOnlyEnds(b.subscriptions, user);
    hide OnlyEnds;
    hide CancelActive;
    hide Claim;
    var after := Claim(b, user, plan, key, now).0;
    if LicenseOf(b.licenses, key).None? {
      AppendExtends(b, after, CancelActive(b.subscriptions, user));
    } else {
      NothingExtends(b);
    }
  }

  lemma NothingExtends(b: Books)
    ensures Extends(b, b)
  {
    assert b.subscriptions[..|b.subscriptions|] == b.subscriptions;
  }

  lemma GrantExtends(b: Books, user: UserId, plan: Offer, until: Option<Instant>, now: Instant)
    requires Sound(b)
    ensures Extends(b, Applied(b, Grant(b, user, plan, until, now)))
  {
    hide ComputeExpiry;
    NothingExtends(b);
    var granted := Grant(b, user, plan, until, now);
    if granted.Ok? {
      ReplaceSucceeds(b, granted.value.subscriptions[|granted.value.subscriptions| - 1]);
      CancelActiveOnlyEnds(b.subscriptions, user);
      AppendExtends(b, granted.value, CancelActive(b.subscriptions, user));
    }
  }

  lemma RefundExtends(b: Books, license: nat)
    requires Sound(b) && license < |b.licenses|
    ensures Extends(b, RevokeLicense(b, license))
  {
    EndOrderOnlyEnds(b.subscriptions, b.licenses[license].order);
    var after := RevokeLicense(b, license);
    assert after.subscriptions[..|b.subscriptions|] == after.subscriptions;
  }

  lemma RecheckExtends(b: Books, license: nat, verdict: Verdict, now: Instant)
    requires Sound(b) && license < |b.licenses|
    ensures Extends(b, Revalidate(b, license, verdict, now))
  {
    if verdict.NotValid? {
      RefundExtends(b, license);
    } else {
      NothingExtends(b);
    }
  }

  lemma ApplyExtends(b: Books, act: Act, now: Instant)
    requires Sound(b)
    ensures Extends(b, Apply(b, act, now))
  {
    NothingExtends(b);
    match act
    case ClaimKey(user, plan, key) => ClaimExtends(b, user, plan, key, now);
    case GrantPlan(user, plan, until) => GrantExtends(b, user, plan, until, now);
    case RevokePlan(user) =>
      CancelActiveOnlyEnds(b.subscriptions, user);
      AppendExtends(b, Apply(b, act, now), CancelActive(b.subscriptions, user));
    case BeginTrial(_, _, _, _) => AppendExtends(b, Apply(b, act, now), b.subscriptions);
    case RefundLicense(license) => if license < |b.licenses| { RefundExtends(b, license); }
    case Recheck(license, verdict) => if license < |b.licenses| { RecheckExtends(b, license, verdict, now); }
    case ExpiryJob =>
      ExpireOnlyEnds(b, now);
      AppendExtends(b, Expire(b, now), Expire(b, now).subscriptions);
  }

  lemma ExtendsTransitive(a: Books, b: Books, c: Books)
    requires Extends(a, b) && Extends(b, c)
    ensures Extends(a, c)
  {
    forall i | 0 <= i < |a.subscriptions|
      ensures c.subscriptions[i] == a.subscriptions[i]
           || (a.subscriptions[i].status.Active? && !c.subscriptions[i].status.Active?
               && c.subscriptions[i] == a.subscriptions[i].(status := c.subscriptions[i].status))
    {
      assert b.subscriptions[..|a.subscriptions|][i] == b.subscriptions[i];
      assert c.subscriptions[..|b.subscriptions|][i] == c.subscriptions[i];
    }
  }

  /** Every reachable state is sound, and every state reached later extends it. */
  lemma {:induction false} ReachableBooksAreSound(b: Books, acts: seq<Timed>)
    requires Sound(b)
    ensures Sound(Replay(b, acts)) && Extends(b, Replay(b, acts))
    decreases |acts|
  {
    if acts != [] {
      var next := Apply(b, acts[0].act, acts[0].now);
      ApplyKeepsSound(b, acts[0].act, acts[0].now);
      ApplyExtends(b, acts[0].act, acts[0].now);
      ReachableBooksAreSound(next, acts[1..]);
      ExtendsTransitive(b, next, Replay(next, acts[1..]));
    }
  }

  lemma EmptyBooksAreSound()
    ensures Sound(EMPTY)
  {}
}
