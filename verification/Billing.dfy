/** Purchases, grants, trials, revocations and housekeeping on the subscription, order and licence
    tables. Rows are only ever appended or given another status, so a row's index is its id. */
module Billing {
  import opened Wrappers
  import opened Calendar
  import opened Durations
  import opened Entitlements

  /** Key hashes are injective ids. */
  type KeyHash = nat

  datatype OrderStatus = Paid | Refunded

  datatype LicenseStatus = Valid | Revoked

  datatype Order = Order(user: UserId, plan: string, ref: KeyHash, status: OrderStatus)

  datatype License = License(
    keyHash: KeyHash, user: UserId, plan: string, order: nat, status: LicenseStatus,
    validatedAt: Instant, lastRevalidatedAt: Option<Instant>)

  /** What billing needs to know of a plan. */
  datatype Offer = Offer(slug: string, unit: DurationUnit, count: nat, trialDays: nat, isActive: bool,
          isDefaultFree: bool)

  datatype Books = Books(subscriptions: seq<Subscription>, orders: seq<Order>, licenses: seq<License>)

  datatype BillingError =
    | NotFound | ValidationFailed | PhoneVerificationRequired | TrialUsed | PhoneReused | HasActivePlan
    | AlreadyRevoked | IntegrityError

  // ---- queries ----

  /** The first ACTIVE row of a user at or after `from`, lapsed or not. */
  function ActiveRow(rows: seq<Subscription>, user: UserId, from: nat := 0): (found: Option<nat>)
    ensures found.Some? ==>
          from <= found.value < |rows| && rows[found.value].user == user && rows[found.value].status.Active?
    ensures found.None? ==> forall i :: from <= i < |rows| ==> !(rows[i].user == user && rows[i].status.Active?)
    decreases |rows| - from
  {
    if from >= |rows| then None
    else if rows[from].user == user && rows[from].status.Active? then Some(from)
    else ActiveRow(rows, user, from + 1)
  }

  function RowOfOrder(rows: seq<Subscription>, order: nat, from: nat := 0): (found: Option<nat>)
    ensures found.Some? ==> from <= found.value < |rows| && rows[found.value].order == Some(order)
    ensures found.None? ==> forall i :: from <= i < |rows| ==> rows[i].order != Some(order)
    decreases |rows| - from
  {
    if from >= |rows| then None
    else if rows[from].order == Some(order) then Some(from)
    else RowOfOrder(rows, order, from + 1)
  }

  function LicenseOf(licenses: seq<License>, key: KeyHash, from: nat := 0): (found: Option<nat>)
    ensures found.Some? ==> from <= found.value < |licenses| && licenses[found.value].keyHash == key
    ensures found.None? ==> forall i :: from <= i < |licenses| ==> licenses[i].keyHash != key
    decreases |licenses| - from
  {
    if from >= |licenses| then None
    else if licenses[from].keyHash == key then Some(from)
    else LicenseOf(licenses, key, from + 1)
  }

  // ---- the unique indexes ----

  /** One ACTIVE row and one trial row per user. */
  predicate CanInsertSubscription(rows: seq<Subscription>, s: Subscription) {
    && (s.status.Active? ==> ActiveRow(rows, s.user).None?)
    && (s.source.Trial? ==> forall r :: r in rows ==> !(r.user == s.user && r.source.Trial?))
  }

  predicate CanInsertOrder(orders: seq<Order>, o: Order) {
    forall other :: other in orders ==> other.ref != o.ref
  }

  predicate CanInsertLicense(licenses: seq<License>, l: License) {
    LicenseOf(licenses, l.keyHash).None?
  }

  // ---- purchases and grants ----

  function WithStatus(rows: seq<Subscription>, i: nat, status: SubscriptionStatus): seq<Subscription>
    requires i < |rows|
  {
    rows[i := rows[i].(status := status)]
  }

  function CancelActive(rows: seq<Subscription>, user: UserId): seq<Subscription> {
    match ActiveRow(rows, user)
    case None => rows
    case Some(i) => WithStatus(rows, i, Cancelled)
  }

  /** A term of the plan the user already has starts where the current one ends. */
  function TermStart(rows: seq<Subscription>, user: UserId, plan: string, now: Instant): Instant {
    match ActiveRow(rows, user)
    case Some(i) =>
      if rows[i].plan == plan && rows[i].expiresAt.Some?
            && rows[i].expiresAt.value > now then rows[i].expiresAt.value else now
    case None => now
  }

  /** The row a purchase or grant ends in: it replaces the user's ACTIVE row. */
  function Replace(rows: seq<Subscription>, s: Subscription): Result<seq<Subscription>, BillingError> {
    var cancelled := CancelActive(rows, s.user);
    if CanInsertSubscription(cancelled, s) then Ok(cancelled + [s]) else Err(IntegrityError)
  }

  function Purchase(b: Books, user: UserId, plan: Offer, ref: KeyHash, now: Instant): Result<Books, BillingError> {
    var order := Order(user, plan.slug, ref, Paid);
    var expiresAt := ComputeExpiry(TermStart(b.subscriptions, user, plan.slug, now), plan.unit, plan.count);
    var row := Subscription(user, plan.slug, Active, SupportKoriLicense, now, expiresAt, Some(|b.orders|));
    if !CanInsertOrder(b.orders, order) then Err(IntegrityError)
    else
      match Replace(b.subscriptions, row)
      case Err(e) => Err(e)
      case Ok(rows) => Ok(b.(subscriptions := rows, orders := b.orders + [order]))
  }

  datatype Outcome = Activated | AlreadyYours | InvalidLicense | ExpiredLicense | TryAgain

  /** What a key that is already on record answers to a user. */
  function ExistingOutcome(b: Books, license: nat, user: UserId, now: Instant): Outcome
    requires license < |b.licenses|
  {
    var l := b.licenses[license];
    if l.user != user || l.status.Revoked? then InvalidLicense
    else
      match RowOfOrder(b.subscriptions, l.order)
      case Some(i) =>
        if b.subscriptions[i].status.Active? && Lasting(b.subscriptions[i].expiresAt, now) then AlreadyYours
              else ExpiredLicense
      case None => ExpiredLicense
  }

  /** Claiming a verified key: all three rows, or none and the answer of the key's record. */
  function Claim(b: Books, user: UserId, plan: Offer, key: KeyHash, now: Instant): (Books, Outcome) {
    var license := License(key, user, plan.slug, |b.orders|, Valid, now, None);
    var bought := Purchase(b, user, plan, key, now);
    if bought.Ok? && CanInsertLicense(b.licenses, license) then
      (bought.value.(licenses := b.licenses + [license]), Activated)
    else
      match LicenseOf(b.licenses, key)
      case Some(i) => (b, ExistingOutcome(b, i, user, now))
      case None => (b, TryAgain)
  }

  function Grant(b: Books, user: UserId, plan: Offer, until: Option<Instant>, now: Instant): Result<Books,
          BillingError> {
    if plan.isDefaultFree || !plan.isActive then Err(ValidationFailed)
    else if until.Some? && until.value <= now then Err(ValidationFailed)
    else
      var expiresAt := if until.Some? then until
                       else ComputeExpiry(TermStart(b.subscriptions, user, plan.slug, now), plan.unit, plan.count);
      match Replace(b.subscriptions, Subscription(user, plan.slug, Active, AdminGrant, now, expiresAt, None))
      case Err(e) => Err(e)
      case Ok(rows) => Ok(b.(subscriptions := rows))
  }

  function RevokeSubscription(b: Books, user: UserId): Result<Books, BillingError> {
    if ActiveRow(b.subscriptions, user).None? then Err(NotFound)
    else Ok(b.(subscriptions := CancelActive(b.subscriptions, user)))
  }

  // ---- trials ----

  predicate HasTrial(rows: seq<Subscription>, user: UserId) {
    exists s :: s in rows && s.user == user && s.source.Trial?
  }

  /** `phoneVerified` and `phoneReused` are what the user table answers. */
  function StartTrial(b: Books, user: UserId, plan: Offer, phoneVerified: bool, phoneReused: bool,
          now: Instant): Result<Books, BillingError> {
    var row := Subscription(user, plan.slug, Active, Trial, now, Some(now + plan.trialDays * MICROS_PER_DAY), None);
    if !plan.isActive || plan.isDefaultFree || plan.trialDays == 0 then Err(NotFound)
    else if !phoneVerified then Err(PhoneVerificationRequired)
    else if HasTrial(b.subscriptions, user) then Err(TrialUsed)
    else if phoneReused then Err(PhoneReused)
    else if LiveSubscription(b.subscriptions, user, now).Some? then Err(HasActivePlan)
    else if !CanInsertSubscription(b.subscriptions, row) then Err(TrialUsed)
    else Ok(b.(subscriptions := b.subscriptions + [row]))
  }

  // ---- revocation, re-validation, expiry ----

  function RevokeLicense(b: Books, license: nat): Books
    requires license < |b.licenses|
  {
    var order := b.licenses[license].order;
    Books(EndOrder(b.subscriptions, order),
          if order < |b.orders| then b.orders[order := b.orders[order].(status := Refunded)] else b.orders,
          b.licenses[license := b.licenses[license].(status := Revoked)])
  }

  /** The order's ACTIVE row, if any, ends. */
  function EndOrder(rows: seq<Subscription>, order: nat): seq<Subscription> {
    match RowOfOrder(rows, order)
    case Some(i) => if rows[i].status.Active? then WithStatus(rows, i, Cancelled) else rows
    case None => rows
  }

  function AdminRevokeLicense(b: Books, license: nat): Result<Books, BillingError> {
    if license >= |b.licenses| then Err(NotFound)
    else if b.licenses[license].status.Revoked? then Err(AlreadyRevoked)
    else Ok(RevokeLicense(b, license))
  }

  /** The seller's answer to a re-check; an outage or any other error tells nothing. */
  datatype Verdict = StillValid | NotValid | NoAnswer

  function Revalidate(b: Books, license: nat, verdict: Verdict, now: Instant): Books
    requires license < |b.licenses|
  {
    match verdict
    case StillValid => b.(licenses := b.licenses[license := b.licenses[license].(lastRevalidatedAt := Some(now))])
    case NotValid => RevokeLicense(b, license)
    case NoAnswer => b
  }

  predicate Overdue(s: Subscription, now: Instant) {
    s.status.Active? && s.expiresAt.Some? && s.expiresAt.value < now
  }

  function ExpireRow(s: Subscription, now: Instant): Subscription {
    if Overdue(s, now) then s.(status := Expired) else s
  }

  function Expire(b: Books, now: Instant): Books {
    b.(subscriptions := seq(|b.subscriptions|,
          i requires 0 <= i < |b.subscriptions| => ExpireRow(b.subscriptions[i], now)))
  }

  function OverdueCount(rows: seq<Subscription>, now: Instant): nat {
    if rows == [] then 0 else OverdueCount(rows[..|rows| - 1], now) + if Overdue(rows[|rows| - 1], now) then 1 else 0
  }

  /** The tables, changed in place by the services and jobs. */
  class BillingTables {
    var subscriptions: seq<Subscription>
    var orders: seq<Order>
    var licenses: seq<License>

    function Contents(): Books
      reads this
    {
      Books(subscriptions, orders, licenses)
    }

    constructor ()
      ensures Contents() == Books([], [], [])
    {
      subscriptions, orders, licenses := [], [], [];
    }

    /** INSERT under the unique indexes; false is an IntegrityError. */
    method InsertSubscription(s: Subscription) returns (ok: bool)
      modifies this`subscriptions
      ensures ok <==> CanInsertSubscription(old(subscriptions), s)
      ensures subscriptions == if ok then old(subscriptions) + [s] else old(subscriptions)
    {
      ok := CanInsertSubscription(subscriptions, s);
      if ok {
        subscriptions := subscriptions + [s];
      }
    }

    /** Flushes the cancellation before the inserts. On an IntegrityError the rows written so far stay
        written: undoing them is up to the caller's savepoint. */
    method GrantFromPurchase(user: UserId, plan: Offer, ref: KeyHash, now: Instant) returns (ok: bool)
      modifies this`subscriptions, this`orders
      ensures ok <==> Purchase(old(Contents()), user, plan, ref, now).Ok?
      ensures ok ==> Contents() == Purchase(old(Contents()), user, plan, ref, now).value
    {
      var active := ActiveRow(subscriptions, user);
      var start := now;
      if active.Some? && subscriptions[active.value].plan == plan.slug
         && subscriptions[active.value].expiresAt.Some? && subscriptions[active.value].expiresAt.value > now {
        start := subscriptions[active.value].expiresAt.value;
      }
      var expiresAt := ComputeExpiry(start, plan.unit, plan.count);
      if active.Some? {
        subscriptions := WithStatus(subscriptions, active.value, Cancelled);
      }
      var order := Order(user, plan.slug, ref, Paid);
      if !CanInsertOrder(orders, order) {
        return false;
      }
      orders := orders + [order];
      ok := InsertSubscription(Subscription(user, plan.slug, Active, SupportKoriLicense, now, expiresAt,
            Some(|orders| - 1)));
    }

    /** The claim of a verified key inside its savepoint. */
    method ClaimLicense(user: UserId, plan: Offer, key: KeyHash, now: Instant) returns (outcome: Outcome)
      modifies this
      ensures (Contents(), outcome) == Claim(old(Contents()), user, plan, key, now)
    {
      var savepoint := Contents();
      var ok := GrantFromPurchase(user, plan, key, now);
      if ok {
        var license := License(key, user, plan.slug, |orders| - 1, Valid, now, None);
        if CanInsertLicense(licenses, license) {
          licenses := licenses + [license];
          return Activated;
        }
      }
      subscriptions, orders, licenses := savepoint.subscriptions, savepoint.orders, savepoint.licenses;
      var raced := LicenseOf(licenses, key);
      match raced
      case Some(i) => return ExistingOutcome(Contents(), i, user, now);
      case None => return TryAgain;
    }

    method GrantPlan(user: UserId, plan: Offer, until: Option<Instant>, now: Instant)
            returns (r: Result<(), BillingError>)
      modifies this`subscriptions
      ensures var granted := Grant(old(Contents()), user, plan, until, now);
              if granted.Ok? then r.Ok? && Contents() == granted.value
                    else r == Err(granted.error) && Contents() == old(Contents())
    {
      if plan.isDefaultFree {
        return Err(ValidationFailed);
      }
      if !plan.isActive {
        return Err(ValidationFailed);
      }
      var before := subscriptions;
      var active := ActiveRow(subscriptions, user);
      var start := now;
      var expiresAt := until;
      if until.Some? {
        if until.value <= now {
          return Err(ValidationFailed);
        }
      } else {
        if active.Some? && subscriptions[active.value].plan == plan.slug
           && subscriptions[active.value].expiresAt.Some? && subscriptions[active.value].expiresAt.value > now {
          start := subscriptions[active.value].expiresAt.value;
        }
        expiresAt := ComputeExpiry(start, plan.unit, plan.count);
      }
      if active.Some? {
        subscriptions := WithStatus(subscriptions, active.value, Cancelled);
      }
      var ok := InsertSubscription(Subscription(user, plan.slug, Active, AdminGrant, now, expiresAt, None));
      if !ok {
        subscriptions := before;   // the request's transaction rolls back
        return Err(IntegrityError);
      }
      return Ok(());
    }

    method Trial(user: UserId, plan: Offer, phoneVerified: bool, phoneReused: bool, now: Instant)
            returns (r: Result<(), BillingError>)
      modifies this`subscriptions
      ensures var started := StartTrial(old(Contents()), user, plan, phoneVerified, phoneReused, now);
              if started.Ok? then r.Ok? && Contents() == started.value
                    else r == Err(started.error) && Contents() == old(Contents())
    {
      if !plan.isActive || plan.isDefaultFree || plan.trialDays <= 0 {
        return Err(NotFound);
      }
      if !phoneVerified {
        return Err(PhoneVerificationRequired);
      }
      if HasTrial(subscriptions, user) {
        return Err(TrialUsed);
      }
      if phoneReused {
        return Err(PhoneReused);
      }
      if LiveSubscription(subscriptions, user, now).Some? {
        return Err(HasActivePlan);
      }
      var ok := InsertSubscription(Subscription(user, plan.slug, Active, SubscriptionSource.Trial, now,
            Some(now + plan.trialDays * MICROS_PER_DAY), None));
      return if ok then Ok(()) else Err(TrialUsed);
    }

    method Revoke(license: nat)
      requires license < |licenses|
      modifies this
      ensures Contents() == RevokeLicense(old(Contents()), license)
    {
      licenses := licenses[license := licenses[license].(status := Revoked)];
      var order := licenses[license].order;
      if order < |orders| {
        orders := orders[order := orders[order].(status := Refunded)];
      }
      var row := RowOfOrder(subscriptions, order);
      if row.Some? && subscriptions[row.value].status.Active? {
        subscriptions := WithStatus(subscriptions, row.value, Cancelled);
      }
    }

    method AdminRevoke(license: nat) returns (r: Result<(), BillingError>)
      modifies this
      ensures var revoked := AdminRevokeLicense(old(Contents()), license);
              if revoked.Ok? then r.Ok? && Contents() == revoked.value
                    else r == Err(revoked.error) && Contents() == old(Contents())
    {
      if license >= |licenses| {
        return Err(NotFound);
      }
      if licenses[license].status.Revoked? {
        return Err(AlreadyRevoked);
      }
      Revoke(license);
      return Ok(());
    }

    method RevokePlan(user: UserId) returns (r: Result<(), BillingError>)
      modifies this`subscriptions
      ensures var revoked := RevokeSubscription(old(Contents()), user);
              if revoked.Ok? then r.Ok? && Contents() == revoked.value
                    else r == Err(revoked.error) && Contents() == old(Contents())
    {
      var active := ActiveRow(subscriptions, user);
      if active.None? {
        return Err(NotFound);
      }
      subscriptions := WithStatus(subscriptions, active.value, Cancelled);
      return Ok(());
    }

    /** The hourly housekeeping: one bulk update, returning how many rows it changed. */
    method ExpireSubscriptions(now: Instant) returns (count: nat)
      modifies this`subscriptions
      ensures Contents() == Expire(old(Contents()), now)
      ensures count == OverdueCount(old(subscriptions), now)
    {
      count := OverdueCount(subscriptions, now);
      subscriptions := seq(|subscriptions|,
            i requires 0 <= i < |subscriptions| reads this => ExpireRow(subscriptions[i], now));
    }

    /** One pass of the re-validation job over its batch; `verdicts` are the seller's answers in order. */
    method RevalidateBatch(batch: seq<nat>, verdicts: seq<Verdict>, now: Instant)
      returns (stillValid: nat, revoked: nat, unknown: nat)
      requires |batch| == |verdicts| && InRange(batch, |licenses|)
      modifies this
      ensures Contents() == RevalidateAll(old(Contents()), batch, verdicts, now)
      ensures stillValid == Answers(verdicts, StillValid) && revoked == Answers(verdicts, NotValid)
      ensures unknown == Answers(verdicts, NoAnswer) && stillValid + revoked + unknown == |batch|
    {
      hide RevalidateAll, Answers, RevokeLicense;
      stillValid, revoked, unknown := 0, 0, 0;
      NothingRevalidated(Contents(), now);
      var i := 0;
      while i < |batch|
        invariant 0 <= i <= |batch|
        invariant |licenses| == old(|licenses|)
        invariant Contents() == RevalidateAll(old(Contents()), batch[..i], verdicts[..i], now)
        invariant stillValid == Answers(verdicts[..i], StillValid) && revoked == Answers(verdicts[..i], NotValid)
        invariant unknown == Answers(verdicts[..i], NoAnswer) && stillValid + revoked + unknown == i
      {
        OneMoreRevalidated(old(Contents()), batch, verdicts, i, now);
        match verdicts[i] {
          case StillValid =>
            licenses := licenses[batch[i] := licenses[batch[i]].(lastRevalidatedAt := Some(now))];
            stillValid := stillValid + 1;
          case NotValid =>
            Revoke(batch[i]);
            revoked := revoked + 1;
          case NoAnswer =>
            unknown := unknown + 1;
        }
        i := i + 1;
      }
      assert batch[..i] == batch && verdicts[..i] == verdicts;
    }
  }

  predicate InRange(batch: seq<nat>, n: nat) {
    forall i :: 0 <= i < |batch| ==> batch[i] < n
  }

  /** The pass as a fold over the batch. */
  function RevalidateAll(b: Books, batch: seq<nat>, verdicts: seq<Verdict>, now: Instant): (after: Books)
    requires |batch| == |verdicts| && InRange(batch, |b.licenses|)
    ensures |after.subscriptions| == |b.subscriptions| && |after.orders| == |b.orders|
          && |after.licenses| == |b.licenses|
    ensures forall i ::
          0 <= i < |b.subscriptions| ==>
          after.subscriptions[i] == b.subscriptions[i].(status := after.subscriptions[i].status)
    decreases |batch|
  {
    if batch == [] then b
    else
      var n := |batch| - 1;
      Revalidate(RevalidateAll(b, batch[..n], verdicts[..n], now), batch[n], verdicts[n], now)
  }

  lemma NothingRevalidated(b: Books, now: Instant)
    ensures RevalidateAll(b, [], [], now) == b && forall v :: Answers([], v) == 0
  {}

  lemma OneMoreRevalidated(b: Books, batch: seq<nat>, verdicts: seq<Verdict>, i: nat, now: Instant)
    requires |batch| == |verdicts| && InRange(batch, |b.licenses|) && i < |batch|
    ensures RevalidateAll(b, batch[..i + 1], verdicts[..i + 1], now)
         == Revalidate(RevalidateAll(b, batch[..i], verdicts[..i], now), batch[i], verdicts[i], now)
    ensures forall v ::
          Answers(verdicts[..i + 1], v) == Answers(verdicts[..i], v) + if verdicts[i] == v then 1 else 0
  {
    hide Revalidate;
    assert batch[..i + 1][..i] == batch[..i] && verdicts[..i + 1][..i] == verdicts[..i];
  }

  function Answers(verdicts: seq<Verdict>, v: Verdict): nat {
    if verdicts == [] then 0
    else Answers(verdicts[..|verdicts| - 1], v) + if verdicts[|verdicts| - 1] == v then 1 else 0
  }
}
