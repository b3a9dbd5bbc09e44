/** Any number of users racing to redeem licence keys: lookups, seller checks and claims of different
    requests interleave freely with each other and with every other billing act. */
module Redemption {
  import opened Wrappers
  import opened Calendar
  import opened Entitlements
  import opened Billing
  import opened BillingInvariants
  import opened Durations
  import opened Terms

  datatype SellerAnswer = Genuine | Fake | BoughtTooLongAgo | Unreachable

  /** A key the seller does not know gets the answer that somebody else's key gets. */
  datatype Ending = Answered(outcome: Outcome) | TooOld | SellerDown

  datatype Phase = Received | NotOnRecord | Verified | Finished(ending: Ending)

  datatype Request = Request(user: UserId, plan: Offer, key: KeyHash, phase: Phase)

  datatype State = State(books: Books, requests: seq<Request>)

  datatype Event =
    | Submit(user: UserId, plan: Offer, key: KeyHash)
    | LookUp(r: nat, now: Instant)             // our own records first
    | AskSeller(r: nat, answer: SellerAnswer)  // no lock held
    | Redeem(r: nat, now: Instant)             // lock, savepoint, unique indexes, commit
    | Meanwhile(act: Act, now: Instant)        // anything but another claim

  predicate Enabled(s: State, e: Event) {
    match e
    case Submit(_, _, _) => true
    case LookUp(r, _) => r < |s.requests| && s.requests[r].phase.Received?
    case AskSeller(r, _) => r < |s.requests| && s.requests[r].phase.NotOnRecord?
    case Redeem(r, _) => r < |s.requests| && s.requests[r].phase.Verified?
    case Meanwhile(act, _) => !act.ClaimKey?
  }

  function Advance(s: State, r: nat, phase: Phase): State
    requires r < |s.requests|
  {
    s.(requests := s.requests[r := s.requests[r].(phase := phase)])
  }

  function Step(s: State, e: Event): State
    requires Enabled(s, e)
  {
    match e
    case Submit(user, plan, key) => s.(requests := s.requests + [Request(user, plan, key, Received)])
    case LookUp(r, now) =>
      (match LicenseOf(s.books.licenses, s.requests[r].key)
       case Some(l) => Advance(s, r, Finished(Answered(ExistingOutcome(s.books, l, s.requests[r].user, now))))
       case None => Advance(s, r, NotOnRecord))
    case AskSeller(r, answer) =>
      Advance(s, r, match answer
                    case Genuine => Verified
                    case Fake => Finished(Answered(InvalidLicense))
                    case BoughtTooLongAgo => Finished(TooOld)
                    case Unreachable => Finished(SellerDown))
    case Redeem(r, now) =>
      var q := s.requests[r];
      var (books, outcome) := Claim(s.books, q.user, q.plan, q.key, now);
      Advance(s.(books := books), r, Finished(Answered(outcome)))
    case Meanwhile(act, now) => s.(books := Apply(s.books, act, now))
  }

  predicate IsRun(s: State, events: seq<Event>)
    decreases |events|
  {
    events == [] || (Enabled(s, events[0]) && IsRun(Step(s, events[0]), events[1..]))
  }

  function Run(s: State, events: seq<Event>): State
    requires IsRun(s, events)
    decreases |events|
  {
    if events == [] then s else Run(Step(s, events[0]), events[1..])
  }

  const START: State := State(EMPTY, [])

  predicate Won(q: Request) {
    q.phase == Finished(Answered(Activated))
  }

  /** Request r redeemed the key of licence l. */
  predicate Wins(s: State, r: nat, l: nat)
    requires r < |s.requests| && l < |s.books.licenses|
  {
    Won(s.requests[r]) && s.requests[r].key == s.books.licenses[l].keyHash
  }

  predicate HasLicense(s: State, r: nat)
    requires r < |s.requests|
  {
    exists l :: 0 <= l < |s.books.licenses| && Wins(s, r, l) && s.books.licenses[l].user == s.requests[r].user
  }

  predicate HasWinner(s: State, l: nat)
    requires l < |s.books.licenses|
  {
    exists r :: 0 <= r < |s.requests| && Wins(s, r, l)
  }

  /** Every winner's key is on record for the winner, every key on record has a winner, and no key has two. */
  ghost predicate OneWinnerPerKey(s: State) {
    && (forall r :: 0 <= r < |s.requests| && Won(s.requests[r]) ==> HasLicense(s, r))
    && (forall l :: 0 <= l < |s.books.licenses| ==> HasWinner(s, l))
    && (forall r, q :: 0 <= r < q < |s.requests| && Won(s.requests[r]) && Won(s.requests[q]) ==>
          s.requests[r].key != s.requests[q].key)
  }

  ghost predicate Inv(s: State) {
    Sound(s.books) && OneWinnerPerKey(s)
  }

  /** A request that does not win leaves every table as it was: the savepoint undoes its cancellation. */
  lemma LosersChangeNothing(b: Books, user: UserId, plan: Offer, key: KeyHash, now: Instant)
    requires Claim(b, user, plan, key, now).1 != Activated
    ensures Claim(b, user, plan, key, now).0 == b
  {}

  /** Changes that add no winner and no licence. */
  lemma QuietStep(s: State, s': State)
    requires OneWinnerPerKey(s) && |s.requests| <= |s'.requests|
    requires forall r :: 0 <= r < |s'.requests| ==>
               if r < |s.requests| then
                 && s'.requests[r] == s.requests[r].(phase := s'.requests[r].phase)
                 && (Won(s'.requests[r]) <==> Won(s.requests[r]))
               else !Won(s'.requests[r])
    requires |s'.books.licenses| == |s.books.licenses|
    requires forall l :: 0 <= l < |s.books.licenses| ==>
               && s'.books.licenses[l].keyHash == s.books.licenses[l].keyHash
               && s'.books.licenses[l].user == s.books.licenses[l].user
    ensures OneWinnerPerKey(s')
  {
    forall r | 0 <= r < |s'.requests| && Won(s'.requests[r]) ensures HasLicense(s', r) {
      assert HasLicense(s, r);
      var l :| 0 <= l < |s.books.licenses| && Wins(s, r, l) && s.books.licenses[l].user == s.requests[r].user;
      assert Wins(s', r, l);
    }
    forall l | 0 <= l < |s'.books.licenses| ensures HasWinner(s', l) {
      assert HasWinner(s, l);
      var r :| 0 <= r < |s.requests| && Wins(s, r, l);
      assert Wins(s', r, l);
    }
  }

  lemma MeanwhileAddsNoLicense(b: Books, act: Act, now: Instant)
    requires Sound(b) && !act.ClaimKey?
    ensures |Apply(b, act, now).licenses| == |b.licenses|
    ensures forall l :: 0 <= l < |b.licenses| ==>
              Apply(b, act, now).licenses[l].keyHash == b.licenses[l].keyHash
                    && Apply(b, act, now).licenses[l].user == b.licenses[l].user
  {}

  /** A change that adds a winner and its licence, the first of its key. */
  lemma WinnerAdded(s: State, s': State, r: nat, license: License)
    requires OneWinnerPerKey(s) && r < |s.requests| == |s'.requests| && !Won(s.requests[r])
    requires s'.requests == s.requests[r := s'.requests[r]] && Won(s'.requests[r])
    requires s'.requests[r].key == s.requests[r].key == license.keyHash && s'.requests[r].user == license.user
    requires s'.books.licenses == s.books.licenses + [license]
    requires forall l :: 0 <= l < |s.books.licenses| ==> s.books.licenses[l].keyHash != license.keyHash
    ensures OneWinnerPerKey(s')
  {
    hide Won;
    var n := |s.books.licenses|;
    forall p | 0 <= p < |s'.requests| && Won(s'.requests[p])
      ensures HasLicense(s', p)
      ensures p != r ==> s'.requests[p].key != license.keyHash
    {
      if p == r {
        assert Wins(s', p, n);
      } else {
        assert HasLicense(s, p);
        var l :| 0 <= l < n && Wins(s, p, l) && s.books.licenses[l].user == s.requests[p].user;
        assert Wins(s', p, l);
      }
    }
    forall l | 0 <= l <= n ensures HasWinner(s', l) {
      if l == n {
        assert Wins(s', r, n);
      } else {
        assert HasWinner(s, l);
        var p :| 0 <= p < |s.requests| && Wins(s, p, l);
        assert Wins(s', p, l);
      }
    }
  }

  /** A winning claim is the first of its key. */
  lemma WinningStep(s: State, r: nat, now: Instant)
    requires Inv(s) && Enabled(s, Redeem(r, now))
    requires Claim(s.books, s.requests[r].user, s.requests[r].plan, s.requests[r].key, now).1.Activated?
    ensures OneWinnerPerKey(Step(s, Redeem(r, now)))
  {
    var q := s.requests[r];
    ClaimSucceeds(s.books, q.user, q.plan, q.key, now);
    hide OneWinnerPerKey, Claim, Sound;
    WinnerAdded(s, Step(s, Redeem(r, now)), r, License(q.key, q.user, q.plan.slug, |s.books.orders|, Valid, now, None));
  }

  lemma StepKeepsInv(s: State, e: Event)
    requires Inv(s) && Enabled(s, e)
    ensures Inv(Step(s, e))
  {
    match e
    case Submit(_, _, _) => QuietStep(s, Step(s, e));
    case LookUp(r, now) =>
      QuietStep(s, Step(s, e));
    case AskSeller(_, _) => QuietStep(s, Step(s, e));
    case Redeem(r, now) =>
      var q := s.requests[r];
      ClaimKeepsSound(s.books, q.user, q.plan, q.key, now);
      if Claim(s.books, q.user, q.plan, q.key, now).1.Activated? {
        WinningStep(s, r, now);
      } else {
        LosersChangeNothing(s.books, q.user, q.plan, q.key, now);
        QuietStep(s, Step(s, e));
      }
    case Meanwhile(act, now) =>
      ApplyKeepsSound(s.books, act, now);
      MeanwhileAddsNoLicense(s.books, act, now);
      QuietStep(s, Step(s, e));
  }

  lemma {:induction false} RunKeepsInv(s: State, events: seq<Event>)
    requires Inv(s) && IsRun(s, events)
    ensures Inv(Run(s, events))
    decreases |events|
  {
    if events != [] {
      StepKeepsInv(s, events[0]);
      RunKeepsInv(Step(s, events[0]), events[1..]);
    }
  }

  // ---- what stems from one key ----

  function Winners(s: State, key: KeyHash): set<nat> {
    set r | 0 <= r < |s.requests| && Won(s.requests[r]) && s.requests[r].key == key
  }

  function LicensesOf(b: Books, key: KeyHash): set<nat> {
    set l | 0 <= l < |b.licenses| && b.licenses[l].keyHash == key
  }

  function OrdersOf(b: Books, key: KeyHash): set<nat> {
    set o | 0 <= o < |b.orders| && b.orders[o].ref == key
  }

  function RowsFrom(b: Books, key: KeyHash): set<nat> {
    set i | 0 <= i < |b.subscriptions| && b.subscriptions[i].order.Some?
          && b.subscriptions[i].order.value in OrdersOf(b, key)
  }

  lemma SoleMember(s: set<nat>, x: nat)
    requires x in s && forall y :: y in s ==> y == x
    ensures s == {x} && |s| == 1
  {
    assert s == {x};
  }

  lemma RecordsOfKey(b: Books, key: KeyHash, l: nat)
    requires Sound(b) && l < |b.licenses| && b.licenses[l].keyHash == key
    ensures LicensesOf(b, key) == {l} && OrdersOf(b, key) == {l}
    ensures exists i ::
          0 <= i < |b.subscriptions| && RowsFrom(b, key) == {i} && b.subscriptions[i].user == b.licenses[l].user
    ensures b.orders[l].user == b.licenses[l].user
  {
    forall m | 0 <= m < |b.licenses| ensures b.licenses[m].keyHash == b.orders[m].ref {
      assert LicenseMatches(b.licenses[m], b.orders[m], m);
    }
    assert LicenseMatches(b.licenses[l], b.orders[l], l);
    SoleMember(OrdersOf(b, key), l);
    SoleMember(LicensesOf(b, key), l);
    var i := RowOfOrder(b.subscriptions, l).value;
    assert PurchaseMatches(b, b.subscriptions[i], l);
    forall j | j in RowsFrom(b, key) ensures j == i {
      assert RowOfOrder(b.subscriptions, b.subscriptions[j].order.value) == Some(j);
    }
    SoleMember(RowsFrom(b, key), i);
  }

  lemma NoRecordsOfKey(b: Books, key: KeyHash)
    requires Sound(b) && LicensesOf(b, key) == {}
    ensures OrdersOf(b, key) == {} && RowsFrom(b, key) == {}
  {
    forall o | 0 <= o < |b.orders| ensures o !in OrdersOf(b, key) {
      assert LicenseMatches(b.licenses[o], b.orders[o], o);
      assert o !in LicensesOf(b, key);
    }
  }

  lemma WonKeyIsRecordedOnce(s: State, key: KeyHash, r: nat) returns (l: nat, i: nat)
    requires Inv(s) && r in Winners(s, key)
    ensures Winners(s, key) == {r} && RowsFrom(s.books, key) == {i}
    ensures LicensesOf(s.books, key) == OrdersOf(s.books, key) == {l}
    ensures s.books.licenses[l].user == s.books.orders[l].user == s.books.subscriptions[i].user == s.requests[r].user
  {
    assert HasLicense(s, r);
    l :| 0 <= l < |s.books.licenses| && Wins(s, r, l) && s.books.licenses[l].user == s.requests[r].user;
    RecordsOfKey(s.books, key, l);
    i :| 0 <= i < |s.books.subscriptions| && RowsFrom(s.books, key) == {i}
      && s.books.subscriptions[i].user == s.books.licenses[l].user;
    SoleMember(Winners(s, key), r);
  }

  lemma UnwonKeyIsUnrecorded(s: State, key: KeyHash)
    requires Inv(s) && Winners(s, key) == {}
    ensures LicensesOf(s.books, key) == OrdersOf(s.books, key) == RowsFrom(s.books, key) == {}
  {
    forall l | 0 <= l < |s.books.licenses| ensures l !in LicensesOf(s.books, key) {
      assert HasWinner(s, l);
      var r :| 0 <= r < |s.requests| && Wins(s, r, l);
      assert r !in Winners(s, key);
    }
    assert LicensesOf(s.books, key) == {};
    NoRecordsOfKey(s.books, key);
  }

  /** However the requests interleave: a key has at most one winning request, exactly as many licences,
      orders and subscriptions stem from it, and they are all in the winner's name. */
  lemma ExactlyOneRedemption(events: seq<Event>, key: KeyHash)
    requires IsRun(START, events)
    ensures var s := Run(START, events);
            && |Winners(s, key)| <= 1
            && |LicensesOf(s.books, key)| == |OrdersOf(s.books, key)| == |RowsFrom(s.books, key)| == |Winners(s, key)|
            && forall r, l, i ::
                  r in Winners(s, key) && l in LicensesOf(s.books, key) && i in RowsFrom(s.books, key) ==>
                 && s.books.licenses[l].user == s.requests[r].user
                       && s.books.subscriptions[i].user == s.requests[r].user
                 && forall o :: o in OrdersOf(s.books, key) ==> s.books.orders[o].user == s.requests[r].user
  {
    EmptyBooksAreSound();
    RunKeepsInv(START, events);
    var s := Run(START, events);
    hide Run, IsRun, Inv, Winners, LicensesOf, OrdersOf, RowsFrom;
    if r :| r in Winners(s, key) {
      var l, i := WonKeyIsRecordedOnce(s, key, r);
    } else {
      UnwonKeyIsUnrecorded(s, key);
    }
  }

  /** The owner of a licence never changes. */
  lemma {:induction false} OwnersAreForever(s: State, events: seq<Event>, l: nat)
    requires Inv(s) && IsRun(s, events) && l < |s.books.licenses|
    ensures var after := Run(s, events).books;
            && l < |after.licenses|
            && after.licenses[l].user == s.books.licenses[l].user
                  && after.licenses[l].keyHash == s.books.licenses[l].keyHash
            && after.licenses[l].order == s.books.licenses[l].order
    decreases |events|
  {
    if events != [] {
      StepKeepsInv(s, events[0]);
      match events[0] {
        case Redeem(r, now) =>
          var q := s.requests[r];
          ApplyExtends(s.books, ClaimKey(q.user, q.plan, q.key), now);
        case Meanwhile(act, now) => ApplyExtends(s.books, act, now);
        case _ =>
      }
      OwnersAreForever(Step(s, events[0]), events[1..], l);
    }
  }

  // ---- only what the seller vouched for ----

  /** The seller called the request's key genuine, and it was not turned down since. */
  predicate Cleared(s: State, r: nat) {
    r < |s.requests| && (s.requests[r].phase.Verified? || Won(s.requests[r]))
  }

  lemma ClearedBySeller(s: State, e: Event, r: nat)
    requires Enabled(s, e) && Cleared(Step(s, e), r)
    ensures Cleared(s, r) || e == AskSeller(r, Genuine)
  {
    hide Claim, Apply, LicenseOf;
  }

  lemma {:induction false} ClearedInRun(s: State, events: seq<Event>, r: nat)
    requires IsRun(s, events) && Cleared(Run(s, events), r)
    ensures Cleared(s, r) || AskSeller(r, Genuine) in events
    decreases |events|
  {
    if events != [] {
      ClearedInRun(Step(s, events[0]), events[1..], r);
      if Cleared(Step(s, events[0]), r) {
        ClearedBySeller(s, events[0], r);
      }
    }
  }

  /** No request ever redeems a key the seller did not call genuine for it. */
  lemma WinnersAreGenuine(events: seq<Event>, r: nat, key: KeyHash)
    requires IsRun(START, events) && r in Winners(Run(START, events), key)
    ensures AskSeller(r, Genuine) in events
  {
    ClearedInRun(START, events, r);
  }

  // ---- what everybody is told ----

  predicate KeyIsTheirs(b: Books, key: KeyHash, user: UserId) {
    exists l :: 0 <= l < |b.licenses| && b.licenses[l].keyHash == key && b.licenses[l].user == user
  }

  /** The key is on record as another user's, or revoked. */
  predicate KeyIsBarred(b: Books, key: KeyHash, user: UserId) {
    exists l :: 0 <= l < |b.licenses| && b.licenses[l].keyHash == key
                && (b.licenses[l].user != user || b.licenses[l].status.Revoked?)
  }

  /** "Activated", "already yours" and "expired" are for the key's owner; "invalid" is for everybody else, for a
      revoked key and for one the seller does not know. */
  predicate AnswerFits(b: Books, q: Request, outcome: Outcome, fake: bool) {
    match outcome
    case Activated | AlreadyYours | ExpiredLicense => KeyIsTheirs(b, q.key, q.user)
    case InvalidLicense => fake || KeyIsBarred(b, q.key, q.user)
    case TryAgain => false
  }

  ghost predicate AnswersFit(s: State, past: seq<Event>) {
    forall r :: 0 <= r < |s.requests| && s.requests[r].phase.Finished? && s.requests[r].phase.ending.Answered? ==>
      AnswerFits(s.books, s.requests[r], s.requests[r].phase.ending.outcome, AskSeller(r, Fake) in past)
  }

  /** Licences keep their key and owner and stay revoked. */
  predicate KeepsRecords(b: Books, after: Books) {
    |b.licenses| <= |after.licenses| && forall l :: 0 <= l < |b.licenses| ==>
      && after.licenses[l].keyHash == b.licenses[l].keyHash && after.licenses[l].user == b.licenses[l].user
      && (b.licenses[l].status.Revoked? ==> after.licenses[l].status.Revoked?)
  }

  lemma StepKeepsRecords(s: State, e: Event)
    requires Inv(s) && Enabled(s, e)
    ensures KeepsRecords(s.books, Step(s, e).books)
  {
    match e
    case Redeem(r, now) =>
      var q := s.requests[r];
      ApplyExtends(s.books, ClaimKey(q.user, q.plan, q.key), now);
    case Meanwhile(act, now) => ApplyExtends(s.books, act, now);
    case _ =>
  }

  lemma AnswerStaysFit(b: Books, after: Books, q: Request, outcome: Outcome, fake: bool)
    requires AnswerFits(b, q, outcome, fake) && KeepsRecords(b, after)
    ensures AnswerFits(after, q, outcome, fake)
  {
    if KeyIsTheirs(b, q.key, q.user) {
      var l :| 0 <= l < |b.licenses| && b.licenses[l].keyHash == q.key && b.licenses[l].user == q.user;
      assert after.licenses[l].keyHash == q.key && after.licenses[l].user == q.user;
    }
    if KeyIsBarred(b, q.key, q.user) {
      var l :| 0 <= l < |b.licenses| && b.licenses[l].keyHash == q.key
               && (b.licenses[l].user != q.user || b.licenses[l].status.Revoked?);
      assert after.licenses[l].keyHash == q.key
          && (after.licenses[l].user != q.user || after.licenses[l].status.Revoked?);
    }
  }

  lemma ClaimAnswerFits(b: Books, q: Request, now: Instant)
    requires Sound(b)
    ensures var (after, outcome) := Claim(b, q.user, q.plan, q.key, now);
            AnswerFits(after, q, outcome, false)
  {
    ClaimAnswers(b, q.user, q.plan, q.key, now);
    ClaimSucceeds(b, q.user, q.plan, q.key, now);
    hide Durations.ComputeExpiry, Sound;
    var (after, outcome) := Claim(b, q.user, q.plan, q.key, now);
    hide Claim;
    if outcome.Activated? {
      var l := |b.licenses|;
      assert after.licenses[l].keyHash == q.key && after.licenses[l].user == q.user;
    } else if outcome.InvalidLicense? {
      var l :| l in b.licenses && l.keyHash == q.key && (l.user != q.user || l.status.Revoked?);
      assert KeyIsBarred(b, q.key, q.user);
    } else {
      var l :| l in b.licenses && l.keyHash == q.key;
      assert KeyIsTheirs(b, q.key, q.user);
    }
  }

  /** The answer a step gives, if it gives one. */
  lemma NewAnswerFits(s: State, e: Event, r: nat)
    requires Inv(s) && Enabled(s, e) && r < |Step(s, e).requests|
    requires var phase := Step(s, e).requests[r].phase;
             phase.Finished? && phase.ending.Answered? && !(r < |s.requests| && phase == s.requests[r].phase)
    ensures var q := Step(s, e).requests[r];
            AnswerFits(Step(s, e).books, q, q.phase.ending.outcome, e == AskSeller(r, Fake))
  {
    match e
    case LookUp(_, now) =>
      var q := s.requests[r];
      ClaimSucceeds(s.books, q.user, q.plan, q.key, now);
      ClaimAnswerFits(s.books, q, now);
    case Redeem(_, now) => ClaimAnswerFits(s.books, s.requests[r], now);
    case _ =>
  }

  lemma StepKeepsAnswersFit(s: State, e: Event, past: seq<Event>)
    requires Inv(s) && Enabled(s, e) && AnswersFit(s, past)
    ensures AnswersFit(Step(s, e), past + [e])
  {
    var s' := Step(s, e);
    StepKeepsRecords(s, e);
    forall r: nat | r < |s'.requests| && s'.requests[r].phase.Finished? && s'.requests[r].phase.ending.Answered?
      ensures AnswerFits(s'.books, s'.requests[r], s'.requests[r].phase.ending.outcome,
                         AskSeller(r, Fake) in past + [e])
    {
      if r < |s.requests| && s'.requests[r].phase == s.requests[r].phase {
        assert s'.requests[r] == s.requests[r];
        AnswerStaysFit(s.books, s'.books, s.requests[r], s.requests[r].phase.ending.outcome,
                       AskSeller(r, Fake) in past);
      } else {
        NewAnswerFits(s, e, r);
      }
    }
  }

  lemma {:induction false} RunKeepsAnswersFit(s: State, events: seq<Event>, past: seq<Event>)
    requires Inv(s) && IsRun(s, events) && AnswersFit(s, past)
    ensures AnswersFit(Run(s, events), past + events)
    decreases |events|
  {
    hide Inv, Step, Enabled, AnswersFit;
    if events == [] {
      assert past + events == past;
    } else {
      StepKeepsInv(s, events[0]);
      StepKeepsAnswersFit(s, events[0], past);
      RunKeepsAnswersFit(Step(s, events[0]), events[1..], past + [events[0]]);
      assert past + events == past + [events[0]] + events[1..];
    }
  }

  /** However the requests interleave: whoever gets an answer about a key that another user's request wins, before or
      after, is told what they would be told of a key that does not exist. And nobody is told so of a key of their own
      that is neither revoked nor unknown to the seller. */
  lemma LosersAreToldNothing(events: seq<Event>, r: nat)
    requires IsRun(START, events) && r < |Run(START, events).requests|
    ensures var s := Run(START, events);
            var q := s.requests[r];
            q.phase.Finished? && q.phase.ending.Answered? ==>
              && ((exists w :: 0 <= w < |s.requests| && Won(s.requests[w]) && s.requests[w].key == q.key
                     && s.requests[w].user != q.user) ==> q.phase.ending.outcome == InvalidLicense)
              && (q.phase.ending.outcome == InvalidLicense ==>
                    AskSeller(r, Fake) in events || KeyIsBarred(s.books, q.key, q.user))
  {
    EmptyBooksAreSound();
    RunKeepsInv(START, events);
    RunKeepsAnswersFit(START, events, []);
    assert [] + events == events;
    var s := Run(START, events);
    var q := s.requests[r];
    hide Run, IsRun;
    if q.phase.Finished? && q.phase.ending.Answered? {
      if w :| 0 <= w < |s.requests| && Won(s.requests[w]) && s.requests[w].key == q.key
            && s.requests[w].user != q.user {
        assert HasLicense(s, w);
        NotBothTheirs(s.books, q.key, s.requests[w].user, q.user);
      }
    }
  }

  lemma NotBothTheirs(b: Books, key: KeyHash, user: UserId, other: UserId)
    requires Sound(b) && KeyIsTheirs(b, key, user) && user != other
    ensures !KeyIsTheirs(b, key, other)
  {
    if KeyIsTheirs(b, key, other) {
      var l: nat :| 0 <= l < |b.licenses| && b.licenses[l].keyHash == key && b.licenses[l].user == user;
      var m: nat :| 0 <= m < |b.licenses| && b.licenses[m].keyHash == key && b.licenses[m].user == other;
      KeyIsOnOneLicense(b, l, m);
    }
  }

  /** The next look at our records, before or after the seller was asked, turns such a request down and changes no
      table. */
  lemma BarredKeysAreTurnedDown(s: State, r: nat, now: Instant)
    requires Inv(s) && r < |s.requests| && KeyIsBarred(s.books, s.requests[r].key, s.requests[r].user)
    ensures forall e :: e in {LookUp(r, now), Redeem(r, now)} && Enabled(s, e) ==>
              Step(s, e) == Advance(s, r, Finished(Answered(InvalidLicense)))
  {
    var q := s.requests[r];
    ClaimAnswers(s.books, q.user, q.plan, q.key, now);
    ClaimSucceeds(s.books, q.user, q.plan, q.key, now);
    var l :| 0 <= l < |s.books.licenses| && s.books.licenses[l].keyHash == q.key
             && (s.books.licenses[l].user != q.user || s.books.licenses[l].status.Revoked?);
    assert s.books.licenses[l] in s.books.licenses;
    hide Inv, Claim;
  }

  // ---- losers lose nothing ----

  lemma ClaimLeavesOthers(b: Books, user: UserId, plan: Offer, key: KeyHash, now: Instant, other: UserId, t: Instant)
    requires Sound(b) && other != user
    ensures LiveSubscription(Claim(b, user, plan, key, now).0.subscriptions, other, t)
          == LiveSubscription(b.subscriptions, other, t)
  {
    ClaimSucceeds(b, user, plan, key, now);
    hide ComputeExpiry;
    var after := Claim(b, user, plan, key, now).0.subscriptions;
    if LicenseOf(b.licenses, key).None? {
      CancelLeavesOthers(b.subscriptions, user, other, t);
      AppendLeavesOthers(CancelActive(b.subscriptions, user), after[|b.subscriptions|], other, t);
    }
  }

  lemma {:induction false} WinningIsForGood(s: State, events: seq<Event>, r: nat)
    requires IsRun(s, events) && r < |s.requests|
    ensures r < |Run(s, events).requests| && Run(s, events).requests[r].user == s.requests[r].user
    ensures Won(s.requests[r]) ==> Won(Run(s, events).requests[r])
    decreases |events|
  {
    hide Claim, Apply, LicenseOf;
    if events != [] {
      WinningIsForGood(Step(s, events[0]), events[1..], r);
    }
  }

  /** A user none of whose requests redeems anything keeps the plan they have at every instant, however their
      requests and everybody else's interleave: a lost claim's cancellation is undone by its savepoint. */
  lemma {:induction false} LosersKeepTheirPlan(s: State, events: seq<Event>, user: UserId, t: Instant)
    requires Inv(s) && IsRun(s, events) && forall e :: e in events ==> !e.Meanwhile?
    requires forall r ::
          0 <= r < |Run(s, events).requests| && Run(s, events).requests[r].user == user ==>
          !Won(Run(s, events).requests[r])
    ensures LiveSubscription(Run(s, events).books.subscriptions, user, t)
          == LiveSubscription(s.books.subscriptions, user, t)
    decreases |events|
  {
    if events != [] {
      hide Inv, Won, LiveSubscription, Claim, Apply;
      var e, next := events[0], Step(s, events[0]);
      StepKeepsInv(s, e);
      StepKeepsOrWins(s, e, user, t);
      assert Run(s, events) == Run(next, events[1..]);
      hide Step;
      assert forall r :: r in events[1..] ==> r in events;
      if e.Redeem? {
        WinningIsForGood(next, events[1..], e.r);
      }
      LosersKeepTheirPlan(next, events[1..], user, t);
    }
  }

  lemma StepKeepsOrWins(s: State, e: Event, user: UserId, t: Instant)
    requires Inv(s) && Enabled(s, e) && !e.Meanwhile?
    ensures e.Redeem? ==> e.r < |Step(s, e).requests|
    ensures (e.Redeem? && Won(Step(s, e).requests[e.r]) && Step(s, e).requests[e.r].user == user)
         || LiveSubscription(Step(s, e).books.subscriptions, user, t)
               == LiveSubscription(s.books.subscriptions, user, t)
  {
    hide LicenseOf, LiveSubscription;
    if e.Redeem? {
      var q := s.requests[e.r];
      if q.user != user {
        ClaimLeavesOthers(s.books, q.user, q.plan, q.key, e.now, user, t);
      } else if Claim(s.books, q.user, q.plan, q.key, e.now).1 != Activated {
        LosersChangeNothing(s.books, q.user, q.plan, q.key, e.now);
      }
      hide Claim;
    }
  }
}
