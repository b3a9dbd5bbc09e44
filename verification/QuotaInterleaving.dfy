/** One quota counter under any interleaving of any number of transactions, with lost replies, Redis
    errors, evicted keys and actions that straddle the window boundary. */
module QuotaInterleaving {
  import opened Wrappers
  import opened QuotaService

  /** `granted`: units this transaction may still commit; `owed`: those not yet written to its row;
      `doomed`: it has released after a failure, so it can only roll back; `seed`: a row value it read
      and has not yet offered to Redis. */
  datatype Txn = Txn(live: bool, granted: nat, owed: nat, doomed: bool, seed: Option<int>)

  const FRESH: Txn := Txn(true, 0, 0, false, None)
  const DONE: Txn := Txn(false, 0, 0, false, None)

  /** `writer` holds the row lock and `draft` is the row value only it can see. */
  datatype State = State(redis: Counter, committed: int, txns: seq<Txn>, writer: Option<nat>, draft: int)

  datatype Event =
    | Begin
    | Evaluate(t: nat, amount: nat, limit: int)      // the consume script, answered
    | EvaluateLost(t: nat, amount: nat, limit: int)  // it ran, but the reply never arrived
    | ReadRow(t: nat)                                // seeding, first half
    | SetIfMissing(t: nat)                           // seeding, second half
    | WriteRow(t: nat, amount: nat)                  // the upsert of granted units
    | ConsumeRow(t: nat, amount: nat, limit: int)    // the row-locked path after a Redis error
    | Release(t: nat, amount: nat, reaches: bool)    // the release script, or its failure
    | UnwriteRow(t: nat, amount: nat)                // the upsert of a release
    | Commit(t: nat)
    | Rollback(t: nat)
    | LoseKey                                        // eviction, expiry or a flush
    | WriteForeign(t: nat, amount: nat)              // units granted in the previous window, written here
    | ReleaseForeign(t: nat, amount: nat)            // units of the previous window, released here

  function Row(s: State, t: nat): int {
    if s.writer == Some(t) then s.draft else s.committed
  }

  predicate CanWrite(s: State, t: nat) {
    s.writer == None || s.writer == Some(t)
  }

  predicate Running(s: State, t: nat) {
    t < |s.txns| && s.txns[t].live && !s.txns[t].doomed
  }

  predicate Enabled(s: State, e: Event) {
    match e
    case Begin | LoseKey => true
    case Evaluate(t, _, _) => Running(s, t)
    case EvaluateLost(t, _, _) => Running(s, t)
    case ReadRow(t) => Running(s, t)
    case SetIfMissing(t) => Running(s, t) && s.txns[t].seed.Some?
    case WriteRow(t, amount) => Running(s, t) && CanWrite(s, t) && amount <= s.txns[t].owed
    case ConsumeRow(t, _, _) => Running(s, t) && CanWrite(s, t)
    case Release(t, amount, _) => t < |s.txns| && s.txns[t].live && amount <= s.txns[t].granted - s.txns[t].owed
    case UnwriteRow(t, _) => t < |s.txns| && s.txns[t].live && s.txns[t].doomed && CanWrite(s, t)
    case Commit(t) => Running(s, t)
    case Rollback(t) => t < |s.txns| && s.txns[t].live
    case WriteForeign(t, _) => Running(s, t) && CanWrite(s, t)
    case ReleaseForeign(t, _) => t < |s.txns| && s.txns[t].live
  }

  function Written(s: State, t: nat, row: int): State {
    s.(writer := Some(t), draft := row)
  }

  function WithTxn(s: State, t: nat, x: Txn): State
    requires t < |s.txns|
  {
    s.(txns := s.txns[t := x])
  }

  function Ended(s: State, t: nat): State
    requires t < |s.txns|
  {
    WithTxn(s.(writer := if s.writer == Some(t) then None else s.writer), t, DONE)
  }

  function Step(s: State, e: Event): State
    requires Enabled(s, e)
  {
    match e
    case Begin => s.(txns := s.txns + [FRESH])
    case Evaluate(t, amount, limit) =>
      var (counter, reply) := ConsumeScript(s.redis, limit, amount);
      var x := s.txns[t];
      if reply.Granted? then
        WithTxn(s.(redis := counter), t, x.(granted := x.granted + amount, owed := x.owed + amount))
      else s
    case EvaluateLost(t, amount, limit) => s.(redis := ConsumeScript(s.redis, limit, amount).0)
    case ReadRow(t) => WithTxn(s, t, s.txns[t].(seed := Some(Row(s, t))))
    case SetIfMissing(t) =>
      WithTxn(s.(redis := if s.redis.None? then s.txns[t].seed else s.redis), t, s.txns[t].(seed := None))
    case WriteRow(t, amount) =>
      WithTxn(Written(s, t, Max(Row(s, t) + amount, 0)), t, s.txns[t].(owed := s.txns[t].owed - amount))
    case ConsumeRow(t, amount, limit) =>
      if RowRefuses(Row(s, t), limit, amount) then Written(s, t, Row(s, t))
      else WithTxn(Written(s, t, Row(s, t) + amount), t, s.txns[t].(granted := s.txns[t].granted + amount))
    case Release(t, amount, reaches) =>
      WithTxn(s.(redis := if reaches then ReleaseScript(s.redis, amount) else s.redis), t,
              s.txns[t].(granted := s.txns[t].granted - amount, doomed := true, seed := None))
    case UnwriteRow(t, amount) => Written(s, t, Max(Row(s, t) - amount, 0))
    case Commit(t) => Ended(s.(committed := Row(s, t)), t)
    case Rollback(t) => Ended(s, t)
    case LoseKey => s.(redis := None)
    case WriteForeign(t, amount) =>
      WithTxn(Written(s, t, Max(Row(s, t) + amount, 0)), t, s.txns[t].(granted := s.txns[t].granted + amount))
    case ReleaseForeign(t, amount) =>
      WithTxn(s.(redis := ReleaseScript(s.redis, amount)), t, s.txns[t].(doomed := true, seed := None))
  }

  predicate IsRun(s: State, events: seq<Event>)
    decreases |events|
  {
    events == [] || (Enabled(s, events[0]) && IsRun(Step(s, events[0]), events[1..]))
  }

  function Run(s: State, events: seq<Event>): State
    requires IsRun(s, events)
    decreases |events|
  {
    if events == [] then s else Run(Step(s, events[0]), events[1..])
  }

  // ---- what the strict limit can be exceeded by ----

  function Reserved(txns: seq<Txn>): nat {
    if txns == [] then 0 else Reserved(txns[..|txns| - 1]) + txns[|txns| - 1].granted
  }

  /** What each transaction stands to add behind the gate's back if the key is lost now. */
  function Unseen(txns: seq<Txn>, committed: int): nat {
    if txns == [] then 0
    else
      var last := txns[|txns| - 1];
      Unseen(txns[..|txns| - 1], committed) + last.granted
        + if last.seed.Some? then Max(committed - last.seed.value, 0) else 0
  }

  /** The units an event lets past the Redis gate. */
  function Debt(s: State, e: Event): nat
    requires Enabled(s, e)
  {
    match e
    case ConsumeRow(t, amount, limit) => if RowRefuses(Row(s, t), limit, amount) then 0 else amount
    case LoseKey => Unseen(s.txns, s.committed)
    case WriteForeign(_, amount) => amount
    case ReleaseForeign(_, amount) => amount
    case _ => 0
  }

  function TotalDebt(s: State, events: seq<Event>): nat
    requires IsRun(s, events)
    decreases |events|
  {
    if events == [] then 0 else Debt(s, events[0]) + TotalDebt(Step(s, events[0]), events[1..])
  }

  /** Every reservation is asked under some limit between 0 and the cap. */
  predicate AskedWithin(e: Event, cap: int) {
    match e
    case Evaluate(_, _, limit) => 0 <= limit <= cap
    case EvaluateLost(_, _, limit) => 0 <= limit <= cap
    case ConsumeRow(_, _, limit) => 0 <= limit <= cap
    case _ => true
  }

  /** The counter, if present, covers committed usage and uncommitted reservations up to the debt; while
      it is missing, so does every row value on its way to become the counter. */
  ghost predicate Covered(s: State, debt: nat) {
    && (s.redis.Some? ==> s.committed + Reserved(s.txns) <= s.redis.value + debt)
    && (s.redis.None? ==> Reserved(s.txns) <= debt)
    && (s.redis.None? ==> forall t :: 0 <= t < |s.txns| && s.txns[t].seed.Some? ==>
          s.committed + Reserved(s.txns) <= s.txns[t].seed.value + debt)
  }

  ghost predicate TxnsWellFormed(s: State) {
    forall t :: 0 <= t < |s.txns| ==> s.txns[t].owed <= s.txns[t].granted && (!s.txns[t].live ==> s.txns[t] == DONE)
  }

  predicate WriterWellFormed(s: State) {
    s.writer.Some? ==>
      && s.writer.value < |s.txns| && s.txns[s.writer.value].live
      && (!s.txns[s.writer.value].doomed ==>
            0 <= s.draft - s.committed <= s.txns[s.writer.value].granted - s.txns[s.writer.value].owed)
  }

  ghost predicate WellFormed(s: State) {
    TxnsWellFormed(s) && WriterWellFormed(s) && s.committed >= 0
  }

  ghost predicate Inv(s: State, cap: int, debt: nat) {
    WellFormed(s) && Covered(s, debt) && s.committed + Reserved(s.txns) <= cap + debt
  }

  // ---- sums over transactions ----

  lemma {:induction false} ReservedUpdate(txns: seq<Txn>, t: nat, x: Txn)
    requires t < |txns|
    ensures Reserved(txns[t := x]) == Reserved(txns) - txns[t].granted + x.granted
    decreases |txns|
  {
    var n := |txns| - 1;
    if t < n {
      ReservedUpdate(txns[..n], t, x);
      assert txns[t := x][..n] == txns[..n][t := x];
    } else {
      assert txns[t := x][..n] == txns[..n];
    }
  }

  lemma {:induction false} ReservedIncludes(txns: seq<Txn>, t: nat)
    requires t < |txns|
    ensures Reserved(txns) >= txns[t].granted
    decreases |txns|
  {
    if t < |txns| - 1 {
      ReservedIncludes(txns[..|txns| - 1], t);
    }
  }

  lemma {:induction false} UnseenCovers(txns: seq<Txn>, committed: int)
    ensures Unseen(txns, committed) >= Reserved(txns)
    ensures forall t :: 0 <= t < |txns| && txns[t].seed.Some? ==>
              Unseen(txns, committed) >= Reserved(txns) + committed - txns[t].seed.value
    decreases |txns|
  {
    if txns != [] {
      UnseenCovers(txns[..|txns| - 1], committed);
    }
  }

  lemma {:induction false} NothingUnseenWhenIdle(txns: seq<Txn>, committed: int)
    requires forall t :: 0 <= t < |txns| ==> txns[t] == DONE
    ensures Unseen(txns, committed) == 0
    decreases |txns|
  {
    if txns != [] {
      NothingUnseenWhenIdle(txns[..|txns| - 1], committed);
    }
  }

  // ---- every step keeps the invariant, at the price of its debt ----

  lemma TxnStep(s: State, t: nat, x: Txn)
    requires t < |s.txns|
    ensures Reserved(WithTxn(s, t, x).txns) == Reserved(s.txns) - s.txns[t].granted + x.granted
    ensures Reserved(s.txns) >= s.txns[t].granted
  {
    ReservedUpdate(s.txns, t, x);
    ReservedIncludes(s.txns, t);
  }

  lemma StepChangesOne(s: State, e: Event)
    requires Enabled(s, e) && !e.Begin? && !e.LoseKey?
    ensures Step(s, e).txns == s.txns[e.t := Step(s, e).txns[e.t]]
  {}

  lemma StepKeepsWellFormed(s: State, e: Event)
    requires WellFormed(s) && Enabled(s, e)
    ensures WellFormed(Step(s, e))
  {
    TxnsStayWellFormed(s, e);
    WriterStaysWellFormed(s, e);
    hide TxnsWellFormed;
  }

  lemma TxnsStayWellFormed(s: State, e: Event)
    requires WellFormed(s) && Enabled(s, e)
    ensures TxnsWellFormed(Step(s, e))
  {
    hide WriterWellFormed;
    if !e.Begin? && !e.LoseKey? {
      StepChangesOne(s, e);
      var x := Step(s, e).txns[e.t];
      assert x.owed <= x.granted && (!x.live ==> x == DONE);
      hide Step, Enabled;
    }
  }

  lemma WriterStaysWellFormed(s: State, e: Event)
    requires WellFormed(s) && Enabled(s, e)
    ensures WriterWellFormed(Step(s, e))
  {}

  ghost predicate Kept(s: State, cap: int, debt: nat) {
    Covered(s, debt) && s.committed + Reserved(s.txns) <= cap + debt
  }

  lemma GateStepKeeps(s: State, e: Event, cap: int, debt: nat)
    requires Inv(s, cap, debt) && Enabled(s, e) && AskedWithin(e, cap)
    requires e.Evaluate? || e.EvaluateLost? || e.Release? || e.ReleaseForeign?
    ensures Kept(Step(s, e), cap, debt + Debt(s, e))
  {
    hide Reserved;
    hide Unseen;
    match e
    case Evaluate(t, amount, limit) =>
      TxnStep(s, t, s.txns[t].(granted := s.txns[t].granted + amount, owed := s.txns[t].owed + amount));
    case EvaluateLost(_, _, _) =>
    case Release(t, amount, _) =>
      TxnStep(s, t, s.txns[t].(granted := s.txns[t].granted - amount, doomed := true, seed := None));
    case ReleaseForeign(t, _) => TxnStep(s, t, s.txns[t].(doomed := true, seed := None));
  }

  lemma KeyStepKeeps(s: State, e: Event, cap: int, debt: nat)
    requires Inv(s, cap, debt) && Enabled(s, e)
    requires e.Begin? || e.LoseKey? || e.ReadRow? || e.SetIfMissing?
    ensures Kept(Step(s, e), cap, debt + Debt(s, e))
  {
    match e
    case Begin =>
      assert Step(s, e).txns[..|s.txns|] == s.txns;
    case LoseKey =>
      UnseenCovers(s.txns, s.committed);
    case ReadRow(t) =>
      hide Reserved;
      TxnStep(s, t, s.txns[t].(seed := Some(Row(s, t))));
    case SetIfMissing(t) =>
      hide Reserved;
      TxnStep(s, t, s.txns[t].(seed := None));
  }

  lemma WriteStepKeeps(s: State, e: Event, cap: int, debt: nat)
    requires Inv(s, cap, debt) && Enabled(s, e)
    requires e.WriteRow? || e.ConsumeRow? || e.UnwriteRow? || e.WriteForeign?
    ensures Kept(Step(s, e), cap, debt + Debt(s, e))
  {
    hide Reserved;
    hide Unseen;
    match e
    case WriteRow(t, amount) => TxnStep(s, t, s.txns[t].(owed := s.txns[t].owed - amount));
    case ConsumeRow(t, amount, _) => TxnStep(s, t, s.txns[t].(granted := s.txns[t].granted + amount));
    case UnwriteRow(_, _) =>
    case WriteForeign(t, amount) => TxnStep(s, t, s.txns[t].(granted := s.txns[t].granted + amount));
  }

  lemma EndStepKeeps(s: State, e: Event, cap: int, debt: nat)
    requires Inv(s, cap, debt) && Enabled(s, e)
    requires e.Commit? || e.Rollback?
    ensures Kept(Step(s, e), cap, debt + Debt(s, e))
  {
    hide Reserved;
    hide Unseen;
    TxnStep(s, e.t, DONE);
  }

  lemma StepKeepsInv(s: State, e: Event, cap: int, debt: nat)
    requires Inv(s, cap, debt) && Enabled(s, e) && AskedWithin(e, cap)
    ensures Inv(Step(s, e), cap, debt + Debt(s, e))
  {
    hide Reserved;
    hide Unseen;
    hide Covered;
    StepKeepsWellFormed(s, e);
    if e.Evaluate? || e.EvaluateLost? || e.Release? || e.ReleaseForeign? {
      GateStepKeeps(s, e, cap, debt);
    } else if e.Begin? || e.LoseKey? || e.ReadRow? || e.SetIfMissing? {
      KeyStepKeeps(s, e, cap, debt);
    } else if e.Commit? || e.Rollback? {
      EndStepKeeps(s, e, cap, debt);
    } else {
      WriteStepKeeps(s, e, cap, debt);
    }
  }

  // ---- safety over whole runs ----

  function Idle(used: int): State {
    State(None, used, [], None, 0)
  }

  lemma {:induction false} RunKeepsInv(s: State, events: seq<Event>, cap: int, debt: nat)
    requires Inv(s, cap, debt) && IsRun(s, events)
    requires forall e :: e in events ==> AskedWithin(e, cap)
    ensures Inv(Run(s, events), cap, debt + TotalDebt(s, events))
    decreases |events|
  {
    if events != [] {
      StepKeepsInv(s, events[0], cap, debt);
      RunKeepsInv(Step(s, events[0]), events[1..], cap, debt + Debt(s, events[0]));
    }
  }

  /** In every interleaving, committed usage plus everything still reserved stays within the limit plus
      the units let past the gate by the row-locked path, by losing the key in flight, and by actions
      that straddle the window; a present counter is behind by no more than that either. */
  lemma UsageStaysWithinLimitPlusDebt(used: nat, events: seq<Event>, limit: int)
    requires used <= limit && IsRun(Idle(used), events)
    requires forall e :: e in events ==> AskedWithin(e, limit)
    ensures var s, debt := Run(Idle(used), events), TotalDebt(Idle(used), events);
            && s.committed + Reserved(s.txns) <= limit + debt
            && (s.redis.Some? ==> s.redis.value + debt >= s.committed + Reserved(s.txns))
  {
    RunKeepsInv(Idle(used), events, limit, 0);
  }

  predicate RedisAlwaysAnswers(e: Event) {
    !e.ConsumeRow? && !e.WriteForeign? && !e.ReleaseForeign?
  }

  /** The key is only ever lost between transactions. */
  predicate KeyLostOnlyWhenIdle(s: State, events: seq<Event>)
    requires IsRun(s, events)
    decreases |events|
  {
    events == [] ||
    ((events[0].LoseKey? ==> forall t :: 0 <= t < |s.txns| ==> s.txns[t] == DONE)
     && KeyLostOnlyWhenIdle(Step(s, events[0]), events[1..]))
  }

  lemma {:induction false} NoDebt(s: State, events: seq<Event>)
    requires IsRun(s, events) && KeyLostOnlyWhenIdle(s, events)
    requires forall e :: e in events ==> RedisAlwaysAnswers(e)
    ensures TotalDebt(s, events) == 0
    decreases |events|
  {
    if events != [] {
      NoDebt(Step(s, events[0]), events[1..]);
      assert RedisAlwaysAnswers(events[0]);
      if events[0].LoseKey? {
        NothingUnseenWhenIdle(s.txns, s.committed);
      }
    }
  }

  /** The strict promise: with Redis answering, no key lost in flight and no straddling action, no
      interleaving commits more than the limit, and a present counter covers what is committed and reserved. */
  lemma NeverPastTheLimit(used: nat, events: seq<Event>, limit: int)
    requires used <= limit && IsRun(Idle(used), events) && KeyLostOnlyWhenIdle(Idle(used), events)
    requires forall e :: e in events ==> AskedWithin(e, limit) && RedisAlwaysAnswers(e)
    ensures var s := Run(Idle(used), events);
            && s.committed + Reserved(s.txns) <= limit
            && (s.redis.Some? ==> s.redis.value >= s.committed + Reserved(s.txns))
  {
    NoDebt(Idle(used), events);
    UsageStaysWithinLimitPlusDebt(used, events, limit);
  }

  function RowPathUnits(s: State, events: seq<Event>): nat
    requires IsRun(s, events)
    decreases |events|
  {
    if events == [] then 0
    else (if events[0].ConsumeRow? then Debt(s, events[0]) else 0) + RowPathUnits(Step(s, events[0]), events[1..])
  }

  /** With Redis errors but a surviving key, the excess is at most what the row-locked path granted. */
  lemma {:induction false} OnlyRowPathDebt(s: State, events: seq<Event>)
    requires IsRun(s, events)
    requires forall e :: e in events ==> !e.LoseKey? && !e.WriteForeign? && !e.ReleaseForeign?
    ensures TotalDebt(s, events) == RowPathUnits(s, events)
    decreases |events|
  {
    if events != [] {
      OnlyRowPathDebt(Step(s, events[0]), events[1..]);
    }
  }

  lemma RedisErrorsCostRowPathUnits(used: nat, events: seq<Event>, limit: int)
    requires used <= limit && IsRun(Idle(used), events)
    requires forall e :: e in events ==> AskedWithin(e, limit) && !e.LoseKey? && !e.WriteForeign? && !e.ReleaseForeign?
    ensures var s := Run(Idle(used), events);
            s.committed + Reserved(s.txns) <= limit + RowPathUnits(Idle(used), events)
  {
    OnlyRowPathDebt(Idle(used), events);
    UsageStaysWithinLimitPlusDebt(used, events, limit);
  }

  // ---- the debts are real ----

  /** One unit allowed: a reservation through Redis, then a Redis error sends a second request down the
      row-locked path, which cannot see the first. Both commit. */
  function ErrorRun(): seq<Event> {
    [Begin, ReadRow(0), SetIfMissing(0), Evaluate(0, 1, 1),
     Begin, ConsumeRow(1, 1, 1), Commit(1),
     WriteRow(0, 1), Commit(0)]
  }

  function ErrorState(i: nat): State {
    var seeding, granted := FRESH.(seed := Some(0)), FRESH.(granted := 1, owed := 1);
    match i
    case 0 => Idle(0)
    case 1 => State(None, 0, [FRESH], None, 0)
    case 2 => State(None, 0, [seeding], None, 0)
    case 3 => State(Some(0), 0, [FRESH], None, 0)
    case 4 => State(Some(1), 0, [granted], None, 0)
    case 5 => State(Some(1), 0, [granted, FRESH], None, 0)
    case 6 => State(Some(1), 0, [granted, FRESH.(granted := 1)], Some(1), 1)
    case 7 => State(Some(1), 1, [granted, DONE], None, 1)
    case 8 => State(Some(1), 1, [FRESH.(granted := 1), DONE], Some(0), 2)
    case _ => State(Some(1), 2, [DONE, DONE], None, 2)
  }

  lemma ErrorStep(i: nat)
    requires i < 9
    ensures Enabled(ErrorState(i), ErrorRun()[i]) && Step(ErrorState(i), ErrorRun()[i]) == ErrorState(i + 1)
  {
    match i
    case 0 | 1 | 2 | 3 | 4 | 5 | 6 | 7 | 8 =>
  }

  lemma {:induction false} ErrorRunFrom(i: nat)
    requires i <= 9
    ensures IsRun(ErrorState(i), ErrorRun()[i..]) && Run(ErrorState(i), ErrorRun()[i..]) == ErrorState(9)
    decreases 9 - i
  {
    hide ErrorState, Step, Enabled;
    if i == 9 {
      RunOfNothing(ErrorState(9));
    } else {
      ErrorStep(i);
      ErrorRunFrom(i + 1);
      RunFromAt(ErrorState(i), ErrorRun(), i);
    }
  }

  lemma RowPathCanPassTheLimit()
    ensures IsRun(Idle(0), ErrorRun()) && Run(Idle(0), ErrorRun()).committed == 2
  {
    hide IsRun, Run;
    ErrorRunFrom(0);
    assert ErrorRun()[0..] == ErrorRun();
  }

  lemma RunFromAt(s: State, events: seq<Event>, i: nat)
    requires i < |events| && Enabled(s, events[i])
    ensures IsRun(s, events[i..]) <==> IsRun(Step(s, events[i]), events[i + 1..])
    ensures IsRun(s, events[i..]) ==> Run(s, events[i..]) == Run(Step(s, events[i]), events[i + 1..])
  {
    assert events[i..][1..] == events[i + 1..];
  }

  // ---- exactly when a grant stays within the limit ----

  /** A transaction that has not failed has in its row everything it was granted and does not still owe. */
  predicate RowTells(s: State, t: nat)
    requires t < |s.txns|
  {
    s.txns[t].live && !s.txns[t].doomed ==>
      && s.txns[t].granted == s.txns[t].owed + (if s.writer == Some(t) then s.draft - s.committed else 0)
      && s.txns[t].owed <= s.txns[t].granted
  }

  ghost predicate RowsTell(s: State) {
    && s.committed >= 0
    && (s.writer.Some? ==> s.writer.value < |s.txns|)
    && forall t :: 0 <= t < |s.txns| ==> RowTells(s, t)
  }

  lemma StepKeepsRowsTell(s: State, e: Event)
    requires WellFormed(s) && RowsTell(s) && Enabled(s, e)
    ensures RowsTell(Step(s, e))
  {
    StepKeepsWellFormed(s, e);
    forall t: nat | t < |Step(s, e).txns| ensures RowTells(Step(s, e), t) {
      StepKeepsRowTells(s, e, t);
    }
  }

  lemma StepKeepsRowTells(s: State, e: Event, t: nat)
    requires WellFormed(s) && RowsTell(s) && Enabled(s, e) && t < |Step(s, e).txns|
    ensures RowTells(Step(s, e), t)
  {
    assert t < |s.txns| ==> RowTells(s, t);
    assert s.writer.Some? ==> RowTells(s, s.writer.value);
    hide RowsTell;
  }

  lemma {:induction false} RunKeepsRowsTell(s: State, events: seq<Event>)
    requires WellFormed(s) && RowsTell(s) && IsRun(s, events)
    ensures WellFormed(Run(s, events)) && RowsTell(Run(s, events))
    decreases |events|
  {
    hide RowsTell, WellFormed;
    if events != [] {
      StepKeepsWellFormed(s, events[0]);
      StepKeepsRowsTell(s, events[0]);
      RunKeepsRowsTell(Step(s, events[0]), events[1..]);
    }
  }

  /** Committed usage and everything that may still be committed. */
  function Held(s: State): int {
    s.committed + Reserved(s.txns)
  }

  /** What the other transactions hold that t's row does not show. */
  function HeldByOthers(s: State, t: nat): int
    requires t < |s.txns|
  {
    Reserved(s.txns) - s.txns[t].granted
  }

  /** The row-locked path checks its own row. What it grants stays within the limit exactly when the row leaves
      room for what others hold and for what t itself has not written yet, too. */
  lemma RowGrantFitsExactlyWhen(s: State, t: nat, amount: nat, limit: int)
    requires RowsTell(s) && Enabled(s, ConsumeRow(t, amount, limit)) && !RowRefuses(Row(s, t), limit, amount)
    ensures Held(Step(s, ConsumeRow(t, amount, limit))) <= limit <==>
              Row(s, t) + s.txns[t].owed + HeldByOthers(s, t) + amount <= limit
  {
    assert RowTells(s, t);
    ReservedUpdate(s.txns, t, s.txns[t].(granted := s.txns[t].granted + amount));
  }

  predicate Overshoots(s: State, e: Event, limit: int)
    requires Enabled(s, e)
  {
    Held(Step(s, e)) > limit && Held(Step(s, e)) > Held(s)
  }

  lemma RowStepHolds(s: State, t: nat, amount: nat, limit: int)
    requires Enabled(s, ConsumeRow(t, amount, limit))
    ensures Held(Step(s, ConsumeRow(t, amount, limit))) == Held(s) + if RowRefuses(Row(s, t), limit, amount) then 0
          else amount
  {
    ReservedUpdate(s.txns, t, s.txns[t].(granted := s.txns[t].granted + amount));
  }

  lemma ScriptStepHolds(s: State, t: nat, amount: nat, limit: int)
    requires Enabled(s, Evaluate(t, amount, limit))
    ensures Held(Step(s, Evaluate(t, amount, limit)))
         == Held(s) + if ConsumeScript(s.redis, limit, amount).1.Granted? then amount else 0
  {
    ReservedUpdate(s.txns, t, s.txns[t].(granted := s.txns[t].granted + amount, owed := s.txns[t].owed + amount));
  }

  /** So the row-locked path is as good as the script exactly while nothing is held outside the row. */
  lemma RowPathIsSafeExactlyWhen(s: State, t: nat, limit: nat)
    requires RowsTell(s) && Running(s, t) && CanWrite(s, t) && Row(s, t) < limit
    ensures (forall amount: nat :: amount > 0 ==> !Overshoots(s, ConsumeRow(t, amount, limit), limit))
       <==> s.txns[t].owed + HeldByOthers(s, t) <= 0
  {
    assert RowTells(s, t);
    forall amount: nat | amount > 0 && s.txns[t].owed + HeldByOthers(s, t) <= 0
      ensures !Overshoots(s, ConsumeRow(t, amount, limit), limit)
    {
      RowStepHolds(s, t, amount, limit);
    }
    var most: nat := limit - Row(s, t);
    RowStepHolds(s, t, most, limit);
    if s.txns[t].owed + HeldByOthers(s, t) > 0 {
      assert Overshoots(s, ConsumeRow(t, most, limit), limit);
    }
  }

  /** And the script is safe exactly while the counter covers what is committed and held, or is so far on that
      it grants nothing. */
  lemma ScriptIsSafeExactlyWhen(s: State, t: nat, limit: nat)
    requires Running(s, t) && s.redis.Some?
    ensures (forall amount: nat :: amount > 0 ==> !Overshoots(s, Evaluate(t, amount, limit), limit))
       <==> Held(s) <= s.redis.value || s.redis.value >= limit
  {
    forall amount: nat | amount > 0 && (Held(s) <= s.redis.value || s.redis.value >= limit)
      ensures !Overshoots(s, Evaluate(t, amount, limit), limit)
    {
      ScriptStepHolds(s, t, amount, limit);
    }
    if s.redis.value < Held(s) && s.redis.value < limit {
      var most: nat := limit - s.redis.value;
      ScriptStepHolds(s, t, most, limit);
      assert Overshoots(s, Evaluate(t, most, limit), limit);
    }
  }

  /** A grant of the row-locked path leaves a surviving counter covering exactly when it was that far ahead. */
  lemma RowGrantKeepsCoverExactlyWhen(s: State, t: nat, amount: nat, limit: int)
    requires Enabled(s, ConsumeRow(t, amount, limit)) && !RowRefuses(Row(s, t), limit, amount) && s.redis.Some?
    ensures var after := Step(s, ConsumeRow(t, amount, limit));
            after.redis.Some? && (Held(after) <= after.redis.value <==> Held(s) + amount <= s.redis.value)
  {
    ReservedUpdate(s.txns, t, s.txns[t].(granted := s.txns[t].granted + amount));
  }

  /** Whether what the event grants, on whatever path, leaves the limit room for everything held. */
  predicate Fits(s: State, e: Event, limit: int)
    requires Enabled(s, e)
  {
    match e
    case Evaluate(t, amount, asked) => ConsumeScript(s.redis, asked, amount).1.Granted? ==> Held(s) + amount <= limit
    case ConsumeRow(t, amount, asked) => !RowRefuses(Row(s, t), asked, amount) ==>
          Row(s, t) + s.txns[t].owed + HeldByOthers(s, t) + amount <= limit
    case WriteForeign(t, amount) => Held(s) + amount <= limit
    case _ => true
  }

  predicate FitsThroughout(s: State, events: seq<Event>, limit: int)
    requires IsRun(s, events)
    decreases |events|
  {
    events == [] || (Fits(s, events[0], limit) && FitsThroughout(Step(s, events[0]), events[1..], limit))
  }

  predicate WithinThroughout(s: State, events: seq<Event>, limit: int)
    requires IsRun(s, events)
    decreases |events|
  {
    Held(s) <= limit && (events == [] || WithinThroughout(Step(s, events[0]), events[1..], limit))
  }

  lemma RowGrantStepFits(s: State, e: Event, limit: int)
    requires RowsTell(s) && Enabled(s, e) && Held(s) <= limit && e.ConsumeRow?
    ensures Held(Step(s, e)) <= limit <==> Fits(s, e, limit)
  {
    assert RowTells(s, e.t);
    hide RowsTell;
    ReservedUpdate(s.txns, e.t, s.txns[e.t].(granted := s.txns[e.t].granted + e.amount));
  }

  lemma EndStepFits(s: State, e: Event, limit: int)
    requires WellFormed(s) && Enabled(s, e) && Held(s) <= limit && (e.Commit? || e.Rollback?)
    ensures Held(Step(s, e)) <= limit
  {
    hide Reserved;
    ReservedUpdate(s.txns, e.t, DONE);
    ReservedIncludes(s.txns, e.t);
  }

  /** What an event other than a row grant and an end adds to what is held. */
  function Added(s: State, e: Event): int {
    match e
    case Evaluate(_, amount, asked) => if ConsumeScript(s.redis, asked, amount).1.Granted? then amount else 0
    case WriteForeign(_, amount) => amount
    case Release(_, amount, _) => 0 - amount
    case _ => 0
  }

  lemma OtherStepHolds(s: State, e: Event)
    requires Enabled(s, e) && !e.ConsumeRow? && !e.Commit? && !e.Rollback?
    ensures Held(Step(s, e)) == Held(s) + Added(s, e)
  {
    if e.Begin? {
      assert (s.txns + [FRESH])[..|s.txns|] == s.txns;
    } else if !e.LoseKey? {
      hide Reserved;
      ReservedUpdate(s.txns, e.t, Step(s, e).txns[e.t]);
      StepChangesOne(s, e);
    }
  }

  lemma StepFitsExactlyWhen(s: State, e: Event, limit: int)
    requires WellFormed(s) && RowsTell(s) && Enabled(s, e) && Held(s) <= limit
    ensures Held(Step(s, e)) <= limit <==> Fits(s, e, limit)
  {
    hide WellFormed, RowsTell, Held, Step;
    if e.ConsumeRow? {
      RowGrantStepFits(s, e, limit);
    } else if e.Commit? || e.Rollback? {
      EndStepFits(s, e, limit);
    } else {
      OtherStepHolds(s, e);
    }
  }

  /** Over any run, with errors, lost keys and straddling actions, usage and reservations stay within the limit at
      every point exactly when every grant fits at the time it is made. */
  lemma {:induction false} RunStaysWithinExactlyWhen(s: State, events: seq<Event>, limit: int)
    requires WellFormed(s) && RowsTell(s) && IsRun(s, events) && Held(s) <= limit
    ensures WithinThroughout(s, events, limit) <==> FitsThroughout(s, events, limit)
    decreases |events|
  {
    hide WellFormed, RowsTell, Fits, Held;
    if events != [] {
      StepKeepsWellFormed(s, events[0]);
      StepKeepsRowsTell(s, events[0]);
      StepFitsExactlyWhen(s, events[0], limit);
      if Held(Step(s, events[0])) <= limit {
        RunStaysWithinExactlyWhen(Step(s, events[0]), events[1..], limit);
      }
    }
  }

  lemma RunFrom(s: State, events: seq<Event>)
    requires events != [] && Enabled(s, events[0])
    ensures IsRun(s, events) <==> IsRun(Step(s, events[0]), events[1..])
    ensures IsRun(s, events) ==> Run(s, events) == Run(Step(s, events[0]), events[1..])
  {}

  lemma RunOfNothing(s: State)
    ensures IsRun(s, []) && Run(s, []) == s
  {}

  // ---- the serial gate is this gate ----

  /** The events of one consume whose Redis calls all get through, up to its row write. */
  function ConsumeEvents(s: State, t: nat, amount: nat, limit: int): seq<Event> {
    var asked := if s.redis.Some? then [Evaluate(t, amount, limit)]
                 else [Evaluate(t, amount, limit), ReadRow(t), SetIfMissing(t), Evaluate(t, amount, limit)];
    var standing := if s.redis.Some? then s.redis.value else Row(s, t);
    if limit >= 0 && standing + amount > limit then asked else asked + [WriteRow(t, amount)]
  }

  function View(s: State, t: nat, key: string): Store {
    Store(if s.redis.Some? then map[key := s.redis.value] else map[], map[key := Row(s, t)])
  }

  ghost predicate ConsumeAgrees(s: State, s': State, t: nat, amount: nat, limit: int, key: string) {
    var (after, r) := Consumed(View(s, t, key), key, limit, amount, CLEAR);
    && t < |s.txns| == |s'.txns| && View(s', t, key) == after
    && s'.txns[t].granted == s.txns[t].granted + (if r.Ok? then amount else 0)
  }

  lemma ConsumedWhenClear(s: Store, key: string, limit: int, amount: int)
    ensures Consumed(s, key, limit, amount, CLEAR) ==
              if limit >= 0 && Standing(s, key) + amount > limit then
                (s.(redis := s.redis[key := Standing(s, key)]), Err(LimitReached(limit, Standing(s, key))))
              else
                (Store(s.redis[key := Standing(s, key) + amount], Upserted(s.rows, key, amount)),
                      Ok(Standing(s, key) + amount))
  {}

  lemma GrantedSteps(s: State, t: nat, amount: nat, limit: int) returns (s1: State, s2: State)
    requires WellFormed(s) && Running(s, t) && CanWrite(s, t) && s.txns[t].owed == 0 && s.redis.Some?
    requires limit < 0 || s.redis.value + amount <= limit
    ensures Enabled(s, Evaluate(t, amount, limit)) && s1 == Step(s, Evaluate(t, amount, limit))
    ensures Enabled(s1, WriteRow(t, amount)) && s2 == Step(s1, WriteRow(t, amount))
    ensures |s2.txns| == |s.txns| && s2.txns[t].granted == s.txns[t].granted + amount
    ensures s2.redis == Some(s.redis.value + amount) && Row(s2, t) == Max(Row(s, t) + amount, 0)
  {
    s1 := Step(s, Evaluate(t, amount, limit));
    s2 := Step(s1, WriteRow(t, amount));
  }

  lemma DeniedStep(s: State, t: nat, amount: nat, limit: int)
    requires Running(s, t) && (s.redis.Some? ==> limit >= 0 && s.redis.value + amount > limit)
    ensures Enabled(s, Evaluate(t, amount, limit)) && Step(s, Evaluate(t, amount, limit)) == s
  {}

  lemma RefusedConsumeIsARun(s: State, t: nat, amount: nat, limit: int, key: string)
    requires WellFormed(s) && Running(s, t) && CanWrite(s, t) && s.redis.Some? && limit >= 0
          && s.redis.value + amount > limit
    ensures IsRun(s, ConsumeEvents(s, t, amount, limit))
    ensures ConsumeAgrees(s, Run(s, ConsumeEvents(s, t, amount, limit)), t, amount, limit, key)
  {
    hide IsRun, Run, Consumed, WellFormed;
    var events := ConsumeEvents(s, t, amount, limit);
    ConsumedWhenClear(View(s, t, key), key, limit, amount);
    DeniedStep(s, t, amount, limit);
    RunFrom(s, events);
    RunOfNothing(s);
    assert events[1..] == [];
  }

  lemma GrantedConsumeIsARun(s: State, t: nat, amount: nat, limit: int, key: string)
    requires WellFormed(s) && Running(s, t) && CanWrite(s, t) && s.txns[t].owed == 0 && s.redis.Some?
    requires limit < 0 || s.redis.value + amount <= limit
    ensures IsRun(s, ConsumeEvents(s, t, amount, limit))
    ensures ConsumeAgrees(s, Run(s, ConsumeEvents(s, t, amount, limit)), t, amount, limit, key)
  {
    hide IsRun, Run, Consumed;
    var events := ConsumeEvents(s, t, amount, limit);
    var s1, s2 := GrantedSteps(s, t, amount, limit);
    hide Step, Enabled, WellFormed;
    GrantAgrees(s, s2, t, amount, limit, key);
    hide ConsumeAgrees;
    assert events[1..] == [WriteRow(t, amount)] && events[1..][1..] == [];
    RunOfNothing(s2);
    RunFrom(s1, events[1..]);
    RunFrom(s, events);
  }

  lemma GrantAgrees(s: State, s2: State, t: nat, amount: nat, limit: int, key: string)
    requires t < |s.txns| == |s2.txns| && s2.txns[t].granted == s.txns[t].granted + amount
    requires s.redis.Some? && (limit < 0 || s.redis.value + amount <= limit)
    requires s2.redis == Some(s.redis.value + amount) && Row(s2, t) == Max(Row(s, t) + amount, 0)
    ensures ConsumeAgrees(s, s2, t, amount, limit, key)
  {
    hide Consumed;
    ConsumedWhenClear(View(s, t, key), key, limit, amount);
    assert View(s2, t, key) == Store(map[key := s.redis.value + amount], map[key := Max(Row(s, t) + amount, 0)]);
  }

  lemma PresentConsumeIsARun(s: State, t: nat, amount: nat, limit: int, key: string)
    requires WellFormed(s) && Running(s, t) && CanWrite(s, t) && s.txns[t].owed == 0 && s.redis.Some?
    ensures IsRun(s, ConsumeEvents(s, t, amount, limit))
    ensures ConsumeAgrees(s, Run(s, ConsumeEvents(s, t, amount, limit)), t, amount, limit, key)
  {
    hide IsRun, Run, ConsumeAgrees, WellFormed, ConsumeEvents;
    if limit >= 0 && s.redis.value + amount > limit {
      RefusedConsumeIsARun(s, t, amount, limit, key);
    } else {
      GrantedConsumeIsARun(s, t, amount, limit, key);
    }
  }

  lemma SeedSteps(s: State, t: nat) returns (s2: State, s3: State)
    requires WellFormed(s) && Running(s, t) && s.redis.None?
    ensures Enabled(s, ReadRow(t)) && s2 == Step(s, ReadRow(t))
    ensures Enabled(s2, SetIfMissing(t)) && s3 == Step(s2, SetIfMissing(t))
    ensures s3 == WithTxn(s, t, s.txns[t].(seed := None)).(redis := Some(Row(s, t)))
  {
    s2 := Step(s, ReadRow(t));
    s3 := Step(s2, SetIfMissing(t));
  }

  /** A serial consume on a healthy Redis is one run of the gate: the same counter, the same row and
      the same answer. */
  lemma ConsumeIsARun(s: State, t: nat, amount: nat, limit: int, key: string)
    requires WellFormed(s) && Running(s, t) && CanWrite(s, t) && s.txns[t].owed == 0
    ensures IsRun(s, ConsumeEvents(s, t, amount, limit))
    ensures ConsumeAgrees(s, Run(s, ConsumeEvents(s, t, amount, limit)), t, amount, limit, key)
  {
    if s.redis.Some? {
      PresentConsumeIsARun(s, t, amount, limit, key);
    } else {
      AbsentConsumeIsARun(s, t, amount, limit, key);
    }
  }

  lemma AbsentConsumeIsARun(s: State, t: nat, amount: nat, limit: int, key: string)
    requires WellFormed(s) && Running(s, t) && CanWrite(s, t) && s.txns[t].owed == 0 && s.redis.None?
    ensures IsRun(s, ConsumeEvents(s, t, amount, limit))
    ensures ConsumeAgrees(s, Run(s, ConsumeEvents(s, t, amount, limit)), t, amount, limit, key)
  {
    hide IsRun, Run, ConsumeAgrees;
    var events := ConsumeEvents(s, t, amount, limit);
    DeniedStep(s, t, amount, limit);
    var s2, s3 := SeedSteps(s, t);
    PresentConsumeIsARun(s3, t, amount, limit, key);
    hide Step, Enabled, WellFormed;
    assert events[0] == Evaluate(t, amount, limit) && events[1..][0] == ReadRow(t)
          && events[1..][1..][0] == SetIfMissing(t);
    assert events[1..][1..][1..] == ConsumeEvents(s3, t, amount, limit);
    RunFrom(s2, events[1..][1..]);
    RunFrom(s, events[1..]);
    RunFrom(s, events);
    SeedingAgrees(s, s3, Run(s, events), t, amount, limit, key);
  }

  lemma SeedingAgrees(s: State, seeded: State, s': State, t: nat, amount: nat, limit: int, key: string)
    requires t < |s.txns| && s.redis.None?
          && seeded == WithTxn(s, t, s.txns[t].(seed := None)).(redis := Some(Row(s, t)))
    requires ConsumeAgrees(seeded, s', t, amount, limit, key)
    ensures ConsumeAgrees(s, s', t, amount, limit, key)
  {
    hide Consumed;
    ConsumedWhenClear(View(s, t, key), key, limit, amount);
    ConsumedWhenClear(View(seeded, t, key), key, limit, amount);
  }

  /** With Redis down a serial consume is the one row-locked step. */
  lemma RowConsumeIsAStep(s: State, t: nat, amount: nat, limit: int, key: string)
    requires WellFormed(s) && Running(s, t) && CanWrite(s, t) && Row(s, t) >= 0
    ensures Enabled(s, ConsumeRow(t, amount, limit))
    ensures var after := Step(s, ConsumeRow(t, amount, limit));
            var (store, r) := Consumed(View(s, t, key), key, limit, amount, DOWN);
            && View(after, t, key) == store
            && after.txns[t].granted == s.txns[t].granted + if r.Ok? then amount else 0
  {}

  /** A serial release is its script, or the failure of it, and then its row write. */
  lemma ReleaseIsARun(s: State, t: nat, amount: nat, evalFails: bool, key: string)
    requires WellFormed(s) && Running(s, t) && CanWrite(s, t) && amount <= s.txns[t].granted - s.txns[t].owed
    ensures Enabled(s, Release(t, amount, !evalFails))
    ensures Enabled(Step(s, Release(t, amount, !evalFails)), UnwriteRow(t, amount))
    ensures View(Step(Step(s, Release(t, amount, !evalFails)), UnwriteRow(t, amount)), t, key)
              == Released(View(s, t, key), key, amount, evalFails)
  {}

  /** A serial consume whose script ran but whose reply was lost: the script, and then the row-locked step. */
  lemma LostReplyIsARun(s: State, t: nat, amount: nat, limit: int, key: string)
    requires WellFormed(s) && Running(s, t) && CanWrite(s, t) && Row(s, t) >= 0
    ensures Enabled(s, EvaluateLost(t, amount, limit))
    ensures Enabled(Step(s, EvaluateLost(t, amount, limit)), ConsumeRow(t, amount, limit))
    ensures View(Step(Step(s, EvaluateLost(t, amount, limit)), ConsumeRow(t, amount, limit)), t, key)
              == Consumed(View(s, t, key), key, limit, amount, DOWN.(first := ReplyLost)).0
  {}
}
