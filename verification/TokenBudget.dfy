/** The tallied AI-token budget: actions are let in while the counter is below the limit and only
    afterwards report what they cost, in any interleaving, with Redis up throughout. */
module TokenBudget {
  import opened Wrappers
  import Catalog
  import Q = QuotaService

  /** An action is in flight from the moment its check reads the counter until its transaction ends. */
  datatype Phase =
    | Checking(row: int)      // found no counter and read the durable row instead
    | Admitted
    | TallyRead(row: int)     // about to tally, found no counter and read the row
    | Tallied                 // counted in Redis, its row write not committed yet
    | Refused
    | Committed
    | RolledBack

  datatype Action = Action(phase: Phase, tokens: nat)

  datatype State = State(counter: Option<int>, row: int, actions: seq<Action>)

  datatype Event =
    | Check(limit: int)                 // the counter exists: admit or refuse on its value
    | CheckMissing                      // it does not: read the row
    | SeedCheck(t: nat, limit: int)     // set the counter unless a racer did, then decide on the row
    | ReadForTally(t: nat)
    | SeedTally(t: nat)
    | Tally(t: nat, tokens: nat)        // INCRBY on the existing counter
    | Commit(t: nat)                    // the row upsert and its commit, serialised by the row lock
    | Rollback(t: nat)

  predicate InFlight(a: Action) {
    !a.phase.Refused? && !a.phase.Committed? && !a.phase.RolledBack?
  }

  /** It may still add to the counter. */
  predicate Untallied(a: Action) {
    InFlight(a) && !a.phase.Tallied?
  }

  predicate Enabled(s: State, e: Event) {
    match e
    case Check(_) => s.counter.Some?
    case CheckMissing => s.counter.None?
    case SeedCheck(t, _) => t < |s.actions| && s.actions[t].phase.Checking?
    case ReadForTally(t) => t < |s.actions| && s.actions[t].phase.Admitted? && s.counter.None?
    case SeedTally(t) => t < |s.actions| && s.actions[t].phase.TallyRead?
    case Tally(t, _) => t < |s.actions| && s.actions[t].phase.Admitted? && s.counter.Some?
    case Commit(t) => t < |s.actions| && InFlight(s.actions[t]) && !s.actions[t].phase.Checking?
    case Rollback(t) => t < |s.actions| && InFlight(s.actions[t])
  }

  function Put(s: State, t: nat, phase: Phase): State
    requires t < |s.actions|
  {
    s.(actions := s.actions[t := s.actions[t].(phase := phase)])
  }

  function Step(s: State, e: Event): State
    requires Enabled(s, e)
  {
    match e
    case Check(limit) =>
      s.(actions := s.actions + [Action(if s.counter.value >= limit then Refused else Admitted, 0)])
    case CheckMissing => s.(actions := s.actions + [Action(Checking(s.row), 0)])
    case SeedCheck(t, limit) =>
      var row := s.actions[t].phase.row;
      Put(s.(counter := if s.counter.None? then Some(row) else s.counter), t, if row >= limit then Refused
            else Admitted)
    case ReadForTally(t) => Put(s, t, TallyRead(s.row))
    case SeedTally(t) =>
      Put(s.(counter := if s.counter.None? then Some(s.actions[t].phase.row) else s.counter), t, Admitted)
    case Tally(t, tokens) =>
      s.(counter := Some(s.counter.value + tokens), actions := s.actions[t := Action(Tallied, tokens)])
    case Commit(t) => Put(s.(row := Max(s.row + s.actions[t].tokens, 0)), t, Committed)
    case Rollback(t) => Put(s, t, RolledBack)
  }

  const START: State := State(None, 0, [])

  function InFlightCount(actions: seq<Action>): nat {
    if actions == [] then 0
    else InFlightCount(actions[..|actions| - 1]) + if InFlight(actions[|actions| - 1]) then 1 else 0
  }

  function UntalliedCount(actions: seq<Action>): nat {
    if actions == [] then 0
    else UntalliedCount(actions[..|actions| - 1]) + if Untallied(actions[|actions| - 1]) then 1 else 0
  }

  function Spent(actions: seq<Action>): nat {
    if actions == [] then 0 else Spent(actions[..|actions| - 1]) + actions[|actions| - 1].tokens
  }

  function CommittedTokens(a: Action): nat {
    if a.phase.Committed? then a.tokens else 0
  }

  function SpentDurably(actions: seq<Action>): nat {
    if actions == [] then 0 else SpentDurably(actions[..|actions| - 1]) + CommittedTokens(actions[|actions| - 1])
  }

  function Concurrency(s: State): nat {
    InFlightCount(s.actions)
  }

  /** Runs of actions costing at most `cost`, judged under `limit`, with at most k in flight at a time. */
  predicate IsRun(s: State, events: seq<Event>, limit: int, cost: nat, k: nat)
    decreases |events|
  {
    Concurrency(s) <= k &&
    (events == [] ||
     (Enabled(s, events[0]) && Fits(events[0], limit, cost) && IsRun(Step(s, events[0]), events[1..], limit, cost, k)))
  }

  predicate Fits(e: Event, limit: int, cost: nat) {
    match e
    case Check(l) => l == limit
    case SeedCheck(_, l) => l == limit
    case Tally(_, tokens) => tokens <= cost
    case _ => true
  }

  function Run(s: State, events: seq<Event>, limit: int, cost: nat, k: nat): State
    requires IsRun(s, events, limit, cost, k)
    decreases |events|
  {
    if events == [] then s else Run(Step(s, events[0]), events[1..], limit, cost, k)
  }

  function Value(s: State): int {
    if s.counter.Some? then s.counter.value else 0
  }

  function Times(n: nat, cost: nat): nat {
    n * cost
  }

  ghost predicate Inv(s: State, limit: int, cost: nat, k: nat) {
    && Value(s) == Spent(s.actions)
    && s.row == SpentDurably(s.actions)
    && (s.counter.None? ==> s.row == 0)
    && (forall t :: 0 <= t < |s.actions| ==> Sound(s.actions[t]))
    && Value(s) + Times(UntalliedCount(s.actions), cost) <= limit - 1 + Times(k, cost)
  }

  /** A row is read for seeding only while nothing was counted, and nothing is spent before the tally. */
  predicate Sound(a: Action) {
    && (a.phase.Checking? || a.phase.TallyRead? ==> a.phase.row == 0)
    && (Untallied(a) ==> a.tokens == 0)
  }

  lemma {:induction false} UpdateAt(actions: seq<Action>, t: nat, x: Action)
    requires t < |actions|
    ensures var after, was := actions[t := x], actions[t];
            && UntalliedCount(after) == UntalliedCount(actions) - (if Untallied(was) then 1 else 0)
                  + (if Untallied(x) then 1 else 0)
            && Spent(after) == Spent(actions) - was.tokens + x.tokens
            && SpentDurably(after) == SpentDurably(actions) - CommittedTokens(was) + CommittedTokens(x)
            && (Untallied(was) ==> UntalliedCount(actions) > 0)
    decreases |actions|
  {
    var n := |actions| - 1;
    if t < n {
      UpdateAt(actions[..n], t, x);
      assert actions[t := x][..n] == actions[..n][t := x];
    } else {
      assert actions[t := x][..n] == actions[..n];
    }
  }

  lemma Append(actions: seq<Action>, x: Action)
    ensures var after := actions + [x];
            && UntalliedCount(after) == UntalliedCount(actions) + (if Untallied(x) then 1 else 0)
            && Spent(after) == Spent(actions) + x.tokens
            && SpentDurably(after) == SpentDurably(actions) + CommittedTokens(x)
  {
    assert (actions + [x])[..|actions|] == actions;
  }

  lemma {:induction false} PartialSums(actions: seq<Action>)
    ensures SpentDurably(actions) <= Spent(actions)
    ensures UntalliedCount(actions) <= InFlightCount(actions) <= |actions|
  {
    if actions != [] {
      PartialSums(actions[..|actions| - 1]);
    }
  }

  lemma TimesMonotone(m: nat, n: nat, cost: nat)
    requires m <= n
    ensures Times(m, cost) <= Times(n, cost)
  {}

  lemma TimesSuccessor(m: nat, cost: nat)
    ensures Times(m + 1, cost) == Times(m, cost) + cost
  {}

  /** A new action has spent nothing, and is untallied only if the counter leaves room. */
  lemma AppendKeepsInv(s: State, x: Action, limit: int, cost: nat, k: nat)
    requires Inv(s, limit, cost, k) && Sound(x) && x.tokens == 0 && InFlightCount(s.actions + [x]) <= k
    requires Untallied(x) ==> Value(s) <= limit - 1
    ensures Inv(s.(actions := s.actions + [x]), limit, cost, k)
  {
    PartialSums(s.actions + [x]);
    TimesMonotone(UntalliedCount(s.actions + [x]), k, cost);
    Append(s.actions, x);
    hide UntalliedCount, Spent, SpentDurably, InFlightCount, Times, Sound;
  }

  lemma CheckKeepsInv(s: State, e: Event, limit: int, cost: nat, k: nat)
    requires limit > 0 && Inv(s, limit, cost, k) && Enabled(s, e) && Fits(e, limit, cost)
    requires Concurrency(Step(s, e)) <= k && (e.Check? || e.CheckMissing?)
    ensures Inv(Step(s, e), limit, cost, k)
  {
    hide UntalliedCount, Spent, SpentDurably, InFlightCount, Times;
    AppendKeepsInv(s, Step(s, e).actions[|s.actions|], limit, cost, k);
  }

  /** Replacing one action keeps the invariant when the counter and the row follow its tokens. */
  lemma ReplaceKeepsInv(s: State, s': State, t: nat, x: Action, limit: int, cost: nat, k: nat)
    requires Inv(s, limit, cost, k) && t < |s.actions| && s'.actions == s.actions[t := x]
    requires Sound(x) && (Untallied(x) ==> Untallied(s.actions[t]))
    requires Value(s') == Value(s) - s.actions[t].tokens + x.tokens
    requires s'.row == s.row - CommittedTokens(s.actions[t]) + CommittedTokens(x)
    requires s'.counter.None? ==> s'.row == 0
    requires x.tokens <= s.actions[t].tokens || (Untallied(s.actions[t]) && !Untallied(x) && x.tokens <= cost)
    ensures Inv(s', limit, cost, k)
  {
    PartialSums(s.actions);
    if UntalliedCount(s.actions) > 0 {
      TimesSuccessor(UntalliedCount(s.actions) - 1, cost);
    }
    UpdateAt(s.actions, t, x);
    hide UntalliedCount;
    hide Spent;
    hide SpentDurably;
    hide Times;
    assert Sound(s.actions[t]);
  }

  lemma ActionKeepsInv(s: State, e: Event, limit: int, cost: nat, k: nat)
    requires Inv(s, limit, cost, k) && Enabled(s, e) && Fits(e, limit, cost)
    requires !e.Check? && !e.CheckMissing?
    ensures Inv(Step(s, e), limit, cost, k)
  {
    var s' := Step(s, e);
    var x := s'.actions[e.t];
    assert s'.actions == s.actions[e.t := x] && Sound(s.actions[e.t]);
    if e.Commit? {
      PartialSums(s.actions);
      NothingBeforeTheCounter(s, e.t);
    }
    hide UntalliedCount;
    hide Spent;
    hide SpentDurably;
    ReplaceKeepsInv(s, s', e.t, x, limit, cost, k);
  }

  /** Without a counter nothing was spent. */
  lemma {:induction false} NothingBeforeTheCounter(s: State, t: nat)
    requires t < |s.actions| && Value(s) == Spent(s.actions)
    ensures s.counter.None? ==> s.actions[t].tokens == 0
  {
    UpdateAt(s.actions, t, s.actions[t].(tokens := 0));
  }

  lemma StepKeepsInv(s: State, e: Event, limit: int, cost: nat, k: nat)
    requires limit > 0 && Inv(s, limit, cost, k) && Enabled(s, e) && Fits(e, limit, cost)
    requires Concurrency(Step(s, e)) <= k
    ensures Inv(Step(s, e), limit, cost, k)
  {
    hide Inv;
    hide Step;
    if e.Check? || e.CheckMissing? {
      CheckKeepsInv(s, e, limit, cost, k);
    } else {
      ActionKeepsInv(s, e, limit, cost, k);
    }
  }

  lemma {:induction false} RunKeepsInv(s: State, events: seq<Event>, limit: int, cost: nat, k: nat)
    requires limit > 0 && Inv(s, limit, cost, k) && IsRun(s, events, limit, cost, k)
    ensures Inv(Run(s, events, limit, cost, k), limit, cost, k)
    decreases |events|
  {
    hide Step, Enabled, Fits, Inv;
    if events != [] {
      StepKeepsInv(s, events[0], limit, cost, k);
      RunKeepsInv(Step(s, events[0]), events[1..], limit, cost, k);
    }
  }

  /** At every point of every interleaving the counter is at most limit - 1 + k * cost, and the durable
      row never runs ahead of it. */
  lemma BudgetOverrunIsBounded(events: seq<Event>, limit: int, cost: nat, k: nat)
    requires limit > 0 && IsRun(START, events, limit, cost, k)
    ensures var s := Run(START, events, limit, cost, k);
            s.row <= Value(s) <= limit - 1 + k * cost
  {
    RunKeepsInv(START, events, limit, cost, k);
    PartialSums(Run(START, events, limit, cost, k).actions);
  }

  // ---- the bound is reached ----

  lemma OnTo(s: State, e: Event, events: seq<Event>, limit: int, cost: nat, k: nat)
    requires Concurrency(s) <= k && Enabled(s, e) && Fits(e, limit, cost) && IsRun(Step(s, e), events, limit, cost, k)
    ensures IsRun(s, [e] + events, limit, cost, k)
    ensures Run(s, [e] + events, limit, cost, k) == Run(Step(s, e), events, limit, cost, k)
  {
    hide Concurrency, Enabled, Fits, Step;
    assert ([e] + events)[1..] == events;
  }

  lemma NothingRuns(s: State, limit: int, cost: nat, k: nat)
    requires Concurrency(s) <= k
    ensures IsRun(s, [], limit, cost, k) && Run(s, [], limit, cost, k) == s
  {}

  lemma FirstStep(s: State, events: seq<Event>, limit: int, cost: nat, k: nat)
    requires events != [] && IsRun(s, events, limit, cost, k)
    ensures Concurrency(s) <= k && Enabled(s, events[0]) && Fits(events[0], limit, cost)
    ensures IsRun(Step(s, events[0]), events[1..], limit, cost, k)
    ensures Run(s, events, limit, cost, k) == Run(Step(s, events[0]), events[1..], limit, cost, k)
  {
    hide Concurrency, Enabled, Fits, Step;
  }

  lemma {:induction false} Through(s: State, a: seq<Event>, b: seq<Event>, limit: int, cost: nat, k: nat)
    requires IsRun(s, a, limit, cost, k) && IsRun(Run(s, a, limit, cost, k), b, limit, cost, k)
    ensures IsRun(s, a + b, limit, cost, k)
    ensures Run(s, a + b, limit, cost, k) == Run(Run(s, a, limit, cost, k), b, limit, cost, k)
    decreases |a|
  {
    hide Concurrency, Enabled, Fits, Step;
    if a == [] {
      assert a + b == b;
    } else {
      FirstStep(s, a, limit, cost, k);
      hide IsRun, Run;
      Through(Step(s, a[0]), a[1..], b, limit, cost, k);
      OnTo(s, a[0], a[1..] + b, limit, cost, k);
      assert [a[0]] + (a[1..] + b) == a + b;
    }
  }

  lemma {:induction false} InFlightAt(actions: seq<Action>, t: nat, x: Action)
    requires t < |actions|
    ensures InFlightCount(actions[t := x])
          == InFlightCount(actions) - (if InFlight(actions[t]) then 1 else 0) + (if InFlight(x) then 1 else 0)
    decreases |actions|
  {
    var n := |actions| - 1;
    if t < n {
      InFlightAt(actions[..n], t, x);
      assert actions[t := x][..n] == actions[..n][t := x];
    } else {
      assert actions[t := x][..n] == actions[..n];
    }
  }

  lemma OneMoreInFlight(actions: seq<Action>, x: Action)
    ensures InFlightCount(actions + [x]) == InFlightCount(actions) + if InFlight(x) then 1 else 0
  {
    assert (actions + [x])[..|actions|] == actions;
  }

  const ADMITTED: Action := Action(Admitted, 0)

  function Admissions(m: nat): seq<Action> {
    if m == 0 then [] else [ADMITTED] + Admissions(m - 1)
  }

  /** The last m actions, all admitted, tally their whole cost. */
  lemma {:induction false} TallyAll(s: State, others: seq<Action>, m: nat, limit: int, cost: nat, k: nat)
          returns (events: seq<Event>)
    requires s.counter.Some? && s.actions == others + Admissions(m) && Concurrency(s) <= k
    ensures IsRun(s, events, limit, cost, k) && Value(Run(s, events, limit, cost, k)) == Value(s) + Times(m, cost)
    decreases m
  {
    if m == 0 {
      events := [];
    } else {
      var t, tallied := |others|, Action(Tallied, cost);
      InFlightAt(s.actions, t, tallied);
      assert s.actions[t := tallied] == (others + [tallied]) + Admissions(m - 1);
      var rest := TallyAll(Step(s, Tally(t, cost)), others + [tallied], m - 1, limit, cost, k);
      TimesSuccessor(m - 1, cost);
      OnTo(s, Tally(t, cost), rest, limit, cost, k);
      events := [Tally(t, cost)] + rest;
    }
  }

  lemma AdmitOne(s: State, limit: int)
    requires s.counter.Some? && s.counter.value < limit
    ensures Enabled(s, Check(limit)) && Step(s, Check(limit)) == s.(actions := s.actions + [ADMITTED])
    ensures Concurrency(Step(s, Check(limit))) == Concurrency(s) + 1
  {
    hide InFlightCount;
    OneMoreInFlight(s.actions, ADMITTED);
  }

  /** Below the limit as many actions are admitted as may be in flight. */
  lemma {:induction false} AdmitAll(s: State, m: nat, limit: int, cost: nat, k: nat) returns (events: seq<Event>)
    requires s.counter.Some? && s.counter.value < limit && Concurrency(s) + m <= k
    ensures IsRun(s, events, limit, cost, k)
    ensures Run(s, events, limit, cost, k) == s.(actions := s.actions + Admissions(m))
          && Concurrency(Run(s, events, limit, cost, k)) <= k
    decreases m
  {
    hide IsRun, Run, Concurrency, Step, Enabled, InFlightCount;
    if m == 0 {
      assert s.actions + [] == s.actions;
      NothingRuns(s, limit, cost, k);
      events := [];
    } else {
      AdmitOne(s, limit);
      var rest := AdmitAll(Step(s, Check(limit)), m - 1, limit, cost, k);
      assert (s.actions + [ADMITTED]) + Admissions(m - 1) == s.actions + Admissions(m);
      OnTo(s, Check(limit), rest, limit, cost, k);
      events := [Check(limit)] + rest;
    }
  }

  /** With nothing else in flight one action spends one token. */
  lemma SpendOne(s: State, limit: int, cost: nat, k: nat) returns (events: seq<Event>)
    requires s.counter.Some? && s.counter.value < limit && Concurrency(s) == 0 && cost >= 1 && k >= 1
    ensures IsRun(s, events, limit, cost, k)
    ensures var after := Run(s, events, limit, cost, k);
            after.counter == Some(s.counter.value + 1) && Concurrency(after) == 0
  {
    hide InFlightCount, IsRun, Run;
    var t := |s.actions|;
    var s1 := s.(actions := s.actions + [ADMITTED]);
    var s2 := s1.(counter := Some(s.counter.value + 1), actions := s1.actions[t := Action(Tallied, 1)]);
    var s3 := Put(s2.(row := Max(s2.row + 1, 0)), t, Committed);
    AdmitOne(s, limit);
    InFlightAt(s1.actions, t, Action(Tallied, 1));
    InFlightAt(s2.actions, t, Action(Committed, 1));
    NothingRuns(s3, limit, cost, k);
    events := [];
    assert Step(s2, Commit(t)) == s3;
    OnTo(s2, Commit(t), events, limit, cost, k);
    events := [Commit(t)] + events;
    assert Step(s1, Tally(t, 1)) == s2;
    OnTo(s1, Tally(t, 1), events, limit, cost, k);
    events := [Tally(t, 1)] + events;
    OnTo(s, Check(limit), events, limit, cost, k);
    events := [Check(limit)] + events;
  }

  /** One action at a time, one token each, spends the budget up to its last token. */
  lemma {:induction false} SpendUp(s: State, m: nat, limit: int, cost: nat, k: nat) returns (events: seq<Event>)
    requires s.counter.Some? && s.counter.value + m < limit && Concurrency(s) == 0 && cost >= 1 && k >= 1
    ensures IsRun(s, events, limit, cost, k)
    ensures var after := Run(s, events, limit, cost, k);
            after.counter == Some(s.counter.value + m) && Concurrency(after) == 0
    decreases m
  {
    hide IsRun, Run, Concurrency;
    if m == 0 {
      NothingRuns(s, limit, cost, k);
      events := [];
    } else {
      events := SpendOne(s, limit, cost, k);
      var after := Run(s, events, limit, cost, k);
      var more := SpendUp(after, m - 1, limit, cost, k);
      Through(s, events, more, limit, cost, k);
      events := events + more;
    }
  }

  lemma OpeningSteps(limit: int)
    requires limit > 0
    ensures Enabled(START, CheckMissing) && Concurrency(START) == 0
    ensures var s1 := Step(START, CheckMissing);
            && Enabled(s1, SeedCheck(0, limit)) && Concurrency(s1) == 1
            && var s2 := Step(s1, SeedCheck(0, limit));
            && Enabled(s2, Rollback(0)) && Concurrency(s2) == 1
            && var s3 := Step(s2, Rollback(0));
            && s3.counter == Some(0) && Concurrency(s3) == 0
  {
    var s1 := Step(START, CheckMissing);
    var s2 := Step(s1, SeedCheck(0, limit));
    OneMoreInFlight([], Action(Checking(0), 0));
    assert s1.actions == [] + [Action(Checking(0), 0)];
    InFlightAt(s1.actions, 0, ADMITTED);
    InFlightAt(s2.actions, 0, Action(RolledBack, 0));
    assert InFlightCount([]) == 0;
    hide InFlightCount;
  }

  /** From the start to a counter of zero and nothing in flight. */
  lemma OpenBudget(limit: int, cost: nat, k: nat) returns (events: seq<Event>)
    requires k >= 1 && limit > 0
    ensures IsRun(START, events, limit, cost, k)
    ensures var s := Run(START, events, limit, cost, k); s.counter == Some(0) && Concurrency(s) == 0
  {
    OpeningSteps(limit);
    hide Step, Enabled, Concurrency, IsRun, Run;
    var s1 := Step(START, CheckMissing);
    var s2 := Step(s1, SeedCheck(0, limit));
    var s3 := Step(s2, Rollback(0));
    events := [];
    NothingRuns(s3, limit, cost, k);
    OnTo(s2, Rollback(0), events, limit, cost, k);
    events := [Rollback(0)] + events;
    OnTo(s1, SeedCheck(0, limit), events, limit, cost, k);
    events := [SeedCheck(0, limit)] + events;
    OnTo(START, CheckMissing, events, limit, cost, k);
    events := [CheckMissing] + events;
  }

  lemma BoundReached(limit: int, cost: nat, k: nat) returns (events: seq<Event>)
    requires limit > 0 && k >= 1 && cost >= 1
    ensures IsRun(START, events, limit, cost, k)
          && Value(Run(START, events, limit, cost, k)) == limit - 1 + Times(k, cost)
  {
    hide IsRun, Run, InFlightCount, Times;
    events := OpenBudget(limit, cost, k);
    var s := Run(START, events, limit, cost, k);
    var spending := SpendUp(s, limit - 1, limit, cost, k);
    var spent := Run(s, spending, limit, cost, k);
    var admitting := AdmitAll(spent, k, limit, cost, k);
    var full := Run(spent, admitting, limit, cost, k);
    var tallying := TallyAll(full, spent.actions, k, limit, cost, k);
    Through(spent, admitting, tallying, limit, cost, k);
    Through(s, spending, admitting + tallying, limit, cost, k);
    Through(START, events, spending + (admitting + tallying), limit, cost, k);
    events := events + (spending + (admitting + tallying));
  }

  ghost predicate NothingSpent(s: State) {
    Value(s) == 0 && s.row == 0 && forall t :: 0 <= t < |s.actions| ==>
      s.actions[t].tokens == 0
            && (s.actions[t].phase.Checking? || s.actions[t].phase.TallyRead? ==> s.actions[t].phase.row == 0)
  }

  lemma FreeStepSpendsNothing(s: State, e: Event, limit: int)
    requires NothingSpent(s) && Enabled(s, e) && Fits(e, limit, 0)
    ensures NothingSpent(Step(s, e))
  {
    assert !e.Check? && !e.CheckMissing? ==> s.actions[e.t].tokens == 0;
  }

  /** Actions that cost nothing spend nothing. */
  lemma {:induction false} FreeActionsSpendNothing(s: State, events: seq<Event>, limit: int, k: nat)
    requires NothingSpent(s) && IsRun(s, events, limit, 0, k)
    ensures Value(Run(s, events, limit, 0, k)) == 0
    decreases |events|
  {
    hide Step, Enabled, Fits, Concurrency;
    if events != [] {
      FirstStep(s, events, limit, 0, k);
      hide IsRun, Run, NothingSpent;
      FreeStepSpendsNothing(s, events[0], limit);
      FreeActionsSpendNothing(Step(s, events[0]), events[1..], limit, k);
    }
  }

  lemma NoActionMayRun(events: seq<Event>, limit: int, cost: nat)
    requires limit > 0 && IsRun(START, events, limit, cost, 0)
    ensures events == []
  {
    OpeningSteps(limit);
    hide Concurrency;
  }

  predicate Reaches(events: seq<Event>, limit: int, cost: nat, k: nat) {
    IsRun(START, events, limit, cost, k) && Value(Run(START, events, limit, cost, k)) == limit - 1 + k * cost
  }

  /** The bound is reached for every limit, cost and concurrency, unless no action may run or none costs
      anything; then it is reached only for a limit of one, where it is zero. */
  lemma BudgetBoundIsTight(limit: int, cost: nat, k: nat)
    requires limit > 0
    ensures (exists events :: Reaches(events, limit, cost, k)) <==> (k >= 1 && cost >= 1) || limit == 1
  {
    if k >= 1 && cost >= 1 {
      var events := BoundReached(limit, cost, k);
      assert Reaches(events, limit, cost, k);
    } else {
      assert k * cost == 0;
      NothingRuns(START, limit, cost, k);
      assert limit == 1 ==> Reaches([], limit, cost, k);
      forall events | Reaches(events, limit, cost, k) ensures limit == 1 {
        if cost == 0 {
          FreeActionsSpendNothing(START, events, limit, k);
        } else {
          NoActionMayRun(events, limit, cost);
        }
      }
    }
  }

  // ---- the serial service is this system ----

  function View(s: State, key: string): Q.Store {
    Q.Store(if s.counter.Some? then map[key := s.counter.value] else map[], map[key := s.row])
  }

  /** A pre-check on a healthy Redis: its reads as steps. */
  lemma CheckIsARun(s: State, key: string, limit: int) returns (after: State)
    requires limit != Catalog.UNLIMITED
    ensures if s.counter.Some? then Enabled(s, Check(limit)) && after == Step(s, Check(limit))
            else
              Enabled(s, CheckMissing) && Enabled(Step(s, CheckMissing), SeedCheck(|s.actions|, limit))
              && after == Step(Step(s, CheckMissing), SeedCheck(|s.actions|, limit))
    ensures var (store, refusal) := Q.Opened(View(s, key), key, limit, false, Q.Answered);
            && View(after, key) == store && |after.actions| == |s.actions| + 1
            && after.actions[|s.actions|].phase == if refusal.None? then Admitted else Refused
  {
    after := if s.counter.Some? then Step(s, Check(limit))
          else Step(Step(s, CheckMissing), SeedCheck(|s.actions|, limit));
  }

  /** A tally and its commit on a healthy Redis, as steps. */
  lemma TallyIsARun(s: State, t: nat, key: string, tokens: nat) returns (counted: State)
    requires t < |s.actions| && s.actions[t].phase.Admitted? && tokens > 0 && s.row >= 0
    ensures if s.counter.Some? then Enabled(s, Tally(t, tokens)) && counted == Step(s, Tally(t, tokens))
            else
              Enabled(s, ReadForTally(t)) && Enabled(Step(s, ReadForTally(t)), SeedTally(t))
              && counted == Step(Step(Step(s, ReadForTally(t)), SeedTally(t)), Tally(t, tokens))
    ensures Enabled(counted, Commit(t))
          && View(Step(counted, Commit(t)), key) == Q.Tallied(View(s, key), key, tokens, Q.FAIR)
  {
    var ready := if s.counter.Some? then s else Step(Step(s, ReadForTally(t)), SeedTally(t));
    counted := Step(ready, Tally(t, tokens));
    assert View(Step(counted, Commit(t)), key).redis == Q.Tallied(View(s, key), key, tokens, Q.FAIR).redis;
  }
}
