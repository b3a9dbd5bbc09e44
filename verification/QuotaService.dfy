/** The two-layer quota gate, one request at a time: the Lua scripts on the Redis counter and the
    durable row written in the action's own transaction. */
module QuotaService {
  import opened Wrappers
  import Catalog

  /** The two scripts see one key: None is a missing key. */
  type Counter = Option<int>

  datatype LuaReply = Missing | Denied(current: int) | Granted(total: int)

  function ConsumeScript(counter: Counter, limit: int, amount: int): (Counter, LuaReply) {
    match counter
    case None => (None, Missing)
    case Some(cur) =>
      if limit >= 0 && cur + amount > limit then (counter, Denied(cur))
      else (Some(cur + amount), Granted(cur + amount))
  }

  function ReleaseScript(counter: Counter, amount: int): Counter {
    match counter
    case None => None
    case Some(cur) => Some(Max(cur - amount, 0))
  }

  /** The check of the row-locked path, written with the other test for "unlimited". */
  predicate RowRefuses(used: int, limit: int, amount: int) {
    limit != Catalog.UNLIMITED && used + amount > limit
  }

  /** The two tests are the same check exactly when the limit is a catalogue limit, or fits anyway. */
  lemma GatesAgree(used: int, limit: int, amount: int)
    ensures (ConsumeScript(Some(used), limit, amount).1.Denied? <==> RowRefuses(used, limit, amount))
       <==> limit >= Catalog.UNLIMITED || used + amount <= limit
  {}

  datatype QuotaError = LimitReached(limit: int, used: int)

  /** What became of one Redis call: it ran and answered, it ran but the answer never arrived, or it never ran. */
  datatype Call = Answered | ReplyLost | NotSent

  /** The calls of one consume, and whether the key is evicted right after it was first seeded. */
  datatype Weather = Weather(first: Call, seed: Call, evicted: bool, second: Call, reseed: Call)

  const CLEAR: Weather := Weather(Answered, Answered, false, Answered, Answered)
  const DOWN: Weather := Weather(NotSent, NotSent, false, NotSent, NotSent)

  /** Everything a request can read or write: the Redis counters and, seen from its transaction, the
      rows of `usage_counters`. Counters are named by user, feature and window. */
  datatype Store = Store(redis: map<string, int>, rows: map<string, int>)

  function CounterOf(s: Store, key: string): Counter {
    if key in s.redis then Some(s.redis[key]) else None
  }

  function RowOf(s: Store, key: string): int {
    if key in s.rows then s.rows[key] else 0
  }

  /** The value the gate works with: the counter, or the row a missing counter is rebuilt from. */
  function Standing(s: Store, key: string): int {
    if key in s.redis then s.redis[key] else RowOf(s, key)
  }

  function Upserted(rows: map<string, int>, key: string, delta: int): map<string, int> {
    rows[key := if key in rows then Max(rows[key] + delta, 0) else Max(delta, 0)]
  }

  predicate RedisAnswers(s: Store, key: string, w: Weather) {
    w.first.Answered? && (key in s.redis || (w.seed.Answered? && !w.evicted && w.second.Answered?))
  }

  function Evaluated(counter: Counter, limit: int, amount: int, call: Call): Counter {
    if call.NotSent? then counter else ConsumeScript(counter, limit, amount).0
  }

  /** The counter after the Redis half of a consume; `used` is the row a missing one is rebuilt from. */
  function CounterAfter(counter: Counter, used: int, limit: int, amount: int, w: Weather): Counter {
    if !w.first.Answered? || counter.Some? then Evaluated(counter, limit, amount, w.first)
    else if !w.seed.Answered? then (if w.seed.NotSent? then None else Some(used))
    else if w.evicted then (if w.second.Answered? && !w.reseed.NotSent? then Some(used) else None)
    else Evaluated(Some(used), limit, amount, w.second)
  }

  function WithCounter(redis: map<string, int>, key: string, counter: Counter): map<string, int> {
    match counter
    case None => redis - {key}
    case Some(value) => redis[key := value]
  }

  /** What a consume does: the answer of the gate that could be reached, and the new store. */
  function Consumed(s: Store, key: string, limit: int, amount: int, w: Weather): (Store, Result<int, QuotaError>) {
    var standing := Standing(s, key);
    var redis := WithCounter(s.redis, key, CounterAfter(CounterOf(s, key), RowOf(s, key), limit, amount, w));
    if RedisAnswers(s, key, w) then
      if limit >= 0 && standing + amount > limit then (s.(redis := redis), Err(LimitReached(limit, standing)))
      else (Store(redis, Upserted(s.rows, key, amount)), Ok(standing + amount))
    else
      var used := Max(RowOf(s, key), 0);
      if RowRefuses(used, limit, amount) then (Store(redis, s.rows[key := used]), Err(LimitReached(limit, used)))
      else (Store(redis, s.rows[key := used + amount]), Ok(used + amount))
  }

  /** `evalFails` means that the script never ran; whether its reply arrives does not matter. */
  function Released(s: Store, key: string, amount: int, evalFails: bool): Store {
    Store(if key in s.redis && !evalFails then s.redis[key := Max(s.redis[key] - amount, 0)] else s.redis,
          Upserted(s.rows, key, -amount))
  }

  /** The usage a check works with, and the store after reading it: a missing counter is rebuilt, any
      Redis error falls back to the row. */
  function UsageRead(s: Store, key: string, getFails: bool, seed: Call): (Store, int) {
    if key in s.redis then (s, if getFails then RowOf(s, key) else s.redis[key])
    else (if getFails || seed.NotSent? then s else s.(redis := s.redis[key := RowOf(s, key)]), RowOf(s, key))
  }

  /** The pre-check of a tallied quota: None lets the action in. */
  function Opened(s: Store, key: string, limit: int, getFails: bool, seed: Call): (Store, Option<QuotaError>) {
    if limit == Catalog.UNLIMITED then (s, None)
    else
      var (after, used) := UsageRead(s, key, getFails, seed);
      (after, if used >= limit then Some(LimitReached(limit, used)) else None)
  }

  /** The calls of one tally, and whether the key is evicted just before the increment. */
  datatype TallyWeather = TallyWeather(existsFails: bool, seed: Call, evicted: bool, increment: Call)

  const FAIR: TallyWeather := TallyWeather(false, Answered, false, Answered)

  /** The counter after a tally of a positive amount: an increment of a missing key starts it at nothing. */
  function CounterAfterTally(counter: Counter, used: int, amount: int, w: TallyWeather): Counter {
    if w.existsFails then counter
    else if counter.None? && !w.seed.Answered? then (if w.seed.NotSent? then None else Some(used))
    else
      var standing := if w.evicted then None else if counter.Some? then counter else Some(used);
      if w.increment.NotSent? then standing else if standing.None? then Some(amount) else Some(standing.value + amount)
  }

  /** What an unconditional tally does: nothing of zero or less, otherwise the row always. */
  function Tallied(s: Store, key: string, amount: int, w: TallyWeather): Store {
    if amount <= 0 then s
    else Store(WithCounter(s.redis, key, CounterAfterTally(CounterOf(s, key), RowOf(s, key), amount, w)),
          Upserted(s.rows, key, amount))
  }

  lemma WhenRedisAnswers(s: Store, key: string, limit: int, amount: int, w: Weather)
    ensures var (after, r) := Consumed(s, key, limit, amount, w);
            && after.redis == WithCounter(s.redis, key,
                  CounterAfter(CounterOf(s, key), RowOf(s, key), limit, amount, w))
            && (RedisAnswers(s, key, w) ==>
                  r == if limit >= 0 && Standing(s, key)
                        + amount > limit then Err(LimitReached(limit, Standing(s, key)))
                       else Ok(Standing(s, key) + amount))
  {
    hide WithCounter, CounterAfter, RedisAnswers;
  }

  class QuotaService {
    var redis: map<string, int>
    var rows: map<string, int>

    function Contents(): Store
      reads this
    {
      Store(redis, rows)
    }

    constructor (redis: map<string, int>, rows: map<string, int>)
      ensures Contents() == Store(redis, rows)
    {
      this.redis := redis;
      this.rows := rows;
    }

    method EvalConsume(key: string, limit: int, amount: int) returns (reply: LuaReply)
      modifies this`redis
      ensures var (counter, answer) := ConsumeScript(old(CounterOf(Contents(), key)), limit, amount);
              reply == answer && CounterOf(Contents(), key) == counter
      ensures forall k :: k != key ==> CounterOf(Contents(), k) == old(CounterOf(Contents(), k))
      ensures reply.Granted? ==> redis == old(redis)[key := reply.total]
      ensures !reply.Granted? ==> redis == old(redis)
    {
      if key !in redis {
        return Missing;
      }
      var cur := redis[key];
      if limit >= 0 && cur + amount > limit {
        return Denied(cur);
      }
      redis := redis[key := cur + amount];
      return Granted(cur + amount);
    }

    method Upsert(key: string, delta: int)
      modifies this`rows
      ensures rows == Upserted(old(rows), key, delta)
    {
      if key in rows {
        rows := rows[key := Max(rows[key] + delta, 0)];
      } else {
        rows := rows[key := Max(delta, 0)];
      }
    }

    /** Set only if the key is missing: a racing seeder is never overwritten. */
    method Seed(key: string) returns (used: int)
      modifies this`redis
      ensures used == RowOf(Contents(), key)
      ensures redis == if key in old(redis) then old(redis) else old(redis)[key := used]
    {
      used := if key in rows then rows[key] else 0;
      if key !in redis {
        redis := redis[key := used];
      }
    }

    /** Two attempts, each seeding a missing key; None stands for any exception. */
    method RedisConsume(key: string, limit: int, amount: int, w: Weather) returns (r: Option<Result<int, QuotaError>>)
      modifies this`redis
      ensures r.Some? <==> RedisAnswers(old(Contents()), key, w)
      ensures r.Some? ==> r.value == Consumed(old(Contents()), key, limit, amount, w).1
      ensures redis == Consumed(old(Contents()), key, limit, amount, w).0.redis
    {
      hide Consumed;
      WhenRedisAnswers(Contents(), key, limit, amount, w);
      var attempt := 0;
      while attempt < 2
        invariant 0 <= attempt <= 2
        invariant attempt == 0 ==> redis == old(redis)
        invariant attempt > 0 ==> old(key !in redis) && w.first.Answered? && w.seed.Answered?
        invariant attempt == 1 ==> redis == if w.evicted then old(redis)
              else old(redis)[key := RowOf(old(Contents()), key)]
        invariant attempt == 2 ==>
              w.evicted && w.second.Answered? && w.reseed.Answered?
              && redis == old(redis)[key := RowOf(old(Contents()), key)]
      {
        var eval, seed := if attempt == 0 then w.first else w.second, if attempt == 0 then w.seed else w.reseed;
        if eval.NotSent? {
          assert redis - {key} == redis || key in redis;
          return None;
        }
        var reply := EvalConsume(key, limit, amount);
        if eval.ReplyLost? {
          assert redis - {key} == redis || key in redis;
          return None;
        }
        match reply
        case Granted(total) => return Some(Ok(total));
        case Denied(current) =>
          assert redis == redis[key := current];
          return Some(Err(LimitReached(limit, current)));
        case Missing =>
          if seed.NotSent? {
            assert redis - {key} == redis;
            return None;
          }
          var _ := Seed(key);
          if seed.ReplyLost? {
            return None;
          }
          if attempt == 0 && w.evicted {
            redis := redis - {key};
          }
        attempt := attempt + 1;
      }
      return None;
    }

    method DbConsume(key: string, limit: int, amount: int) returns (r: Result<int, QuotaError>)
      modifies this`rows
      ensures var used := Max(RowOf(old(Contents()), key), 0);
              if RowRefuses(used, limit, amount) then
                r == Err(LimitReached(limit, used)) && rows == old(rows)[key := used]
              else
                r == Ok(used + amount) && rows == old(rows)[key := used + amount]
    {
      Upsert(key, 0);
      var used := rows[key];
      if limit != Catalog.UNLIMITED && used + amount > limit {
        return Err(LimitReached(limit, used));
      }
      rows := rows[key := used + amount];
      return Ok(used + amount);
    }

    method Consume(key: string, limit: int, amount: int, w: Weather) returns (r: Result<int, QuotaError>)
      modifies this
      ensures (Contents(), r) == Consumed(old(Contents()), key, limit, amount, w)
    {
      var viaRedis := RedisConsume(key, limit, amount, w);
      match viaRedis
      case None =>
        r := DbConsume(key, limit, amount);
      case Some(answer) =>
        if answer.Ok? {
          Upsert(key, amount);
        }
        r := answer;
    }

    method Used(key: string, getFails: bool, seed: Call) returns (used: int)
      modifies this`redis
      ensures (Contents(), used) == UsageRead(old(Contents()), key, getFails, seed)
    {
      if !getFails {
        if key in redis {
          return redis[key];
        }
        if !seed.NotSent? {
          var found := Seed(key);
          if seed.Answered? {
            return found;
          }
        }
      }
      return if key in rows then rows[key] else 0;
    }

    method EnsureOpen(key: string, limit: int, getFails: bool, seed: Call) returns (refusal: Option<QuotaError>)
      modifies this`redis
      ensures (Contents(), refusal) == Opened(old(Contents()), key, limit, getFails, seed)
    {
      if limit == Catalog.UNLIMITED {
        return None;
      }
      var used := Used(key, getFails, seed);
      return if used >= limit then Some(LimitReached(limit, used)) else None;
    }

    method AddUsage(key: string, amount: int, w: TallyWeather)
      modifies this
      ensures Contents() == Tallied(old(Contents()), key, amount, w)
    {
      if amount <= 0 {
        return;
      }
      TallyInRedis(key, amount, w);
      Upsert(key, amount);
    }

    /** The Redis half of a tally; any error ends it. */
    method TallyInRedis(key: string, amount: int, w: TallyWeather)
      modifies this`redis
      ensures redis == WithCounter(old(redis), key,
            CounterAfterTally(old(CounterOf(Contents(), key)), old(RowOf(Contents(), key)), amount, w))
    {
      ghost var before := redis;
      assert key in before ==> before[key := before[key]] == before;
      assert key !in before ==> before - {key} == before;
      if w.existsFails {
        return;
      }
      if key !in redis {
        if w.seed.NotSent? {
          return;
        }
        var _ := Seed(key);
        if w.seed.ReplyLost? {
          return;
        }
      }
      if w.evicted {
        redis := redis - {key};
      }
      if !w.increment.NotSent? {
        redis := redis[key := (if key in redis then redis[key] else 0) + amount];
      }
    }

    method Release(key: string, amount: int, evalFails: bool)
      modifies this
      ensures Contents() == Released(old(Contents()), key, amount, evalFails)
    {
      if !evalFails {
        if key in redis {
          redis := redis[key := Max(redis[key] - amount, 0)];
        }
      }
      Upsert(key, -amount);
    }
  }

  // ---- what the gate promises, whatever fails ----

  /** Rows are written by upserts only, so they are never negative; a counter is never behind its row. */
  ghost predicate Conservative(s: Store) {
    && (forall key :: key in s.rows ==> s.rows[key] >= 0)
    && (forall key :: key in s.redis ==> s.redis[key] >= RowOf(s, key))
  }

  /** A grant raises the durable count by exactly the amount, whatever becomes of the Redis calls, and leaves it
      within the limit unless Redis answered from a counter that is behind its row. With a conservative store it
      always does, and nothing that would have fitted is refused. */
  lemma GrantStaysWithinLimit(s: Store, key: string, limit: int, amount: nat, w: Weather)
    requires RowOf(s, key) >= 0 && limit >= 0
    ensures var (after, r) := Consumed(s, key, limit, amount, w);
            && RowOf(after, key) == RowOf(s, key) + (if r.Ok? then amount else 0)
            && (r.Ok? ==> (RowOf(after, key) <= limit <==> !RedisAnswers(s, key, w) || RowOf(s, key) + amount <= limit))
            && (Conservative(s) ==> if r.Ok? then RowOf(after, key) <= limit else Standing(s, key) + amount > limit)
  {}

  /** The answer tells the usage the gate that gave it has now: the new total of a grant, the standing count of a
      refusal, which leaves the row as it was. Every other counter and row stays. */
  lemma AnswersTellUsage(s: Store, key: string, limit: int, amount: nat, w: Weather)
    requires RowOf(s, key) >= 0
    ensures var (after, r) := Consumed(s, key, limit, amount, w);
            && (r.Ok? ==> r.value == (if RedisAnswers(s, key, w) then Standing(after, key) else RowOf(after, key)))
            && (r.Err? ==>
                  && RowOf(after, key) == RowOf(s, key)
                  && r.error == LimitReached(limit, if RedisAnswers(s, key, w) then Standing(s, key)
                        else RowOf(s, key)))
            && (RedisAnswers(s, key, w) ==>
                  key in after.redis && after.redis[key] == Standing(s, key) + if r.Ok? then amount else 0)
            && forall k :: k != key ==> CounterOf(after, k) == CounterOf(s, k) && RowOf(after, k) == RowOf(s, k)
  {
    ConsumeTouchesOneKey(s, key, limit, amount, w);
  }

  /** A release takes the amount off both layers, down to nothing, and off the row alone if the script does not run;
      every other counter and row stays. */
  lemma ReleaseGivesBack(s: Store, key: string, amount: nat, evalFails: bool)
    requires RowOf(s, key) >= 0
    ensures var after := Released(s, key, amount, evalFails);
            && RowOf(after, key) == (if RowOf(s, key) > amount then RowOf(s, key) - amount else 0)
            && (key in after.redis <==> key in s.redis)
            && (key in s.redis && evalFails ==> after.redis[key] == s.redis[key])
            && (key in s.redis && !evalFails ==> after.redis[key] == Max(s.redis[key] - amount, 0))
            && forall k :: k != key ==> CounterOf(after, k) == CounterOf(s, k) && RowOf(after, k) == RowOf(s, k)
  {}

  predicate RowStaysWithin(s: Store, key: string, limit: int, amount: nat, w: Weather) {
    Consumed(s, key, limit, amount, w).1.Ok? ==> RowOf(Consumed(s, key, limit, amount, w).0, key) <= limit
  }

  /** Without that assumption: every possible grant on a key stays within the limit exactly when its counter is
      not behind its row, or is past the limit anyway. */
  lemma GateIsSafeExactlyWhen(s: Store, key: string, limit: int)
    requires RowOf(s, key) >= 0 && limit >= 0
    ensures (forall amount: nat, w :: RowStaysWithin(s, key, limit, amount, w))
       <==> RowOf(s, key) <= Standing(s, key) || Standing(s, key) > limit
  {
    if Standing(s, key) < RowOf(s, key) && Standing(s, key) <= limit {
      var amount: nat := limit - Standing(s, key);
      assert !RowStaysWithin(s, key, limit, amount, CLEAR);
    }
  }

  /** The counter, if any, is not behind a row that is not negative. */
  predicate InPace(counter: Counter, row: int) {
    row >= 0 && (counter.Some? ==> counter.value >= row)
  }

  lemma OneKeyDecides(s: Store, after: Store, key: string)
    requires Conservative(s)
    requires forall k :: k != key ==> CounterOf(after, k) == CounterOf(s, k) && RowOf(after, k) == RowOf(s, k)
    ensures Conservative(after) <==> InPace(CounterOf(after, key), RowOf(after, key))
  {
    forall k | k != key ensures InPace(CounterOf(after, k), RowOf(after, k)) {
      assert CounterOf(after, k) == CounterOf(s, k) && RowOf(after, k) == RowOf(s, k);
    }
    if InPace(CounterOf(after, key), RowOf(after, key)) {
      forall k ensures InPace(CounterOf(after, k), RowOf(after, k)) {}
      forall k | k in after.rows ensures after.rows[k] >= 0 { assert RowOf(after, k) == after.rows[k]; }
      forall k | k in after.redis ensures after.redis[k] >= RowOf(after, k) {
        assert CounterOf(after, k) == Some(after.redis[k]);
      }
    }
  }

  lemma ConsumeTouchesOneKey(s: Store, key: string, limit: int, amount: int, w: Weather)
    ensures var after := Consumed(s, key, limit, amount, w).0;
            && CounterOf(after, key) == CounterAfter(CounterOf(s, key), RowOf(s, key), limit, amount, w)
            && forall k :: k != key ==> CounterOf(after, k) == CounterOf(s, k) && RowOf(after, k) == RowOf(s, k)
  {
    hide CounterAfter, RedisAnswers, RowRefuses;
  }

  lemma RowAfterConsume(s: Store, key: string, limit: int, amount: nat, w: Weather)
    requires RowOf(s, key) >= 0
    ensures var (after, r) := Consumed(s, key, limit, amount, w);
            RowOf(after, key) == RowOf(s, key) + (if r.Ok? then amount else 0)
  {
    hide CounterAfter, RedisAnswers, RowRefuses, WithCounter;
  }

  /** A counter that answers moves with its row, and refuses by its own count. */
  lemma RedisGateIsExact(s: Store, key: string, limit: int, amount: nat, w: Weather)
    requires RedisAnswers(s, key, w)
    ensures Consumed(s, key, limit, amount, w).1.Ok? <==> limit < 0 || Standing(s, key) + amount <= limit
    ensures Conservative(s) ==> Conservative(Consumed(s, key, limit, amount, w).0)
  {
    if Conservative(s) {
      var (after, r) := Consumed(s, key, limit, amount, w);
      ConsumeTouchesOneKey(s, key, limit, amount, w);
      RowAfterConsume(s, key, limit, amount, w);
      OneKeyDecides(s, after, key);
      hide WithCounter, Upserted, Conservative;
      assert CounterOf(after, key) == Some(Standing(s, key) + if r.Ok? then amount else 0);
    }
  }

  /** The row-locked path moves the row alone, after whatever the calls that went through did. */
  lemma RowPathKeepsPaceExactlyWhen(s: Store, key: string, limit: int, amount: nat, w: Weather)
    requires Conservative(s) && !RedisAnswers(s, key, w)
    ensures Conservative(Consumed(s, key, limit, amount, w).0) <==> ConsumeKeepsPace(s, key, limit, amount, w)
  {
    var after := Consumed(s, key, limit, amount, w).0;
    assert InPace(CounterOf(s, key), RowOf(s, key));
    ConsumeTouchesOneKey(s, key, limit, amount, w);
    RowAfterConsume(s, key, limit, amount, w);
    OneKeyDecides(s, after, key);
    hide WithCounter, Conservative;
    CounterIsNoLower(CounterOf(s, key), RowOf(s, key), limit, amount, w);
    hide CounterAfter, CounterOf;
    assert Consumed(s, key, limit, amount, w).1.Err? <==> RowRefuses(RowOf(s, key), limit, amount);
  }

  lemma CounterIsNoLower(counter: Counter, row: int, limit: int, amount: nat, w: Weather)
    requires InPace(counter, row)
    ensures InPace(CounterAfter(counter, row, limit, amount, w), row)
  {}

  /** A consume leaves every counter at or ahead of its row exactly when Redis answered it, nothing was granted,
      the counter is gone, or it was that far ahead: a grant of the row-locked path is not added to it. */
  lemma ConsumeKeepsPaceExactlyWhen(s: Store, key: string, limit: int, amount: nat, w: Weather)
    requires Conservative(s)
    ensures Conservative(Consumed(s, key, limit, amount, w).0) <==> ConsumeKeepsPace(s, key, limit, amount, w)
  {
    if RedisAnswers(s, key, w) {
      RedisGateIsExact(s, key, limit, amount, w);
    } else {
      RowPathKeepsPaceExactlyWhen(s, key, limit, amount, w);
    }
  }

  predicate ConsumeKeepsPace(s: Store, key: string, limit: int, amount: nat, w: Weather) {
    var counter := CounterAfter(CounterOf(s, key), RowOf(s, key), limit, amount, w);
    RedisAnswers(s, key, w) || RowRefuses(RowOf(s, key), limit, amount) || counter.None?
          || counter.value >= RowOf(s, key) + amount
  }

  /** One unit allowed, one request after the other: the first is granted by the row-locked path while Redis is
      down, and once it answers again the surviving counter grants the same unit a second time. */
  lemma RowGrantIsGrantedTwice()
    ensures var (s, first) := Consumed(Store(map["k" := 0], map[]), "k", 1, 1, DOWN);
            var (after, second) := Consumed(s, "k", 1, 1, CLEAR);
            first.Ok? && second.Ok? && RowOf(after, "k") == 2
  {}

  /** A release undoes a consume that went through the same gate. */
  lemma ReleaseUndoesConsume(s: Store, key: string, limit: int, amount: nat)
    requires Conservative(s) && Consumed(s, key, limit, amount, CLEAR).1.Ok?
    ensures var undone := Released(Consumed(s, key, limit, amount, CLEAR).0, key, amount, false);
            && Standing(undone, key) == Standing(s, key) && RowOf(undone, key) == RowOf(s, key)
            && forall k :: k != key ==> Standing(undone, k) == Standing(s, k) && RowOf(undone, k) == RowOf(s, k)
  {}

  /** An action is let in with the budget spent exactly when the counter answers, below the limit, for a row
      that is not; which a conservative store never does. */
  lemma OpenMeansBelowLimit(s: Store, key: string, limit: int, getFails: bool, seed: Call)
    requires limit != Catalog.UNLIMITED
    ensures var refusal := Opened(s, key, limit, getFails, seed).1;
            && (refusal.None? && RowOf(s, key) >= limit <==>
                  key in s.redis && !getFails && s.redis[key] < limit <= RowOf(s, key))
            && (Conservative(s) ==>
                  (refusal.None? ==> RowOf(s, key) < limit) && (refusal.Some? ==> Standing(s, key) >= limit))
    ensures var refusal := Opened(s, key, limit, getFails, seed).1;
            refusal.Some? ==>
              refusal.value == LimitReached(limit, if getFails then RowOf(s, key) else Standing(s, key))
    ensures Conservative(s) ==> Conservative(Opened(s, key, limit, getFails, seed).0)
  {}

  /** A tally always reaches the durable row. The counter keeps up exactly when its calls run, when it was far
      enough ahead, or when it is gone and will be rebuilt: an eviction just before the increment restarts it
      from nothing, which is harmless only if nothing was used. */
  lemma TallyKeepsUp(s: Store, key: string, amount: int, w: TallyWeather)
    requires Conservative(s)
    ensures amount <= 0 ==> Tallied(s, key, amount, w) == s
    ensures amount > 0 ==> RowOf(Tallied(s, key, amount, w), key) == RowOf(s, key) + amount
    ensures Conservative(Tallied(s, key, amount, w)) <==> amount <= 0 || TallyKeepsPace(s, key, amount, w)
  {}

  predicate TallyKeepsPace(s: Store, key: string, amount: int, w: TallyWeather) {
    if w.existsFails then key !in s.redis || s.redis[key] >= RowOf(s, key) + amount
    else if key !in s.redis && !w.seed.Answered? then w.seed.NotSent?
    else if w.evicted then w.increment.NotSent? || RowOf(s, key) == 0
    else !w.increment.NotSent? || Standing(s, key) >= RowOf(s, key) + amount
  }

  /** Three tokens tallied, then five whose increment never runs: the counter is five behind the row. */
  lemma FailedTallyLeavesCounterBehind()
    ensures var s := Tallied(Store(map[], map[]), "k", 3, FAIR);
            var after := Tallied(s, "k", 5, FAIR.(increment := NotSent));
            Conservative(s) && Standing(after, "k") == 3 && RowOf(after, "k") == 8
  {}

  /** Three tokens tallied, then five with the key evicted between the two calls: the counter restarts at five. */
  lemma EvictedTallyRestartsCounter()
    ensures var s := Tallied(Store(map[], map[]), "k", 3, FAIR);
            var after := Tallied(s, "k", 5, FAIR.(evicted := true));
            Conservative(s) && Standing(after, "k") == 5 && RowOf(after, "k") == 8
  {}

  // ---- serial runs, whatever fails ----

  datatype Operation =
    | Reserve(key: string, limit: int, units: nat, weather: Weather)
    | GiveBack(key: string, units: nat, evalFails: bool)
    | Check(key: string, limit: int, getFails: bool, seed: Call)
    | Tally(key: string, amount: int, calls: TallyWeather)

  function Operated(s: Store, op: Operation): Store {
    match op
    case Reserve(key, limit, units, weather) => Consumed(s, key, limit, units, weather).0
    case GiveBack(key, units, evalFails) => Released(s, key, units, evalFails)
    case Check(key, limit, getFails, seed) => Opened(s, key, limit, getFails, seed).0
    case Tally(key, amount, calls) => Tallied(s, key, amount, calls)
  }

  function OperatedAll(s: Store, ops: seq<Operation>): Store {
    if ops == [] then s else Operated(OperatedAll(s, ops[..|ops| - 1]), ops[|ops| - 1])
  }

  predicate KeepsPace(s: Store, op: Operation) {
    match op
    case Reserve(key, limit, units, weather) => ConsumeKeepsPace(s, key, limit, units, weather)
    case Tally(key, amount, calls) => amount > 0 ==> TallyKeepsPace(s, key, amount, calls)
    case _ => true
  }

  lemma OperationKeepsPaceExactlyWhen(s: Store, op: Operation)
    requires Conservative(s)
    ensures Conservative(Operated(s, op)) <==> KeepsPace(s, op)
  {
    match op
    case Reserve(key, limit, units, weather) => ConsumeKeepsPaceExactlyWhen(s, key, limit, units, weather);
    case Check(key, limit, getFails,
          seed) => if limit != Catalog.UNLIMITED { OpenMeansBelowLimit(s, key, limit, getFails, seed); }
    case Tally(key, amount, calls) => TallyKeepsUp(s, key, amount, calls);
    case GiveBack(_, _, _) =>
  }

  ghost predicate ConservativeThroughout(s: Store, ops: seq<Operation>) {
    Conservative(OperatedAll(s, ops)) && (ops != [] ==> ConservativeThroughout(s, ops[..|ops| - 1]))
  }

  predicate KeepsPaceThroughout(s: Store, ops: seq<Operation>) {
    ops == [] || (KeepsPaceThroughout(s, ops[..|ops| - 1])
          && KeepsPace(OperatedAll(s, ops[..|ops| - 1]), ops[|ops| - 1]))
  }

  /** Over any serial run of the four operations, whatever becomes of their calls, every store on the way is
      conservative, so that no grant on the way passes its limit, exactly when every operation keeps pace. */
  lemma {:induction false} RunIsConservativeExactlyWhen(s: Store, ops: seq<Operation>)
    requires Conservative(s)
    ensures ConservativeThroughout(s, ops) <==> KeepsPaceThroughout(s, ops)
  {
    hide Conservative, KeepsPace, Operated;
    if ops != [] {
      var init := ops[..|ops| - 1];
      RunIsConservativeExactlyWhen(s, init);
      if ConservativeThroughout(s, init) {
        OperationKeepsPaceExactlyWhen(OperatedAll(s, init), ops[|ops| - 1]);
      }
    }
  }

  // ---- conservation over serial requests ----

  /** One handled request of a counted action: the first message of a chat, a booking, a publish or a
      rename. It consumes one unit; if the action then fails it releases it and the transaction rolls
      back, if the gate refuses the transaction rolls back too. */
  datatype Request = Request(key: string, limit: int, actionSucceeds: bool)

  function Served(s: Store, q: Request): Store {
    var (taken, r) := Consumed(s, q.key, q.limit, 1, CLEAR);
    if r.Err? then taken.(rows := s.rows)
    else if q.actionSucceeds then taken
    else Released(taken, q.key, 1, false).(rows := s.rows)
  }

  predicate Counted(s: Store, q: Request) {
    q.actionSucceeds && Consumed(s, q.key, q.limit, 1, CLEAR).1.Ok?
  }

  function Serve(s: Store, queue: seq<Request>): Store {
    if queue == [] then s else Served(Serve(s, queue[..|queue| - 1]), queue[|queue| - 1])
  }

  /** How many requests on `key` were let through and carried out. */
  function Successes(s: Store, queue: seq<Request>, key: string): nat {
    if queue == [] then 0
    else
      var before := queue[..|queue| - 1];
      var last := queue[|queue| - 1];
      Successes(s, before, key) + if last.key == key && Counted(Serve(s, before), last) then 1 else 0
  }

  predicate InStep(s: Store, key: string) {
    Standing(s, key) == RowOf(s, key) >= 0
  }

  /** A request leaves the two layers of every counter in step, and moves its own by one if it succeeds. */
  lemma ServedCounts(s: Store, q: Request, key: string)
    requires InStep(s, q.key) && InStep(s, key)
    ensures InStep(Served(s, q), key)
    ensures RowOf(Served(s, q), key) == RowOf(s, key) + if key == q.key && Counted(s, q) then 1 else 0
  {}

  /** From zero usage and with Redis up, after any serial run both layers of every counter hold the
      number of successful actions on it. */
  lemma {:induction false} CountersEqualSuccesses(queue: seq<Request>, key: string)
    ensures var s, n := Serve(Store(map[], map[]), queue), Successes(Store(map[], map[]), queue, key);
            Standing(s, key) == n && RowOf(s, key) == n
  {
    if queue != [] {
      var before, last := queue[..|queue| - 1], queue[|queue| - 1];
      CountersEqualSuccesses(before, key);
      CountersEqualSuccesses(before, last.key);
      hide Served, Counted, Standing, RowOf;
      ServedCounts(Serve(Store(map[], map[]), before), last, key);
    }
  }

  /** So no more actions succeed on a counter than the largest limit it was ever asked under. */
  lemma {:induction false} SuccessesWithinLimit(queue: seq<Request>, key: string, cap: nat)
    requires forall q :: q in queue && q.key == key ==> 0 <= q.limit <= cap
    ensures Successes(Store(map[], map[]), queue, key) <= cap
  {
    if queue != [] {
      var before, last := queue[..|queue| - 1], queue[|queue| - 1];
      assert queue == before + [last];
      SuccessesWithinLimit(before, key, cap);
      CountersEqualSuccesses(before, key);
    }
  }
}
