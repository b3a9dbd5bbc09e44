/** The Redis cache of resolved snapshots, and why a cached read equals a recomputed one. */
module EntitlementCache {
  import opened Wrappers
  import opened Calendar
  import opened Entitlements

  const ENTITLEMENT_TTL_SECONDS: int := 300
  const TTL_MICROS: int := ENTITLEMENT_TTL_SECONDS * MICROS_PER_SECOND

  /** `expiresAt` is the instant Redis drops the key. */
  datatype Entry = Entry(snapshot: Snapshot, expiresAt: Instant)

  /** The key space: snapshots by catalogue version and user, and the version counter's own key. */
  datatype Redis = Redis(entries: map<(nat, UserId), Entry>, version: Option<nat>)

  /** Which of the two round trips of an operation get through: reading the version, then the key. */
  datatype Link = Link(version: bool, entry: bool)

  const UP: Link := Link(true, true)

  /** A missing counter and an unreachable one both read as 0. */
  function VersionRead(r: Redis, reachable: bool): nat {
    if reachable && r.version.Some? then r.version.value else 0
  }

  function Visible(r: Redis, key: (nat, UserId), now: Instant): Option<Entry> {
    if key in r.entries && now < r.entries[key].expiresAt then Some(r.entries[key]) else None
  }

  function CachedSnapshot(r: Redis, user: UserId, now: Instant, link: Link): Option<Snapshot> {
    match Visible(r, (VersionRead(r, link.version), user), now)
    case Some(e) => if link.entry then Some(e.snapshot) else None
    case None => None
  }

  function Stored(r: Redis, user: UserId, snapshot: Snapshot, ttlSeconds: int, now: Instant, link: Link): Redis
    requires ttlSeconds > 0
  {
    if link.entry then
      r.(entries := r.entries[(VersionRead(r, link.version), user) := Entry(snapshot,
            now + ttlSeconds * MICROS_PER_SECOND)])
    else r
  }

  function Invalidated(r: Redis, user: UserId, link: Link): Redis {
    if link.entry then r.(entries := r.entries - {(VersionRead(r, link.version), user)}) else r
  }

  function Bumped(r: Redis, reachable: bool): Redis {
    if reachable then r.(version := Some(VersionRead(r, true) + 1)) else r
  }

  /** Seconds to cache a snapshot resolved at `now`: never past its `validUntil`. */
  function TimeToLive(snapshot: Snapshot, now: Instant): int {
    if snapshot.validUntil.None? then ENTITLEMENT_TTL_SECONDS
    else Min(ENTITLEMENT_TTL_SECONDS, (snapshot.validUntil.value - now) / MICROS_PER_SECOND)
  }

  /** The cache with its service: every Redis error reads as a miss or a no-op. */
  class EntitlementService {
    var redis: Redis

    constructor ()
      ensures redis == Redis(map[], None)
    {
      redis := Redis(map[], None);
    }

    method Get(db: Database, user: UserId, now: Instant, read: Link, write: Link)
            returns (r: Result<Snapshot, Unavailable>)
      requires PlansExist(db)
      modifies this
      ensures (redis, r) == Read(old(redis), db, user, now, read, write)
    {
      var cached := CachedSnapshot(redis, user, now, read);
      if cached.Some? && Lasting(cached.value.validUntil, now) {
        return Ok(cached.value);
      }
      r := ResolveRows(db, user, now);
      if r.Err? {
        return;
      }
      var ttl := ENTITLEMENT_TTL_SECONDS;
      if r.value.validUntil.Some? {
        ttl := Min(ttl, (r.value.validUntil.value - now) / MICROS_PER_SECOND);
      }
      if ttl > 0 {
        redis := Stored(redis, user, r.value, ttl, now, write);
      }
    }

    method Invalidate(user: UserId, link: Link)
      modifies this
      ensures link.entry ==> forall now :: CachedSnapshot(redis, user, now, link).None?
      ensures redis == Invalidated(old(redis), user, link)
    {
      if link.entry {
        redis := redis.(entries := redis.entries - {(VersionRead(redis, link.version), user)});
      }
    }

    method BumpCatalogVersion(reachable: bool)
      modifies this
      ensures redis == Bumped(old(redis), reachable)
    {
      if reachable {
        redis := redis.(version := Some(if redis.version.Some? then redis.version.value + 1 else 1));
      }
    }
  }

  /** After an invalidation that gets through, the user's next lookup misses, and no other lookup changes. */
  lemma InvalidationHides(r: Redis, user: UserId, now: Instant, link: Link)
    requires link.entry
    ensures CachedSnapshot(Invalidated(r, user, link), user, now, link).None?
    ensures forall other, l ::
          other != user ==>
          CachedSnapshot(Invalidated(r, user, link), other, now, l) == CachedSnapshot(r, other, now, l)
  {}

  /** After a bump that gets through, every user's next lookup misses, provided nothing was filed under a future
      version; which no run with a healthy Redis ever does. */
  lemma BumpHidesEverything(worlds: seq<World>, events: seq<Event>, n: nat, user: UserId, now: Instant)
    requires IsRun(worlds, events) && n <= |events|
    requires forall i :: 0 <= i < n ==> Healthy(worlds[i], events[i])
    ensures CachedSnapshot(Bumped(worlds[n].redis, true), user, now, UP).None?
  {
    HealthyRunsStayFresh(worlds, events, n);
  }

  ghost function Read(r: Redis, db: Database, user: UserId, now: Instant, read: Link, write: Link): (Redis,
          Result<Snapshot, Unavailable>)
    requires PlansExist(db)
  {
    var cached := CachedSnapshot(r, user, now, read);
    if cached.Some? && Lasting(cached.value.validUntil, now) then (r, Ok(cached.value))
    else
      var resolved := Resolve(db, user, now);
      if resolved.Ok? && TimeToLive(resolved.value, now) > 0 then
        (Stored(r, user, resolved.value, TimeToLive(resolved.value, now), now, write), resolved)
      else (r, resolved)
  }

  /** A read that misses files what it resolves whenever that holds for a second or more: for as many whole seconds,
      and for 300 at most. One that hits changes nothing. */
  lemma ReadFills(r: Redis, db: Database, user: UserId, now: Instant, read: Link, write: Link)
    requires PlansExist(db)
    ensures var (after, answer) := Read(r, db, user, now, read, write);
            var cached := CachedSnapshot(r, user, now, read);
            var key := (VersionRead(r, write.version), user);
            if cached.Some? && (cached.value.validUntil.Some? ==> now < cached.value.validUntil.value) then
              after == r && answer == Ok(cached.value)
            else
              && answer == Resolve(db, user, now)
              && (forall k :: k != key ==>
                    (k in after.entries <==> k in r.entries) && (k in r.entries ==> after.entries[k] == r.entries[k]))
              && after.version == r.version
              && if write.entry && answer.Ok?
                    && (answer.value.validUntil.Some? ==> answer.value.validUntil.value >= now + MICROS_PER_SECOND) then
                   && key in after.entries && after.entries[key].snapshot == answer.value
                   && var held := after.entries[key].expiresAt - now;
                   && MICROS_PER_SECOND <= held <= 300 * MICROS_PER_SECOND && held % MICROS_PER_SECOND == 0
                   && (answer.value.validUntil.None? ==> held == 300 * MICROS_PER_SECOND)
                   && (answer.value.validUntil.Some? ==>
                         && now + held <= answer.value.validUntil.value
                         && (held < 300 * MICROS_PER_SECOND ==>
                               answer.value.validUntil.value < now + held + MICROS_PER_SECOND))
                 else after == r
  {
    hide Resolve;
  }

  /** With Redis answering, the next read of the user finds it there until then, whatever the tables say meanwhile. */
  lemma FilledIsFound(r: Redis, db: Database, user: UserId, now: Instant, later: Instant)
    requires PlansExist(db) && Resolve(db, user, now).Ok? && CachedSnapshot(r, user, now, UP).None?
    requires TimeToLive(Resolve(db, user, now).value, now) > 0
    requires now <= later < now + TimeToLive(Resolve(db, user, now).value, now) * MICROS_PER_SECOND
    ensures CachedSnapshot(Read(r, db, user, now, UP, UP).0, user, later, UP) == Some(Resolve(db, user, now).value)
  {
    hide Resolve;
  }

  // ---- runs ----

  /** Each commit and the cache operation after it is one step, and so is each read. */
  datatype Event =
    | Wait(until: Instant)
    | Get(user: UserId, read: Link, write: Link)
    | EditUser(user: UserId, after: Database, link: Link)       // grant, purchase, override, revocation
    | EditCatalog(after: Database, reachable: bool)             // plan and feature edits
    | Housekeep(after: Database)                                // the expiry job: no invalidation at all
    | LoseKeys(keys: set<(nat, UserId)>, version: bool)         // Redis evicts or is flushed

  datatype World = World(db: Database, now: Instant, redis: Redis)

  ghost predicate Enabled(w: World, e: Event) {
    match e
    case Wait(until) => w.now <= until
    case Get(_, _, _) => true
    case EditUser(user, after, _) => PlansExist(after) && forall other: UserId ::
          other != user ==> SameFor(w.db, after, other)
    case EditCatalog(after, _) => PlansExist(after)
    case Housekeep(after) =>
      && after == w.db.(subscriptions := after.subscriptions) && PlansExist(after)
      && SameButLapsed(w.db.subscriptions, after.subscriptions, w.now)
    case LoseKeys(_, _) => true
  }

  ghost function Step(w: World, e: Event): World
    requires PlansExist(w.db)
  {
    match e
    case Wait(until) => w.(now := until)
    case Get(user, read, write) => w.(redis := Read(w.redis, w.db, user, w.now, read, write).0)
    case EditUser(user, after, link) => w.(db := after, redis := Invalidated(w.redis, user, link))
    case EditCatalog(after, reachable) => w.(db := after, redis := Bumped(w.redis, reachable))
    case Housekeep(after) => w.(db := after)
    case LoseKeys(keys, version) =>
      w.(redis := Redis(w.redis.entries - keys, if version then None else w.redis.version))
  }

  /** A run: the world before each event, and after the last one. */
  ghost predicate IsRun(worlds: seq<World>, events: seq<Event>) {
    && |worlds| == |events| + 1
    && worlds[0].redis.entries == map[] && PlansExist(worlds[0].db)
    && forall i :: 0 <= i < |events| ==>
         PlansExist(worlds[i].db) && Enabled(worlds[i], events[i]) && worlds[i + 1] == Step(worlds[i], events[i])
  }

  ghost predicate Healthy(w: World, e: Event) {
    match e
    case Get(_, read, write) => read == UP && write == UP
    case EditUser(_, _, link) => link == UP
    case EditCatalog(_, reachable) => reachable
    case LoseKeys(keys, version) => version ==> w.redis.entries.Keys <= keys
    case _ => true
  }

  // ---- with a healthy Redis, a cached read is a recomputed read ----

  ghost predicate EntryFresh(w: World, key: (nat, UserId))
    requires key in w.redis.entries && PlansExist(w.db)
  {
    var entry := w.redis.entries[key];
    w.now < entry.expiresAt && Lasting(entry.snapshot.validUntil, w.now) ==>
          Resolve(w.db, key.1, w.now) == Ok(entry.snapshot)
  }

  /** No entry is filed under a future version, and what is filed under the current one is true. */
  ghost predicate Fresh(w: World) {
    && PlansExist(w.db)
    && (forall key :: key in w.redis.entries ==> key.0 <= VersionRead(w.redis, true))
    && (forall key :: key in w.redis.entries && key.0 == VersionRead(w.redis, true) ==> EntryFresh(w, key))
  }

  lemma WaitKeepsFresh(w: World, until: Instant)
    requires Fresh(w) && w.now <= until
    ensures Fresh(w.(now := until))
  {
    var w' := w.(now := until);
    forall key | key in w'.redis.entries && key.0 == VersionRead(w'.redis, true) ensures EntryFresh(w', key) {
      assert EntryFresh(w, key);
      var entry := w.redis.entries[key];
      if until < entry.expiresAt && Lasting(entry.snapshot.validUntil, until) {
        SnapshotHoldsUntilValidUntil(w.db, key.1, w.now, until);
      }
    }
  }

  lemma StepKeepsFresh(w: World, e: Event)
    requires Fresh(w) && Enabled(w, e) && Healthy(w, e)
    ensures Fresh(Step(w, e))
  {
    var w' := Step(w, e);
    match e
    case Wait(until) => WaitKeepsFresh(w, until);
    case EditUser(user, after, _) =>
      forall key | key in w'.redis.entries && key.0 == VersionRead(w'.redis, true) ensures EntryFresh(w', key) {
        assert EntryFresh(w, key);
        OthersUnaffected(w.db, after, key.1, w.now);
      }
    case Housekeep(after) =>
      forall key | key in w'.redis.entries && key.0 == VersionRead(w'.redis, true) ensures EntryFresh(w', key) {
        assert EntryFresh(w, key);
        HousekeepingIsInvisible(w.db, after, w.now, key.1, w.now);
      }
    case Get(user, _, _) =>
      forall key | key in w'.redis.entries && key.0 == VersionRead(w'.redis, true) ensures EntryFresh(w', key) {
        assert key in w.redis.entries ==> EntryFresh(w, key);
      }
    case EditCatalog(_, _) =>
    case LoseKeys(_, _) =>
      forall key | key in w'.redis.entries && key.0 == VersionRead(w'.redis, true) ensures EntryFresh(w', key) {
        assert EntryFresh(w, key);
      }
  }

  lemma {:induction false} HealthyRunsStayFresh(worlds: seq<World>, events: seq<Event>, n: nat)
    requires IsRun(worlds, events) && n <= |events|
    requires forall i :: 0 <= i < n ==> Healthy(worlds[i], events[i])
    ensures Fresh(worlds[n])
  {
    if n > 0 {
      HealthyRunsStayFresh(worlds, events, n - 1);
      StepKeepsFresh(worlds[n - 1], events[n - 1]);
    }
  }

  /** Over any run with a healthy Redis, every read returns what the current tables say right now. */
  lemma CachedReadsAreExact(worlds: seq<World>, events: seq<Event>, n: nat, user: UserId)
    requires IsRun(worlds, events) && n <= |events|
    requires forall i :: 0 <= i < n ==> Healthy(worlds[i], events[i])
    ensures PlansExist(worlds[n].db)
    ensures Read(worlds[n].redis, worlds[n].db, user, worlds[n].now, UP, UP).1
          == Resolve(worlds[n].db, user, worlds[n].now)
  {
    HealthyRunsStayFresh(worlds, events, n);
    var key := (VersionRead(worlds[n].redis, true), user);
    assert key in worlds[n].redis.entries ==> EntryFresh(worlds[n], key);
  }

  // ---- with any Redis failures, a read is at most 300 seconds behind ----

  /** World i produced this entry by resolving its own tables at its own time. */
  ghost predicate MadeIn(w: World, user: UserId, entry: Entry) {
    && PlansExist(w.db)
    && Resolve(w.db, user, w.now) == Ok(entry.snapshot)
    && entry.expiresAt <= w.now + TTL_MICROS
  }

  ghost predicate Accounted(worlds: seq<World>, n: nat, key: (nat, UserId))
    requires n < |worlds| && key in worlds[n].redis.entries
  {
    exists i :: 0 <= i <= n && MadeIn(worlds[i], key.1, worlds[n].redis.entries[key])
  }

  lemma NewEntriesAreMade(w: World, e: Event)
    requires PlansExist(w.db) && Enabled(w, e)
    ensures PlansExist(Step(w, e).db) && w.now <= Step(w, e).now
    ensures forall key :: key in Step(w, e).redis.entries ==>
              || (key in w.redis.entries && w.redis.entries[key] == Step(w, e).redis.entries[key])
              || MadeIn(w, key.1, Step(w, e).redis.entries[key])
  {}

  lemma {:induction false} EntriesAreAccounted(worlds: seq<World>, events: seq<Event>, n: nat)
    requires IsRun(worlds, events) && n <= |events|
    ensures PlansExist(worlds[n].db)
    ensures forall i :: 0 <= i <= n ==> worlds[i].now <= worlds[n].now
    ensures forall key :: key in worlds[n].redis.entries ==> Accounted(worlds, n, key)
  {
    if n > 0 {
      EntriesAreAccounted(worlds, events, n - 1);
      var w, w' := worlds[n - 1], worlds[n];
      NewEntriesAreMade(w, events[n - 1]);
      hide Step;
      hide MadeIn;
      forall key | key in w'.redis.entries ensures Accounted(worlds, n, key) {
        if key in w.redis.entries && w.redis.entries[key] == w'.redis.entries[key] {
          assert Accounted(worlds, n - 1, key);
          var i :| 0 <= i <= n - 1 && MadeIn(worlds[i], key.1, w.redis.entries[key]);
        }
      }
    }
  }

  /** Whatever Redis loses, delays or refuses, a successful read is the resolution, at the present
      instant, of tables that were current less than 300 seconds ago. */
  lemma CachedReadsAreBoundedlyStale(worlds: seq<World>, events: seq<Event>, n: nat, user: UserId, read: Link,
          write: Link)
    requires IsRun(worlds, events) && n <= |events|
    ensures PlansExist(worlds[n].db)
    ensures Read(worlds[n].redis, worlds[n].db, user, worlds[n].now, read, write).1.Ok? ==>
      exists i :: 0 <= i <= n && worlds[n].now - TTL_MICROS < worlds[i].now <= worlds[n].now && PlansExist(worlds[i].db)
        && Read(worlds[n].redis, worlds[n].db, user, worlds[n].now, read, write).1
              == Resolve(worlds[i].db, user, worlds[n].now)
  {
    EntriesAreAccounted(worlds, events, n);
    var w := worlds[n];
    var r := Read(w.redis, w.db, user, w.now, read, write).1;
    if r.Ok? {
      var cached := CachedSnapshot(w.redis, user, w.now, read);
      if cached.Some? && Lasting(cached.value.validUntil, w.now) {
        var key := (VersionRead(w.redis, read.version), user);
        assert Accounted(worlds, n, key);
        var i :| 0 <= i <= n && MadeIn(worlds[i], user, w.redis.entries[key]);
        SnapshotHoldsUntilValidUntil(worlds[i].db, user, worlds[i].now, w.now);
      }
    }
  }
}
