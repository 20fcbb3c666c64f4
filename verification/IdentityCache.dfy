/**
 The read-through identity cache of resolve_user over the expiring key store of cache.py.

 resolve_user awaits three times, so one resolution is up to three atomic segments: the
 cache read, the arrival of the auth service's answer, and the cache write. Segments of
 different resolutions interleave freely with record changes, cache deletions and the clock.
 */
module IdentityCache {
  import opened Wrappers
  import opened Permissions

  const TTL := 600

  /** The JSON of the auth service; a missing key is None. */
  datatype UserRecord = UserRecord(
    id: Option<nat>,
    isAdmin: Option<bool>,
    isManager: Option<bool>,
    isApprover: Option<bool>,
    isHr: Option<bool>,
    permissions: Option<seq<string>>)

  function Populate(token: TokenPayload, r: UserRecord): TokenPayload {
    token.(internalUserId := r.id,
           dbIsAdmin := r.isAdmin.GetOr(false),
           dbIsManager := r.isManager.GetOr(false),
           dbIsApprover := r.isApprover.GetOr(false),
           dbIsHr := r.isHr.GetOr(false),
           permissions := r.permissions.GetOr([]))
  }

  /** The auth service answers per user and per roles of the presented token; the cache key has the user only. */
  datatype Query = Query(keycloakId: string, roles: seq<string>)

  function QueryOf(token: TokenPayload): Query {
    Query(token.sub, token.realmRoles)
  }

  function CacheKey(keycloakId: string): string {
    "user_identity:" + keycloakId
  }

  lemma CacheKeyInjective(a: string, b: string)
    ensures CacheKey(a) == CacheKey(b) <==> a == b
  {
    var n := |"user_identity:"|;
    assert CacheKey(a)[n..] == a && CacheKey(b)[n..] == b;
  }

  datatype CacheEntry = CacheEntry(value: UserRecord, expiresAt: int)

  /** A suspended resolution: waiting for the auth service, or for the cache write. */
  datatype Task =
    | Waiting(token: TokenPayload)
    | Sampled(token: TokenPayload, record: UserRecord, at: int)

  datatype State = State(
    now: int,
    auth: map<Query, UserRecord>,
    cache: map<string, CacheEntry>,
    tasks: map<nat, Task>)

  datatype Answer = Fresh | OtherStatus | Unreachable

  datatype Step =
    | Tick(seconds: nat)
    | ChangeRecord(query: Query, record: UserRecord)
    | DropRecord(dropped: Query)
    | Invalidate(keycloakId: string)
    | Begin(task: nat, token: TokenPayload)
    | Receive(task: nat, answer: Answer)
    | Store(task: nat)

  datatype Reply = Resolved(payload: TokenPayload) | Refused(status: nat)

  /**
   A successful reply, field by field: the identity of the token, and the record's own id, flags
   and permissions. A missing flag is False, and a missing list is empty.
   */
  predicate Served(reply: Option<Reply>, token: TokenPayload, record: UserRecord) {
    && reply.Some? && reply.value.Resolved?
    && var payload := reply.value.payload;
       && payload.sub == token.sub && payload.realmRoles == token.realmRoles
       && payload.internalUserId.Some? && payload.internalUserId == record.id
       && (payload.dbIsAdmin <==> record.isAdmin == Some(true))
       && (payload.dbIsManager <==> record.isManager == Some(true))
       && (payload.dbIsApprover <==> record.isApprover == Some(true))
       && (payload.dbIsHr <==> record.isHr == Some(true))
       && payload.permissions == (if record.permissions.Some? then record.permissions.value else [])
  }

  /** A key is visible until its expiry. */
  function LookupAt(cache: map<string, CacheEntry>, now: int, key: string): Option<UserRecord> {
    if key in cache && now < cache[key].expiresAt then Some(cache[key].value) else None
  }

  function Lookup(s: State, key: string): Option<UserRecord> {
    LookupAt(s.cache, s.now, key)
  }

  /** `d` bounds the time from sampling the auth service to writing the cache. */
  predicate Enabled(s: State, step: Step, d: nat) {
    match step
    case Begin(task, _) => task !in s.tasks
    case Receive(task, _) => task in s.tasks && s.tasks[task].Waiting?
    case Store(task) => task in s.tasks && s.tasks[task].Sampled? && s.now <= s.tasks[task].at + d
    case _ => true
  }

  function Next(s: State, step: Step, d: nat): State
    requires Enabled(s, step, d)
  {
    match step
    case Tick(seconds) => s.(now := s.now + seconds)
    case ChangeRecord(q, record) => s.(auth := s.auth[q := record])
    case DropRecord(q) => s.(auth := s.auth - {q})
    case Invalidate(k) => s.(cache := s.cache - {CacheKey(k)})
    case Begin(task, token) =>
      if Lookup(s, CacheKey(token.sub)).Some? then s else s.(tasks := s.tasks[task := Waiting(token)])
    case Receive(task, answer) =>
      var token := s.tasks[task].token;
      var q := QueryOf(token);
      if answer.Fresh? && q in s.auth && s.auth[q].id.Some?
      then s.(tasks := s.tasks[task := Sampled(token, s.auth[q], s.now)])
      else s.(tasks := s.tasks - {task})
    case Store(task) =>
      var t := s.tasks[task];
      s.(cache := s.cache[CacheKey(t.token.sub) := CacheEntry(t.record, s.now + TTL)], tasks := s.tasks - {task})
  }

  /** What the caller of resolve_user gets when this step ends its resolution. */
  function ReplyOf(s: State, step: Step, d: nat): Option<Reply>
    requires Enabled(s, step, d)
  {
    match step
    case Begin(_, token) =>
      (match Lookup(s, CacheKey(token.sub))
       case None => None
       case Some(r) => Some(if r.id.Some? then Resolved(Populate(token, r)) else Refused(500)))
    case Receive(task, answer) =>
      var q := QueryOf(s.tasks[task].token);
      (match answer
       case OtherStatus => Some(Refused(500))
       case Unreachable => Some(Refused(503))
       case Fresh =>
         if q !in s.auth then Some(Refused(401))
         else if s.auth[q].id.None? then Some(Refused(500))
         else None)
    case Store(task) => Some(Resolved(Populate(s.tasks[task].token, s.tasks[task].record)))
    case _ => None
  }

  // ---------------------------------------------------------------- the code as it runs

  /** The Redis client of cache.py; the clock and the writer of `auth` are the environment. */
  class IdentityService {
    var now: int
    var auth: map<Query, UserRecord>
    var cache: map<string, CacheEntry>
    var tasks: map<nat, Task>
    ghost const d: nat

    constructor (now: int, ghost d: nat)
      ensures View() == State(now, map[], map[], map[]) && this.d == d
    {
      this.now, this.auth, this.cache, this.tasks := now, map[], map[], map[];
      this.d := d;
    }

    ghost function View(): State
      reads this
    {
      State(now, auth, cache, tasks)
    }

    method CacheSet(key: string, value: UserRecord, expireSeconds: nat)
      modifies this`cache
      ensures cache == old(cache)[key := CacheEntry(value, now + expireSeconds)]
      ensures forall t :: LookupAt(cache, t, key) == if t < now + expireSeconds then Some(value) else None
      ensures forall t, other :: other != key ==> LookupAt(cache, t, other) == LookupAt(old(cache), t, other)
    {
      cache := cache[key := CacheEntry(value, now + expireSeconds)];
    }

    method CacheGet(key: string) returns (value: Option<UserRecord>)
      ensures value == Lookup(View(), key)
    {
      if key in cache && now < cache[key].expiresAt {
        value := Some(cache[key].value);
      } else {
        value := None;
      }
    }

    /** cache_delete, called by the auth service after it has updated a user. */
    method CacheDelete(keycloakId: string)
      modifies this`cache
      ensures View() == Next(old(View()), Invalidate(keycloakId), d)
      ensures forall t, key :: LookupAt(cache, t, key) ==
                               if key == CacheKey(keycloakId) then None else LookupAt(old(cache), t, key)
    {
      cache := cache - {CacheKey(keycloakId)};
    }

    /** resolve_user up to its first suspension after the cache read. */
    method ResolveBegin(task: nat, token: TokenPayload) returns (reply: Option<Reply>)
      requires Enabled(View(), Begin(task, token), d)
      modifies this`tasks
      ensures View() == Next(old(View()), Begin(task, token), d)
      ensures reply == ReplyOf(old(View()), Begin(task, token), d)
      ensures reply.Some? && reply.value.Resolved? ==>
                Served(reply, token, Lookup(old(View()), CacheKey(token.sub)).value)
    {
      var cached := CacheGet(CacheKey(token.sub));
      match cached {
        case Some(data) =>
          if data.id.None? {
            return Some(Refused(500));
          }
          var payload := token;
          payload := payload.(internalUserId := data.id);
          payload := payload.(dbIsAdmin := data.isAdmin.GetOr(false), dbIsManager := data.isManager.GetOr(false));
          payload := payload.(dbIsApprover := data.isApprover.GetOr(false), dbIsHr := data.isHr.GetOr(false));
          payload := payload.(permissions := data.permissions.GetOr([]));
          reply := Some(Resolved(payload));
        case None =>
          tasks := tasks[task := Waiting(token)];
          reply := None;
      }
    }

    /** The answer of the auth service arrives. */
    method ResolveReceive(task: nat, answer: Answer) returns (reply: Option<Reply>)
      requires Enabled(View(), Receive(task, answer), d)
      modifies this`tasks
      ensures View() == Next(old(View()), Receive(task, answer), d)
      ensures reply == ReplyOf(old(View()), Receive(task, answer), d)
    {
      var token := tasks[task].token;
      var q := QueryOf(token);
      match answer {
        case Unreachable =>
          tasks, reply := tasks - {task}, Some(Refused(503));
        case OtherStatus =>
          tasks, reply := tasks - {task}, Some(Refused(500));
        case Fresh =>
          if q !in auth {
            tasks, reply := tasks - {task}, Some(Refused(401));
          } else if auth[q].id.None? {
            tasks, reply := tasks - {task}, Some(Refused(500));
          } else {
            tasks, reply := tasks[task := Sampled(token, auth[q], now)], None;
          }
      }
    }

    /** The cache write and the return that follows it. */
    method ResolveStore(task: nat) returns (reply: Option<Reply>)
      requires Enabled(View(), Store(task), d)
      modifies this`tasks, this`cache
      ensures View() == Next(old(View()), Store(task), d)
      ensures reply == ReplyOf(old(View()), Store(task), d)
      ensures old(tasks[task]).record.id.Some? ==> Served(reply, old(tasks[task]).token, old(tasks[task]).record)
    {
      var sampled := tasks[task];
      CacheSet(CacheKey(sampled.token.sub), sampled.record, TTL);
      tasks := tasks - {task};
      reply := Some(Resolved(Populate(sampled.token, sampled.record)));
    }
  }

  // ---------------------------------------------------------------- executions

  /** Any interleaving, from an empty cache with nothing in flight. */
  ghost predicate Execution(states: seq<State>, steps: seq<Step>, d: nat) {
    && |states| == |steps| + 1
    && states[0].cache == map[] && states[0].tasks == map[]
    && forall i :: 0 <= i < |steps| ==>
         Enabled(states[i], steps[i], d) && states[i + 1] == Next(states[i], steps[i], d)
  }

  /** At step j, between `from` and n, the auth service answered the token `asker` with `record`. */
  ghost predicate AnsweredAt(
    states: seq<State>, steps: seq<Step>, from: nat, n: nat, j: int, asker: TokenPayload, record: UserRecord)
    requires n <= |steps| && n < |states|
  {
    && from <= j < n
    && steps[j].Receive? && steps[j].answer.Fresh?
    && steps[j].task in states[j].tasks && states[j].tasks[steps[j].task] == Waiting(asker)
    && QueryOf(asker) in states[j].auth && states[j].auth[QueryOf(asker)] == record && record.id.Some?
  }

  /** Step h writes or deletes the key of k. */
  ghost predicate Touches(states: seq<State>, steps: seq<Step>, h: nat, k: string)
    requires h < |steps| && h < |states|
  {
    || steps[h] == Invalidate(k)
    || (steps[h].Store? && steps[h].task in states[h].tasks && states[h].tasks[steps[h].task].token.sub == k)
  }

  /** Step i is the last before n that touches the key of k, and it stores the answer of t. */
  ghost predicate LastStored(states: seq<State>, steps: seq<Step>, i: int, n: nat, k: string, t: Task)
    requires n <= |steps| && n < |states|
  {
    && 0 <= i < n && steps[i].Store? && Touches(states, steps, i, k)
    && states[i].tasks[steps[i].task] == t && t.Sampled?
    && forall h :: i < h < n ==> !Touches(states, steps, h, k)
  }

  /** The entry of k is that of the last store, whose answer had been received at step j. */
  ghost predicate EntryKnown(
    states: seq<State>, steps: seq<Step>, from: nat, n: nat, d: nat, k: string, i: int, j: int, t: Task)
    requires n <= |steps| && n < |states|
  {
    && LastStored(states, steps, i, n, k, t)
    && CacheKey(k) in states[n].cache && states[n].cache[CacheKey(k)] == CacheEntry(t.record, states[i].now + TTL)
    && AnsweredAt(states, steps, from, n, j, t.token, t.record)
    && states[i].now <= states[j].now + d
  }

  /**
   Whatever the cache or a suspended resolution knows about k was answered at or after `from`:
   the entry by the last store, and the sampled record to the token of that resolution.
   */
  ghost predicate KnownSince(states: seq<State>, steps: seq<Step>, from: nat, n: nat, d: nat, k: string)
    requires n <= |steps| && n < |states|
  {
    && (CacheKey(k) in states[n].cache ==>
          exists i, j, t :: EntryKnown(states, steps, from, n, d, k, i, j, t))
    && (forall task :: task in states[n].tasks && states[n].tasks[task].Sampled?
                       && states[n].tasks[task].token.sub == k ==>
          var t := states[n].tasks[task];
          exists j :: AnsweredAt(states, steps, from, n, j, t.token, t.record) && states[j].now == t.at)
  }

  lemma {:induction false} TimePasses(states: seq<State>, steps: seq<Step>, d: nat, i: nat, j: nat)
    requires Execution(states, steps, d) && i <= j < |states|
    ensures states[i].now <= states[j].now
    decreases j
  {
    if i < j {
      TimePasses(states, steps, d, i, j - 1);
    }
  }

  lemma CacheUntouched(states: seq<State>, steps: seq<Step>, n: nat, d: nat, k: string)
    requires Execution(states, steps, d) && n < |steps| && !Touches(states, steps, n, k)
    ensures CacheKey(k) in states[n + 1].cache <==> CacheKey(k) in states[n].cache
    ensures CacheKey(k) in states[n].cache ==> states[n + 1].cache[CacheKey(k)] == states[n].cache[CacheKey(k)]
  {
    var step := steps[n];
    if step.Store? {
      CacheKeyInjective(states[n].tasks[step.task].token.sub, k);
    } else if step.Invalidate? {
      CacheKeyInjective(step.keycloakId, k);
    }
  }

  lemma CacheKnownStep(states: seq<State>, steps: seq<Step>, from: nat, n: nat, d: nat, k: string)
    returns (i: int, j: int, t: Task)
    requires Execution(states, steps, d) && from <= n < |steps| && KnownSince(states, steps, from, n, d, k)
    requires CacheKey(k) in states[n + 1].cache
    ensures EntryKnown(states, steps, from, n + 1, d, k, i, j, t)
  {
    if Touches(states, steps, n, k) {
      i, t := n, states[n].tasks[steps[n].task];
      j :| AnsweredAt(states, steps, from, n, j, t.token, t.record) && states[j].now == t.at;
    } else {
      CacheUntouched(states, steps, n, d, k);
      i, j, t :| EntryKnown(states, steps, from, n, d, k, i, j, t);
    }
  }

  lemma KnownSinceStep(states: seq<State>, steps: seq<Step>, from: nat, n: nat, d: nat, k: string)
    requires Execution(states, steps, d) && from <= n < |steps| && KnownSince(states, steps, from, n, d, k)
    ensures KnownSince(states, steps, from, n + 1, d, k)
  {
    var s, s' := states[n], states[n + 1];
    if CacheKey(k) in s'.cache {
      var i, j, t := CacheKnownStep(states, steps, from, n, d, k);
    }
    forall task | task in s'.tasks && s'.tasks[task].Sampled? && s'.tasks[task].token.sub == k
      ensures exists j :: AnsweredAt(states, steps, from, n + 1, j, s'.tasks[task].token, s'.tasks[task].record)
                          && states[j].now == s'.tasks[task].at
    {
      var t := s'.tasks[task];
      if task !in s.tasks || s.tasks[task] != t {
        assert AnsweredAt(states, steps, from, n + 1, n, t.token, t.record);
      } else {
        var j :| AnsweredAt(states, steps, from, n, j, t.token, t.record) && states[j].now == t.at;
        assert AnsweredAt(states, steps, from, n + 1, j, t.token, t.record);
      }
    }
  }

  lemma {:induction false} KnownSinceAlways(
    states: seq<State>, steps: seq<Step>, from: nat, n: nat, d: nat, k: string)
    requires Execution(states, steps, d) && from <= n < |states| && KnownSince(states, steps, from, from, d, k)
    ensures KnownSince(states, steps, from, n, d, k)
    decreases n
  {
    if from < n {
      KnownSinceAlways(states, steps, from, n - 1, d, k);
      KnownSinceStep(states, steps, from, n - 1, d, k);
    }
  }

  lemma {:induction false} EntryOfLastStore(
    states: seq<State>, steps: seq<Step>, i: nat, n: nat, d: nat, k: string, t: Task)
    requires Execution(states, steps, d) && n < |states| && LastStored(states, steps, i, n, k, t)
    ensures CacheKey(k) in states[n].cache && states[n].cache[CacheKey(k)] == CacheEntry(t.record, states[i].now + TTL)
    decreases n
  {
    if i < n - 1 {
      EntryOfLastStore(states, steps, i, n - 1, d, k, t);
      CacheUntouched(states, steps, n - 1, d, k);
    }
  }

  /**
   What the cache shows, by the history: a record is visible under the key of k iff the last
   write or deletion of that key stored it less than 600 seconds ago.
   */
  lemma VisibleIffStored(states: seq<State>, steps: seq<Step>, n: nat, d: nat, k: string, record: UserRecord)
    requires Execution(states, steps, d) && n < |states|
    ensures Lookup(states[n], CacheKey(k)) == Some(record) <==>
            exists i, t :: LastStored(states, steps, i, n, k, t)
                           && t.record == record && states[n].now < states[i].now + TTL
  {
    KnownSinceAlways(states, steps, 0, n, d, k);
    forall i, t | LastStored(states, steps, i, n, k, t)
      ensures CacheKey(k) in states[n].cache
      ensures states[n].cache[CacheKey(k)] == CacheEntry(t.record, states[i].now + TTL)
    {
      EntryOfLastStore(states, steps, i, n, d, k, t);
    }
  }

  /** The token whose resolution ends at step n. */
  ghost predicate ResolvesToken(states: seq<State>, steps: seq<Step>, n: nat, token: TokenPayload)
    requires n < |steps| && n < |states|
  {
    || (steps[n].Begin? && token == steps[n].token)
    || (steps[n].Store? && steps[n].task in states[n].tasks && token == states[n].tasks[steps[n].task].token)
  }

  /** A resolution of k that ends successfully at step n. */
  ghost predicate Resolves(states: seq<State>, steps: seq<Step>, n: nat, d: nat, k: string)
    requires Execution(states, steps, d) && n < |steps|
  {
    var reply := ReplyOf(states[n], steps[n], d);
    reply.Some? && reply.value.Resolved? && reply.value.payload.sub == k
  }

  /** The answer that a successful resolution carries, and the token that had asked for it. */
  lemma ResolvedWitness(states: seq<State>, steps: seq<Step>, from: nat, n: nat, d: nat, k: string)
    returns (j: nat, asker: TokenPayload, token: TokenPayload, record: UserRecord)
    requires Execution(states, steps, d) && from <= n < |steps| && KnownSince(states, steps, from, from, d, k)
    requires Resolves(states, steps, n, d, k)
    ensures AnsweredAt(states, steps, from, n, j, asker, record) && asker.sub == k
    ensures states[n].now - TTL - d <= states[j].now <= states[n].now
    ensures ReplyOf(states[n], steps[n], d) == Some(Resolved(Populate(token, record)))
    ensures ResolvesToken(states, steps, n, token) && token.sub == k
    ensures steps[n].Store? ==> asker == token
    ensures steps[n].Begin? ==> exists i, t :: LastStored(states, steps, i, n, k, t) && t.token == asker
  {
    KnownSinceAlways(states, steps, from, n, d, k);
    var s := states[n];
    if steps[n].Begin? {
      var i, t;
      i, j, t :| EntryKnown(states, steps, from, n, d, k, i, j, t);
      token, asker, record := steps[n].token, t.token, t.record;
    } else {
      var t := s.tasks[steps[n].task];
      token, asker, record := t.token, t.token, t.record;
      j :| AnsweredAt(states, steps, from, n, j, t.token, t.record) && states[j].now == t.at;
    }
    TimePasses(states, steps, d, j, n);
  }

  /**
   Bounded staleness: a payload returned at time t carries the record that the auth service
   answered to some token of that keycloak id at some instant in [t - 600 - d, t]: after a cache
   miss to the presented token, on a hit to the token of the last store under the key.
   */
  lemma BoundedStaleness(states: seq<State>, steps: seq<Step>, n: nat, d: nat)
    returns (j: nat, asker: TokenPayload, token: TokenPayload, record: UserRecord)
    requires Execution(states, steps, d) && n < |steps|
    requires ReplyOf(states[n], steps[n], d).Some? && ReplyOf(states[n], steps[n], d).value.Resolved?
    ensures AnsweredAt(states, steps, 0, n, j, asker, record) && asker.sub == token.sub
    ensures states[n].now - TTL - d <= states[j].now <= states[n].now
    ensures ReplyOf(states[n], steps[n], d) == Some(Resolved(Populate(token, record)))
    ensures ResolvesToken(states, steps, n, token)
    ensures steps[n].Store? ==> asker == token
    ensures steps[n].Begin? ==> exists i, t :: LastStored(states, steps, i, n, token.sub, t) && t.token == asker
  {
    j, asker, token, record :=
      ResolvedWitness(states, steps, 0, n, d, ReplyOf(states[n], steps[n], d).value.payload.sub);
  }

  // ---------------------------------------------------------------- whose answer it is

  /** At step j the auth service answers q with the record. */
  ghost predicate AnswersQuery(states: seq<State>, steps: seq<Step>, j: nat, q: Query, record: UserRecord)
    requires j < |steps| && j + 1 < |states|
  {
    exists asker :: QueryOf(asker) == q && AnsweredAt(states, steps, 0, j + 1, j, asker, record)
  }

  /**
   On a cache hit the payload carries the answer that the last store under the key had received.
   That was an answer to the presented token's own query iff the storing token had its roles.
   */
  lemma HitAnswersOwnQueryIff(states: seq<State>, steps: seq<Step>, n: nat, d: nat)
    returns (i: nat, t: Task, j: nat)
    requires Execution(states, steps, d) && n < |steps| && steps[n].Begin?
    requires Lookup(states[n], CacheKey(steps[n].token.sub)).Some?
    ensures LastStored(states, steps, i, n, steps[n].token.sub, t)
    ensures AnsweredAt(states, steps, 0, i, j, t.token, t.record) && states[j].now == t.at
    ensures ReplyOf(states[n], steps[n], d) == Some(Resolved(Populate(steps[n].token, t.record)))
    ensures AnswersQuery(states, steps, j, QueryOf(steps[n].token), t.record) <==>
            t.token.realmRoles == steps[n].token.realmRoles
  {
    var k := steps[n].token.sub;
    VisibleIffStored(states, steps, n, d, k, Lookup(states[n], CacheKey(k)).value);
    i, t :| LastStored(states, steps, i, n, k, t) && Lookup(states[n], CacheKey(k)) == Some(t.record);
    KnownSinceAlways(states, steps, 0, i, d, k);
    j :| AnsweredAt(states, steps, 0, i, j, t.token, t.record) && states[j].now == t.at;
    assert AnsweredAt(states, steps, 0, j + 1, j, t.token, t.record);
  }

  lemma {:induction false} TaskWasBegun(states: seq<State>, steps: seq<Step>, n: nat, d: nat, task: nat)
    returns (b: nat)
    requires Execution(states, steps, d) && n < |states| && task in states[n].tasks
    ensures b < n && steps[b].Begin? && steps[b].token == states[n].tasks[task].token
  {
    if task in states[n - 1].tasks && states[n - 1].tasks[task].token == states[n].tasks[task].token {
      b := TaskWasBegun(states, steps, n - 1, d, task);
    } else {
      b := n - 1;
    }
  }

  /**
   If every token of user k that was presented up to n had the same roles, each resolution of k
   carries an answer to the presented token's own query, at most 600 + d seconds old.
   */
  lemma SameRolesOwnAnswer(
    states: seq<State>, steps: seq<Step>, n: nat, d: nat, k: string, roles: seq<string>)
    returns (j: nat, token: TokenPayload, record: UserRecord)
    requires Execution(states, steps, d) && n < |steps| && Resolves(states, steps, n, d, k)
    requires forall b :: 0 <= b <= n && steps[b].Begin? && steps[b].token.sub == k ==>
                           steps[b].token.realmRoles == roles
    ensures ResolvesToken(states, steps, n, token)
    ensures j < n && AnswersQuery(states, steps, j, QueryOf(token), record)
    ensures states[n].now - TTL - d <= states[j].now <= states[n].now
    ensures ReplyOf(states[n], steps[n], d) == Some(Resolved(Populate(token, record)))
  {
    var asker;
    j, asker, token, record := BoundedStaleness(states, steps, n, d);
    var b := TaskWasBegun(states, steps, j, d, steps[j].task);
    if steps[n].Store? {
      var b' := TaskWasBegun(states, steps, n, d, steps[n].task);
    }
    assert QueryOf(asker) == QueryOf(token);
    assert AnsweredAt(states, steps, 0, j + 1, j, asker, record);
  }

  /**
   Failures are never cached, a cache hit never fails, and 401 means that the auth service does
   not know the user.
   */
  lemma OnlySuccessIsCached(states: seq<State>, steps: seq<Step>, n: nat, d: nat)
    requires Execution(states, steps, d) && n < |steps|
    requires ReplyOf(states[n], steps[n], d).Some? && ReplyOf(states[n], steps[n], d).value.Refused?
    ensures steps[n].Receive? && states[n + 1].cache == states[n].cache && steps[n].task !in states[n + 1].tasks
    ensures ReplyOf(states[n], steps[n], d) == Some(Refused(401)) <==>
            && steps[n].Receive? && steps[n].answer.Fresh?
            && var token := states[n].tasks[steps[n].task].token;
               Query(token.sub, token.realmRoles) !in states[n].auth
  {
    if steps[n].Begin? {
      KnownSinceAlways(states, steps, 0, n, d, steps[n].token.sub);
    }
  }

  /** An answer either refuses the caller or samples a usable record, and each refusal tells its cause. */
  lemma AnswerDecides(s: State, task: nat, answer: Answer, d: nat)
    requires Enabled(s, Receive(task, answer), d)
    ensures var token, reply := s.tasks[task].token, ReplyOf(s, Receive(task, answer), d);
            var q := Query(token.sub, token.realmRoles);
            && (reply == None <==> answer.Fresh? && q in s.auth && s.auth[q].id.Some?)
            && (reply == Some(Refused(401)) <==> answer.Fresh? && q !in s.auth)
            && (reply == Some(Refused(503)) <==> answer.Unreachable?)
            && (reply == Some(Refused(500)) <==>
                  answer.OtherStatus? || (answer.Fresh? && q in s.auth && s.auth[q].id.None?))
  {
  }

  // ---------------------------------------------------------------- what the payload holds

  /**
   Every field of a successful payload: the identity is that of the presented token, and the
   rest is the record of an answer about that user, at most 600 + d seconds old.
   */
  lemma PayloadFields(states: seq<State>, steps: seq<Step>, n: nat, d: nat)
    returns (j: nat, asker: TokenPayload, token: TokenPayload, record: UserRecord)
    requires Execution(states, steps, d) && n < |steps|
    requires ReplyOf(states[n], steps[n], d).Some? && ReplyOf(states[n], steps[n], d).value.Resolved?
    ensures j < n && steps[j].Receive? && asker.sub == token.sub && ResolvesToken(states, steps, n, token)
    ensures Query(asker.sub, asker.realmRoles) in states[j].auth
    ensures states[j].auth[Query(asker.sub, asker.realmRoles)] == record
    ensures states[n].now - 600 - d <= states[j].now <= states[n].now
    ensures Served(ReplyOf(states[n], steps[n], d), token, record)
  {
    j, asker, token, record := BoundedStaleness(states, steps, n, d);
  }

  /**
   A permission passes exactly for the realm admin role, for the record's admin flag, or for an
   entry of the record: any entry of the code, or with a scope that entry or the GLOBAL one.
   */
  lemma ServedPermissionIff(
    states: seq<State>, steps: seq<Step>, n: nat, d: nat, permission: string, scope: string)
    returns (j: nat, asker: TokenPayload, token: TokenPayload, record: UserRecord)
    requires Execution(states, steps, d) && n < |steps|
    requires ReplyOf(states[n], steps[n], d).Some? && ReplyOf(states[n], steps[n], d).value.Resolved?
    ensures AnsweredAt(states, steps, 0, n, j, asker, record) && asker.sub == token.sub
    ensures ResolvesToken(states, steps, n, token)
    ensures var payload := ReplyOf(states[n], steps[n], d).value.payload;
            var entries := if record.permissions.Some? then record.permissions.value else [];
            var admin := "admin" in token.realmRoles || record.isAdmin == Some(true);
            && (payload.HasPermission(permission, None) <==> admin || exists p <- entries :: permission + ":" <= p)
            && (scope != "" ==>
                  (payload.HasPermission(permission, Some(scope)) <==>
                   admin || permission + ":GLOBAL" in entries || permission + ":" + scope in entries))
  {
    j, asker, token, record := BoundedStaleness(states, steps, n, d);
    PermissionMeaning(ReplyOf(states[n], steps[n], d).value.payload, permission, scope);
  }

  /**
   Reading through: a miss that the auth service answers is resolved and cached, and any token of
   that user that is presented less than 600 seconds later gets the same record without a request.
   */
  lemma ReadThrough(s: State, d: nat, task: nat, token: TokenPayload, seconds: nat, task': nat, later: TokenPayload)
    requires task !in s.tasks && task' !in s.tasks && later.sub == token.sub && seconds < 600
    requires "user_identity:" + token.sub !in s.cache
    requires Query(token.sub, token.realmRoles) in s.auth && s.auth[Query(token.sub, token.realmRoles)].id.Some?
    ensures var record := s.auth[Query(token.sub, token.realmRoles)];
            var asked := Next(s, Begin(task, token), d);
            && ReplyOf(s, Begin(task, token), d) == None && Enabled(asked, Receive(task, Fresh), d)
            && var sampled := Next(asked, Receive(task, Fresh), d);
               && ReplyOf(asked, Receive(task, Fresh), d) == None && Enabled(sampled, Store(task), d)
               && var stored := Next(sampled, Store(task), d);
                  && stored.tasks == s.tasks && stored.auth == s.auth
                  && stored.cache == s.cache["user_identity:" + token.sub := CacheEntry(record, s.now + 600)]
                  && Served(ReplyOf(sampled, Store(task), d), token, record)
                  && Served(ReplyOf(Next(stored, Tick(seconds), d), Begin(task', later), d), later, record)
  {
    assert s.tasks[task := Waiting(token)] - {task} == s.tasks;
  }

  /** The record gives neither the admin flag nor any grant of the permission. */
  predicate Withholds(record: UserRecord, permission: string) {
    && record.isAdmin.GetOr(false) == false
    && forall p <- record.permissions.GetOr([]) :: !(permission + ":" <= p)
  }

  /**
   Bounded revocation: 600 + d seconds after step m the permission is gone, if no answer about
   the user that is received from m on grants it, whatever the cause of the revocation.
   */
  lemma RevocationIsBounded(
    states: seq<State>, steps: seq<Step>, m: nat, n: nat, d: nat, k: string, permission: string, scope: Option<string>)
    requires Execution(states, steps, d) && m <= n < |steps| && Resolves(states, steps, n, d, k)
    requires forall i, asker, r :: AnsweredAt(states, steps, m, n, i, asker, r) && asker.sub == k ==>
                                     Withholds(r, permission)
    requires states[n].now > states[m].now + TTL + d
    ensures var payload := ReplyOf(states[n], steps[n], d).value.payload;
            !payload.HasRole("admin") ==> !payload.HasPermission(permission, scope)
  {
    var payload := ReplyOf(states[n], steps[n], d).value.payload;
    var j, asker, token, record := BoundedStaleness(states, steps, n, d);
    if j < m {
      TimePasses(states, steps, d, j, m);
    }
    assert AnsweredAt(states, steps, m, n, j, asker, record);
    assert permission + ":" <= permission + ":GLOBAL";
    if payload.HasPermission(permission, scope) {
      ScopedImpliesUnscoped(payload, permission, scope);
    }
  }

  /**
   Deleting the cache key takes effect at once, unless an answer sampled before is still on
   its way to the cache: from then on every resolution carries a record held since the deletion.
   */
  lemma InvalidationIsImmediate(states: seq<State>, steps: seq<Step>, m: nat, n: nat, d: nat, k: string)
    returns (j: nat, asker: TokenPayload, token: TokenPayload, record: UserRecord)
    requires Execution(states, steps, d) && m < n < |steps|
    requires steps[m] == Invalidate(k)
    requires forall task :: task in states[m].tasks && states[m].tasks[task].Sampled? ==>
                              states[m].tasks[task].token.sub != k
    requires Resolves(states, steps, n, d, k)
    ensures AnsweredAt(states, steps, m + 1, n, j, asker, record) && asker.sub == k
    ensures ResolvesToken(states, steps, n, token)
    ensures ReplyOf(states[n], steps[n], d) == Some(Resolved(Populate(token, record)))
  {
    j, asker, token, record := ResolvedWitness(states, steps, m + 1, n, d, k);
  }

  // ---------------------------------------------------------------- the bound is tight

  ghost predicate Reaches(states: seq<State>, steps: seq<Step>, d: nat, last: State) {
    Execution(states, steps, d) && states[|steps|] == last
  }

  lemma Extend(states: seq<State>, steps: seq<Step>, d: nat, s: State, step: Step, s': State)
    requires Reaches(states, steps, d, s) && Enabled(s, step, d) && s' == Next(s, step, d)
    ensures Reaches(states + [s'], steps + [step], d, s')
  {
  }

  function Overtaken(start: int, token: TokenPayload, older: UserRecord, newer: UserRecord): State {
    State(start, map[QueryOf(token) := newer], map[], map[0 := Sampled(token, older, start)])
  }

  /** A slow resolution samples `older`; then the record changes and the key is deleted. */
  lemma SlowResolution(start: int, d: nat, token: TokenPayload, older: UserRecord, newer: UserRecord)
    returns (states: seq<State>, steps: seq<Step>)
    requires older.id.Some?
    ensures Reaches(states, steps, d, Overtaken(start, token, older, newer)) && |steps| == 5
    ensures steps[4] == Invalidate(token.sub) && states[4] == Overtaken(start, token, older, newer)
  {
    var k := token.sub;
    var s0 := State(start, map[], map[], map[]);
    var s1 := State(start, map[QueryOf(token) := older], map[], map[]);
    var s2 := State(start, map[QueryOf(token) := older], map[], map[0 := Waiting(token)]);
    var s3 := State(start, map[QueryOf(token) := older], map[], map[0 := Sampled(token, older, start)]);
    var s4 := Overtaken(start, token, older, newer);
    states, steps := [s0], [];
    Extend(states, steps, d, s0, ChangeRecord(QueryOf(token), older), s1);
    states, steps := states + [s1], steps + [ChangeRecord(QueryOf(token), older)];
    Extend(states, steps, d, s1, Begin(0, token), s2);
    states, steps := states + [s2], steps + [Begin(0, token)];
    Extend(states, steps, d, s2, Receive(0, Fresh), s3);
    states, steps := states + [s3], steps + [Receive(0, Fresh)];
    Extend(states, steps, d, s3, ChangeRecord(QueryOf(token), newer), s4);
    states, steps := states + [s4], steps + [ChangeRecord(QueryOf(token), newer)];
    Extend(states, steps, d, s4, Invalidate(k), s4);
    states, steps := states + [s4], steps + [Invalidate(k)];
  }

  /** A faster resolution stores `newer`. */
  lemma FastResolution(start: int, d: nat, token: TokenPayload, older: UserRecord, newer: UserRecord)
    returns (states: seq<State>, steps: seq<Step>)
    requires older.id.Some? && newer.id.Some?
    ensures var fresh' := map[CacheKey(token.sub) := CacheEntry(newer, start + TTL)];
            Reaches(states, steps, d, Overtaken(start, token, older, newer).(cache := fresh'))
    ensures |steps| == 8 && steps[4] == Invalidate(token.sub) && states[4].now == start
    ensures forall j :: 4 <= j < |states| ==> states[j].auth == map[QueryOf(token) := newer]
  {
    states, steps := SlowResolution(start, d, token, older, newer);
    var s5 := Overtaken(start, token, older, newer);
    var s6 := s5.(tasks := s5.tasks[1 := Waiting(token)]);
    var s7 := s5.(tasks := s5.tasks[1 := Sampled(token, newer, start)]);
    var s8 := s5.(cache := map[CacheKey(token.sub) := CacheEntry(newer, start + TTL)]);
    Extend(states, steps, d, s5, Begin(1, token), s6);
    states, steps := states + [s6], steps + [Begin(1, token)];
    Extend(states, steps, d, s6, Receive(1, Fresh), s7);
    states, steps := states + [s7], steps + [Receive(1, Fresh)];
    assert s7.tasks - {1} == s8.tasks;
    Extend(states, steps, d, s7, Store(1), s8);
    states, steps := states + [s8], steps + [Store(1)];
  }

  /** After d seconds the slow resolution overwrites it. */
  lemma OlderOverwritesNewer(start: int, d: nat, token: TokenPayload, older: UserRecord, newer: UserRecord)
    returns (states: seq<State>, steps: seq<Step>)
    requires older.id.Some? && newer.id.Some?
    ensures var stale := map[CacheKey(token.sub) := CacheEntry(older, start + d + TTL)];
            Reaches(states, steps, d, State(start + d, map[QueryOf(token) := newer], stale, map[]))
    ensures |steps| == 10 && steps[4] == Invalidate(token.sub) && states[4].now == start
    ensures forall j :: 4 <= j < |states| ==> states[j].auth == map[QueryOf(token) := newer]
  {
    states, steps := FastResolution(start, d, token, older, newer);
    var s8 := states[8];
    var s9 := s8.(now := start + d);
    var s10 := State(start + d, s8.auth, map[CacheKey(token.sub) := CacheEntry(older, start + d + TTL)], map[]);
    Extend(states, steps, d, s8, Tick(d), s9);
    states, steps := states + [s9], steps + [Tick(d)];
    assert s9.tasks - {0} == s10.tasks;
    Extend(states, steps, d, s9, Store(0), s10);
    states, steps := states + [s10], steps + [Store(0)];
  }

  /**
   The bound is tight: an answer sampled just before a change can overwrite the newer record,
   outlive the deletion of the key, and be served 600 + d - 1 seconds after the change.
   */
  lemma BoundIsTight(start: int, d: nat, token: TokenPayload, older: UserRecord, newer: UserRecord)
    returns (states: seq<State>, steps: seq<Step>)
    requires older.id.Some? && newer.id.Some?
    ensures Execution(states, steps, d) && |steps| == 12
    ensures steps[4] == Invalidate(token.sub) && states[4].now == start
    ensures forall j :: 4 <= j < |states| ==> states[j].auth == map[QueryOf(token) := newer]
    ensures states[11].now == start + TTL + d - 1
    ensures ReplyOf(states[11], steps[11], d) == Some(Resolved(Populate(token, older)))
  {
    states, steps := OlderOverwritesNewer(start, d, token, older, newer);
    var s10 := states[10];
    var s11 := s10.(now := start + d + TTL - 1);
    Extend(states, steps, d, s10, Tick(TTL - 1), s11);
    states, steps := states + [s11], steps + [Tick(TTL - 1)];
    Extend(states, steps, d, s11, Begin(2, token), s11);
    states, steps := states + [s11], steps + [Begin(2, token)];
  }

  /**
   The cache key has no roles: a token that was issued without a role is served the
   permissions of an earlier token of the same user, although the auth service never gave
   them for its own roles.
   */
  lemma ServedForAnotherToken(start: int, d: nat, earlier: TokenPayload, later: TokenPayload, record: UserRecord)
    returns (states: seq<State>, steps: seq<Step>)
    requires record.id.Some? && earlier.sub == later.sub && earlier.realmRoles != later.realmRoles
    ensures Execution(states, steps, d) && |steps| == 6 && steps[5] == Begin(1, later)
    ensures ReplyOf(states[5], steps[5], d) == Some(Resolved(Populate(later, record)))
    ensures forall j :: 0 <= j < |states| ==> QueryOf(later) !in states[j].auth
    ensures states[5].now == start + TTL - 1
  {
    var q, key := QueryOf(earlier), CacheKey(earlier.sub);
    var s0 := State(start, map[], map[], map[]);
    var s1 := State(start, map[q := record], map[], map[]);
    var s2 := s1.(tasks := map[0 := Waiting(earlier)]);
    var s3 := s1.(tasks := map[0 := Sampled(earlier, record, start)]);
    var s4 := s1.(cache := map[key := CacheEntry(record, start + TTL)]);
    var s5 := s4.(now := start + TTL - 1);
    states, steps := [s0], [];
    Extend(states, steps, d, s0, ChangeRecord(q, record), s1);
    states, steps := states + [s1], steps + [ChangeRecord(q, record)];
    Extend(states, steps, d, s1, Begin(0, earlier), s2);
    states, steps := states + [s2], steps + [Begin(0, earlier)];
    Extend(states, steps, d, s2, Receive(0, Fresh), s3);
    states, steps := states + [s3], steps + [Receive(0, Fresh)];
    assert s3.tasks - {0} == map[];
    Extend(states, steps, d, s3, Store(0), s4);
    states, steps := states + [s4], steps + [Store(0)];
    Extend(states, steps, d, s4, Tick(TTL - 1), s5);
    states, steps := states + [s5], steps + [Tick(TTL - 1)];
    Extend(states, steps, d, s5, Begin(1, later), s5);
    states, steps := states + [s5], steps + [Begin(1, later)];
  }
}
