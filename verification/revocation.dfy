/** auth/token_revocation.go: the two in-memory revocation caches, one call at a time. */
module Revocation {
  import opened Prelude

  const TTL: int := 30 * SECOND

  /** A cached answer of the user-wide table; None stands for "no row", as the zero time does. */
  datatype Entry = Entry(revokedAt: Option<int>, cachedAt: int)

  function RowOf(table: map<string, int>, user: string): Option<int> {
    if user in table then Some(table[user]) else None
  }

  /** The middleware's decision on a token issued at issuedAt. */
  predicate Rejects(revokedAt: Option<int>, issuedAt: int) {
    revokedAt.Some? && revokedAt.value > issuedAt
  }

  /** What a token says of itself once its signature has been verified under either tier. */
  datatype Claims = Claims(id: string, expiresAt: int)

  /** How loading the unexpired tokens goes: to the end, not at all, or with an error after some rows. */
  datatype Loading = Loads | NoAnswer | BreaksOff(rows: nat)

  class RevocationStore {
    // The tables user_jwt_revocations and revoked_tokens (token_id to expires_at).
    var userRows: map<string, int>
    var tokenRows: map<string, int>
    // The process's caches.
    var userCache: map<string, Entry>
    var tokenCache: map<string, bool>
    var initialized: bool

    constructor (userRows: map<string, int>, tokenRows: map<string, int>)
      ensures this.userRows == userRows && this.tokenRows == tokenRows
      ensures UserCoherent() && TokenCoherent()
    {
      this.userRows, this.tokenRows := userRows, tokenRows;
      userCache, tokenCache, initialized := map[], map[], false;
    }

    /** Every cached answer is the table's present one. */
    ghost predicate UserCoherent()
      reads this
    {
      forall user | user in userCache :: userCache[user].revokedAt == RowOf(userRows, user)
    }

    /** Every cached token is in the table. */
    ghost predicate TokenCoherent()
      reads this
    {
      forall id | id in tokenCache :: tokenCache[id] && id in tokenRows
    }

    method InvalidateUserRevocationCache(user: string)
      modifies this`userCache
      ensures userCache == old(userCache) - {user}
    {
      userCache := userCache - {user};
    }

    /** dbFails says whether the table can be read. Alone, a lookup always answers with the present row. */
    method GetUserRevocationTimeCached(user: string, now: int, dbFails: bool) returns (r: Result<Option<int>, ()>)
      requires UserCoherent()
      modifies this`userCache
      ensures UserCoherent()
      ensures r.Ok? ==> r.value == RowOf(userRows, user)
      ensures r.Err? <==> dbFails && !(user in old(userCache) && now - old(userCache)[user].cachedAt < 30 * SECOND)
      ensures r.Err? ==> userCache == old(userCache)
      ensures r.Ok? ==> user in userCache && now - userCache[user].cachedAt < 30 * SECOND
      ensures forall other | other != user ::
                (other in userCache <==> other in old(userCache))
                && (other in userCache ==> userCache[other] == old(userCache)[other])
      ensures user in userCache && (user !in old(userCache) || userCache[user] != old(userCache)[user]) ==>
                userCache[user].cachedAt == now
    {
      if user in userCache && now - userCache[user].cachedAt < TTL {
        return Ok(userCache[user].revokedAt);
      }
      if dbFails { return Err(()); }
      var revokedAt := RowOf(userRows, user);
      userCache := userCache[user := Entry(revokedAt, now)];
      return Ok(revokedAt);
    }

    /** Alone, a revocation is visible to the very next lookup. */
    method RevokeAllUserJWTTokens(user: string, now: int, dbFails: bool) returns (ok: bool)
      requires UserCoherent()
      modifies this`userRows, this`userCache
      ensures UserCoherent() && ok == !dbFails
      ensures userRows == if ok then old(userRows)[user := now] else old(userRows)
      ensures userCache == if ok then old(userCache) - {user} else old(userCache)
    {
      if dbFails { return false; }
      userRows := userRows[user := now];
      InvalidateUserRevocationCache(user);
      return true;
    }

    /**
     A token that does not parse has no claims; one without an id is refused, and the insert fails on a
     token that is there already.
    */
    method RevokeToken(claims: Option<Claims>, dbFails: bool) returns (ok: bool)
      requires TokenCoherent()
      modifies this`tokenRows, this`tokenCache
      ensures TokenCoherent()
      ensures ok <==> claims.Some? && claims.value.id != "" && !dbFails && claims.value.id !in old(tokenRows)
      ensures tokenRows == if ok then old(tokenRows)[claims.value.id := claims.value.expiresAt] else old(tokenRows)
      ensures tokenCache == if ok then old(tokenCache)[claims.value.id := true] else old(tokenCache)
    {
      if claims.None? { return false; }
      var id := claims.value.id;
      if id == "" { return false; }
      if dbFails || id in tokenRows { return false; }
      tokenRows := tokenRows[id := claims.value.expiresAt];
      tokenCache := tokenCache[id := true];
      return true;
    }

    /** Loads the tokens that have not expired; a load that breaks off keeps what it has read so far. */
    method InitializeCache(now: int, loading: Loading) returns (ok: bool)
      requires TokenCoherent()
      modifies this`tokenCache, this`initialized
      ensures TokenCoherent()
      ensures ok ==> !loading.NoAnswer?
      ensures loading.Loads? ==> ok
      ensures initialized == (ok || old(initialized))
      ensures ok ==> forall id ::
                id in tokenCache <==> id in old(tokenCache) || (id in tokenRows && tokenRows[id] > now)
      ensures loading.NoAnswer? ==> tokenCache == old(tokenCache)
      ensures old(tokenCache).Keys <= tokenCache.Keys
      ensures forall id | id in tokenCache && id !in old(tokenCache) :: id in tokenRows && tokenRows[id] > now
    {
      if loading.NoAnswer? { return false; }
      var pending := set id | id in tokenRows && tokenRows[id] > now;
      ghost var all := pending;
      var rows := 0;
      while pending != {}
        invariant pending <= all
        invariant forall id :: id in tokenCache <==> id in old(tokenCache) || id in all - pending
        invariant TokenCoherent() && initialized == old(initialized)
        decreases pending
      {
        if loading.BreaksOff? && rows == loading.rows { return false; }
        var id :| id in pending;
        tokenCache := tokenCache[id := true];
        pending := pending - {id};
        rows := rows + 1;
      }
      initialized := true;
      return true;
    }

    /** The cache never changes the answer: a token counts as revoked exactly while its row exists. */
    method IsRevoked(id: string, now: int, loading: Loading, dbFails: bool) returns (r: Result<bool, ()>)
      requires TokenCoherent()
      modifies this`tokenCache, this`initialized
      ensures TokenCoherent()
      ensures r.Ok? ==> (r.value <==> id in tokenRows)
      ensures loading.Loads? && !dbFails ==> r.Ok?
      ensures id in old(tokenCache) ==> r == Ok(true)
      ensures r == Ok(true) ==> id in tokenCache
    {
      if id in tokenCache { return Ok(tokenCache[id]); }
      if !initialized {
        var ok := InitializeCache(now, loading);
        if !ok { return Err(()); }
        if id in tokenCache { return Ok(tokenCache[id]); }
      }
      if dbFails { return Err(()); }
      if id !in tokenRows { return Ok(false); }
      tokenCache := tokenCache[id := true];
      return Ok(true);
    }

    /** Only rows whose token has expired go, so a revoked token stays revoked for as long as it could be used. */
    method CleanupExpiredTokens(now: int, dbFails: bool) returns (ok: bool)
      requires TokenCoherent()
      modifies this`tokenRows, this`tokenCache, this`initialized
      ensures TokenCoherent() && ok == !dbFails
      ensures !ok ==> tokenRows == old(tokenRows) && tokenCache == old(tokenCache) && initialized == old(initialized)
      ensures ok ==> tokenCache == map[] && !initialized
      ensures ok ==> tokenRows == map id | id in old(tokenRows) && old(tokenRows)[id] >= now :: old(tokenRows)[id]
    {
      if dbFails { return false; }
      tokenRows := map id | id in tokenRows && tokenRows[id] >= now :: tokenRows[id];
      tokenCache := map[];
      initialized := false;
      return true;
    }
  }
}

/** The user-wide cache when lookups, revocations and invalidations interleave step by step. */
module RevocationInterleaved {
  import opened Prelude
  import opened Revocation

  /** A write of the user's row: when it took effect and the revocation time it put there. */
  datatype Write = Write(at: int, revokedAt: int)

  /** Where a lookup stands. A lookup that fails to read the table just ends. */
  datatype Lookup =
    | Started(user: string, start: int)
    | Missed(user: string, start: int)
    | HasRead(user: string, start: int, value: Option<int>)
    | Done(user: string, start: int, value: Option<int>, end: int)

  /** writes[user] are all writes of the user's row so far, oldest first. */
  datatype State = State(clock: int, writes: map<string, seq<Write>>, cache: map<string, Entry>, lookups: map<nat,
      Lookup>)

  function History(s: State, user: string): seq<Write> {
    if user in s.writes then s.writes[user] else []
  }

  /** What the table says after the first v writes. */
  function Version(writes: seq<Write>, v: nat): Option<int>
    requires v <= |writes|
  {
    if v == 0 then None else Some(writes[v - 1].revokedAt)
  }

  datatype Step =
    | Tick(now: int)
    | Start(id: nat, user: string)
    | Consult(id: nat)
    | ReadTable(id: nat)
    | Store(id: nat)
    | Fail(id: nat)
    | WriteRow(user: string, revokedAt: int)
    | Invalidate(user: string)

  ghost predicate Enabled(s: State, step: Step) {
    match step
    case Tick(now) => s.clock <= now
    case Start(id, _) => id !in s.lookups
    case Consult(id) => id in s.lookups && s.lookups[id].Started?
    case ReadTable(id) => id in s.lookups && s.lookups[id].Missed?
    case Store(id) => id in s.lookups && s.lookups[id].HasRead?
    case Fail(id) => id in s.lookups && s.lookups[id].Missed?
    case WriteRow(_, _) => true
    case Invalidate(_) => true
  }

  ghost function Next(s: State, step: Step): State
    requires Enabled(s, step)
  {
    match step
    case Tick(now) => s.(clock := now)
    case Start(id, user) => s.(lookups := s.lookups[id := Started(user, s.clock)])
    case Consult(id) =>
      var l := s.lookups[id];
      if l.user in s.cache && l.start - s.cache[l.user].cachedAt < TTL then
        s.(lookups := s.lookups[id := Done(l.user, l.start, s.cache[l.user].revokedAt, s.clock)])
      else s.(lookups := s.lookups[id := Missed(l.user, l.start)])
    case ReadTable(id) =>
      var l := s.lookups[id];
      var h := History(s, l.user);
      s.(lookups := s.lookups[id := HasRead(l.user, l.start, Version(h, |h|))])
    case Store(id) =>
      var l := s.lookups[id];
      s.(cache := s.cache[l.user := Entry(l.value, l.start)],
         lookups := s.lookups[id := Done(l.user, l.start, l.value, s.clock)])
    case Fail(id) => s.(lookups := s.lookups - {id})
    case WriteRow(user, revokedAt) =>
      s.(writes := s.writes[user := History(s, user) + [Write(s.clock, revokedAt)]])
    case Invalidate(user) => s.(cache := s.cache - {user})
  }

  ghost predicate Happens(s: State, steps: seq<Step>)
    decreases |steps|
  {
    steps == [] || (Enabled(s, steps[0]) && Happens(Next(s, steps[0]), steps[1..]))
  }

  ghost function After(s: State, steps: seq<Step>): State
    requires Happens(s, steps)
    decreases |steps|
  {
    if steps == [] then s else After(Next(s, steps[0]), steps[1..])
  }

  const FRESH: State := State(0, map[], map[], map[])

  /** The table held the value as its v-th version at some instant in [from, to]. */
  ghost predicate HeldAs(writes: seq<Write>, v: nat, value: Option<int>, from: int, to: int) {
    && v <= |writes| && Version(writes, v) == value
    && (v > 0 ==> writes[v - 1].at <= to)
    && (v < |writes| ==> writes[v].at >= from)
  }

  ghost predicate Held(writes: seq<Write>, value: Option<int>, from: int, to: int) {
    from <= to && exists v :: HeldAs(writes, v, value, from, to)
  }

  ghost predicate HistoryInv(writes: seq<Write>, clock: int) {
    && (forall k | 0 <= k < |writes| :: writes[k].at <= clock)
    && (forall j, k | 0 <= j < k < |writes| :: writes[j].at <= writes[k].at)
  }

  ghost predicate LookupInv(s: State, l: Lookup) {
    && l.start <= s.clock
    && match l
       case HasRead(user, start, value) => Held(History(s, user), value, start, s.clock)
       case Done(user, start, value, end) =>
         end <= s.clock && Held(History(s, user), value, start - TTL + 1, end)
       case _ => true
  }

  ghost predicate Inv(s: State) {
    && (forall user :: HistoryInv(History(s, user), s.clock))
    && (forall user | user in s.cache ::
          Held(History(s, user), s.cache[user].revokedAt, s.cache[user].cachedAt, s.clock))
    && (forall id | id in s.lookups :: LookupInv(s, s.lookups[id]))
  }

  /** Widening the interval keeps a value held in it. */
  lemma HeldWider(writes: seq<Write>, value: Option<int>, from: int, to: int, from': int, to': int)
    requires Held(writes, value, from, to) && from' <= from && to <= to'
    ensures Held(writes, value, from', to')
  {
    var v :| HeldAs(writes, v, value, from, to);
    assert HeldAs(writes, v, value, from', to');
  }

  /** A write after the interval changes nothing about what was held in it. */
  lemma HeldAppend(writes: seq<Write>, write: Write, value: Option<int>, from: int, to: int)
    requires Held(writes, value, from, to) && to <= write.at
    ensures Held(writes + [write], value, from, to)
  {
    var v :| HeldAs(writes, v, value, from, to);
    assert HeldAs(writes + [write], v, value, from, to);
  }

  lemma LookupLater(s: State, s': State, l: Lookup)
    requires LookupInv(s, l) && s.clock <= s'.clock && s'.writes == s.writes
    ensures LookupInv(s', l)
  {
    match l
    case HasRead(user, start, value) => HeldWider(History(s, user), value, start, s.clock, start, s'.clock);
    case _ =>
  }

  lemma TickKeeps(s: State, now: int)
    requires Inv(s) && s.clock <= now
    ensures Inv(Next(s, Tick(now)))
  {
    var s' := Next(s, Tick(now));
    forall user ensures HistoryInv(History(s', user), s'.clock) {
      assert HistoryInv(History(s, user), s.clock);
    }
    forall user | user in s'.cache
      ensures Held(History(s', user), s'.cache[user].revokedAt, s'.cache[user].cachedAt, s'.clock)
    {
      var entry := s.cache[user];
      HeldWider(History(s, user), entry.revokedAt, entry.cachedAt, s.clock, entry.cachedAt, now);
    }
    forall id | id in s'.lookups ensures LookupInv(s', s'.lookups[id]) {
      LookupLater(s, s', s.lookups[id]);
    }
  }

  lemma WriteKeepsHistory(s: State, user: string, revokedAt: int, u: string)
    requires Inv(s)
    ensures var s' := Next(s, WriteRow(user, revokedAt)); HistoryInv(History(s', u), s'.clock)
  {
    assert HistoryInv(History(s, u), s.clock);
  }

  lemma WriteKeepsLookup(s: State, user: string, revokedAt: int, l: Lookup)
    requires LookupInv(s, l)
    ensures LookupInv(Next(s, WriteRow(user, revokedAt)), l)
  {
    var write := Write(s.clock, revokedAt);
    if l.user == user {
      match l
      case HasRead(_, start, value) => HeldAppend(History(s, user), write, value, start, s.clock);
      case Done(_, start, value, end) => HeldAppend(History(s, user), write, value, start - TTL + 1, end);
      case _ =>
    }
  }

  lemma WriteKeeps(s: State, user: string, revokedAt: int)
    requires Inv(s)
    ensures Inv(Next(s, WriteRow(user, revokedAt)))
  {
    var s' := Next(s, WriteRow(user, revokedAt));
    forall u ensures HistoryInv(History(s', u), s'.clock) {
      WriteKeepsHistory(s, user, revokedAt, u);
    }
    forall u | u in s'.cache ensures Held(History(s', u), s'.cache[u].revokedAt, s'.cache[u].cachedAt, s'.clock) {
      if u == user {
        var entry := s.cache[u];
        HeldAppend(History(s, u), Write(s.clock, revokedAt), entry.revokedAt, entry.cachedAt, s.clock);
      }
    }
    forall id | id in s'.lookups ensures LookupInv(s', s'.lookups[id]) {
      WriteKeepsLookup(s, user, revokedAt, s.lookups[id]);
    }
  }

  /** One lookup moves on; the table and the other lookups stand still. */
  lemma LookupStepKeeps(s: State, id: nat, l: Lookup, s': State)
    requires Inv(s) && s' == s.(lookups := s.lookups[id := l]) && LookupInv(s', l)
    ensures Inv(s')
  {
    forall user ensures HistoryInv(History(s', user), s'.clock) {
      assert HistoryInv(History(s, user), s.clock);
    }
    forall other | other in s'.lookups ensures LookupInv(s', s'.lookups[other]) {
      if other != id {
        LookupLater(s, s', s.lookups[other]);
      }
    }
  }

  lemma ConsultKeeps(s: State, id: nat)
    requires Inv(s) && Enabled(s, Consult(id))
    ensures Inv(Next(s, Consult(id)))
  {
    var l := s.lookups[id];
    var s' := Next(s, Consult(id));
    assert LookupInv(s, l);
    if s'.lookups[id].Done? {
      var entry := s.cache[l.user];
      HeldWider(History(s, l.user), entry.revokedAt, entry.cachedAt, s.clock, l.start - TTL + 1, s.clock);
    }
    LookupStepKeeps(s, id, s'.lookups[id], s');
  }

  lemma ReadKeeps(s: State, id: nat)
    requires Inv(s) && Enabled(s, ReadTable(id))
    ensures Inv(Next(s, ReadTable(id)))
  {
    var l := s.lookups[id];
    var s' := Next(s, ReadTable(id));
    var h := History(s, l.user);
    assert LookupInv(s, l) && HistoryInv(h, s.clock);
    assert HeldAs(h, |h|, Version(h, |h|), l.start, s.clock);
    LookupStepKeeps(s, id, s'.lookups[id], s');
  }

  /** A cache entry may be added when its value was held since its stamp. */
  lemma CachePutKeeps(s: State, user: string, entry: Entry)
    requires Inv(s) && Held(History(s, user), entry.revokedAt, entry.cachedAt, s.clock)
    ensures Inv(s.(cache := s.cache[user := entry]))
  {
    var s' := s.(cache := s.cache[user := entry]);
    forall u ensures HistoryInv(History(s', u), s'.clock) {
      assert HistoryInv(History(s, u), s.clock);
    }
    forall id | id in s'.lookups ensures LookupInv(s', s'.lookups[id]) {
      LookupLater(s, s', s.lookups[id]);
    }
  }

  lemma StoreKeeps(s: State, id: nat)
    requires Inv(s) && Enabled(s, Store(id))
    ensures Inv(Next(s, Store(id)))
  {
    var l := s.lookups[id];
    assert LookupInv(s, l);
    var done := Done(l.user, l.start, l.value, s.clock);
    HeldWider(History(s, l.user), l.value, l.start, s.clock, l.start - TTL + 1, s.clock);
    var mid := s.(lookups := s.lookups[id := done]);
    LookupStepKeeps(s, id, done, mid);
    CachePutKeeps(mid, l.user, Entry(l.value, l.start));
  }

  lemma DropKeeps(s: State, s': State)
    requires Inv(s) && s'.clock == s.clock && s'.writes == s.writes
    requires s'.cache.Keys <= s.cache.Keys && s'.lookups.Keys <= s.lookups.Keys
    requires forall user | user in s'.cache :: s'.cache[user] == s.cache[user]
    requires forall id | id in s'.lookups :: s'.lookups[id] == s.lookups[id]
    ensures Inv(s')
  {
    forall user ensures HistoryInv(History(s', user), s'.clock) {
      assert HistoryInv(History(s, user), s.clock);
    }
    forall id | id in s'.lookups ensures LookupInv(s', s'.lookups[id]) {
      LookupLater(s, s', s.lookups[id]);
    }
  }

  lemma StepKeeps(s: State, step: Step)
    requires Inv(s) && Enabled(s, step)
    ensures Inv(Next(s, step))
  {
    match step
    case Tick(now) => TickKeeps(s, now);
    case Start(id, user) =>
      var s' := Next(s, step);
      LookupStepKeeps(s, id, s'.lookups[id], s');
    case Consult(id) => ConsultKeeps(s, id);
    case ReadTable(id) => ReadKeeps(s, id);
    case Store(id) => StoreKeeps(s, id);
    case Fail(id) => DropKeeps(s, Next(s, step));
    case WriteRow(user, revokedAt) => WriteKeeps(s, user, revokedAt);
    case Invalidate(user) => DropKeeps(s, Next(s, step));
  }

  lemma {:induction false} RunKeeps(s: State, steps: seq<Step>)
    requires Inv(s) && Happens(s, steps)
    ensures Inv(After(s, steps))
    decreases |steps|
  {
    if steps != [] {
      StepKeeps(s, steps[0]);
      RunKeeps(Next(s, steps[0]), steps[1..]);
    }
  }

  /**
   In every interleaving, a finished lookup returned a value that the table held at some instant later
   than thirty seconds before the lookup began and no later than its end.
  */
  lemma LookupsBoundedlyStale(steps: seq<Step>, id: nat)
    requires Happens(FRESH, steps) && id in After(FRESH, steps).lookups && After(FRESH, steps).lookups[id].Done?
    ensures var s := After(FRESH, steps);
            var l := s.lookups[id];
            Held(History(s, l.user), l.value, l.start - TTL + 1, l.end)
  {
    RunKeeps(FRESH, steps);
    assert LookupInv(After(FRESH, steps), After(FRESH, steps).lookups[id]);
  }

  /**
   So a lookup that begins thirty seconds or more after the k-th write of a user's row returns what that
   write or a later one put there.
  */
  lemma RevocationSeen(steps: seq<Step>, id: nat, k: nat) returns (v: nat)
    requires Happens(FRESH, steps) && id in After(FRESH, steps).lookups && After(FRESH, steps).lookups[id].Done?
    requires k < |History(After(FRESH, steps), After(FRESH, steps).lookups[id].user)|
    requires History(After(FRESH, steps), After(FRESH, steps).lookups[id].user)[k].at + TTL
             <= After(FRESH, steps).lookups[id].start
    ensures var s := After(FRESH, steps);
            var h := History(s, s.lookups[id].user);
            k < v <= |h| && s.lookups[id].value == Version(h, v)
  {
    var s := After(FRESH, steps);
    var l := s.lookups[id];
    LookupsBoundedlyStale(steps, id);
    v :| HeldAs(History(s, l.user), v, l.value, l.start - TTL + 1, l.end);
    RunKeeps(FRESH, steps);
    assert HistoryInv(History(s, l.user), s.clock);
  }

  /**
   Where revocation times are written in order, every token issued before a revocation is rejected by any
   lookup that begins thirty seconds or more after it.
  */
  lemma RevokedTokensRejected(steps: seq<Step>, id: nat, k: nat, issuedAt: int)
    requires Happens(FRESH, steps) && id in After(FRESH, steps).lookups && After(FRESH, steps).lookups[id].Done?
    requires var h := History(After(FRESH, steps), After(FRESH, steps).lookups[id].user);
             && k < |h| && h[k].at + TTL <= After(FRESH, steps).lookups[id].start
             && issuedAt < h[k].revokedAt
             && forall i, j | 0 <= i < j < |h| :: h[i].revokedAt <= h[j].revokedAt
    ensures Rejects(After(FRESH, steps).lookups[id].value, issuedAt)
  {
    var v := RevocationSeen(steps, id, k);
  }

  /** A lookup never makes the middleware reject a token issued at or after every revocation of its user. */
  lemma LaterTokensAccepted(steps: seq<Step>, id: nat, issuedAt: int)
    requires Happens(FRESH, steps) && id in After(FRESH, steps).lookups && After(FRESH, steps).lookups[id].Done?
    requires var h := History(After(FRESH, steps), After(FRESH, steps).lookups[id].user);
             forall k | 0 <= k < |h| :: h[k].revokedAt <= issuedAt
    ensures !Rejects(After(FRESH, steps).lookups[id].value, issuedAt)
  {
    LookupsBoundedlyStale(steps, id);
    var l := After(FRESH, steps).lookups[id];
    var v :| HeldAs(History(After(FRESH, steps), l.user), v, l.value, l.start - TTL + 1, l.end);
  }

  /** A revocation, its invalidation, the store of a lookup that read before both, and a fresh lookup at now. */
  function LateStore(id: nat, other: nat, user: string, revokedAt: int, now: int): seq<Step> {
    [WriteRow(user, revokedAt)] + ([Invalidate(user)] + ([Store(id)]
    + ([Tick(now)] + ([Start(other, user)] + ([Consult(other)] + [])))))
  }

  /**
   The bound is sharp: from every state in which a lookup has read the table and not stored yet, a
   revocation and its invalidation can come first, and then a lookup that begins any time under thirty
   seconds after the first one began still gets the old answer.
  */
  lemma StaleWithinTTL(s: State, id: nat, other: nat, revokedAt: int, now: int)
    requires id in s.lookups && s.lookups[id].HasRead? && other !in s.lookups
    requires s.clock <= now < s.lookups[id].start + TTL
    ensures var l := s.lookups[id];
            var steps := LateStore(id, other, l.user, revokedAt, now);
            && Happens(s, steps)
            && other in After(s, steps).lookups
            && After(s, steps).lookups[other] == Done(l.user, now, l.value, now)
            && History(After(s, steps), l.user) == History(s, l.user) + [Write(s.clock, revokedAt)]
  {
    var l := s.lookups[id];
    var s1 := Next(s, WriteRow(l.user, revokedAt));
    var s2 := Next(s1, Invalidate(l.user));
    var s3 := Next(s2, Store(id));
    var s4 := Next(s3, Tick(now));
    var s5 := Next(s4, Start(other, l.user));
    var s6 := Next(s5, Consult(other));
    var rest5 := [Consult(other)] + [];
    var rest4 := [Start(other, l.user)] + rest5;
    var rest3 := [Tick(now)] + rest4;
    var rest2 := [Store(id)] + rest3;
    var rest1 := [Invalidate(l.user)] + rest2;
    AfterFirst(s5, Consult(other), []);
    AfterFirst(s4, Start(other, l.user), rest5);
    AfterFirst(s3, Tick(now), rest4);
    AfterFirst(s2, Store(id), rest3);
    AfterFirst(s1, Invalidate(l.user), rest2);
    AfterFirst(s, WriteRow(l.user, revokedAt), rest1);
  }

  lemma AfterFirst(s: State, step: Step, rest: seq<Step>)
    requires Enabled(s, step) && Happens(Next(s, step), rest)
    ensures Happens(s, [step] + rest) && After(s, [step] + rest) == After(Next(s, step), rest)
  {
    assert ([step] + rest)[1..] == rest;
  }
}
