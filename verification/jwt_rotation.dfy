/** auth/jwt_rotation.go: rotation and retirement, and the rings that the process holds. */
module JwtRotation {
  import opened Prelude
  import opened JwtKeys

  /** One tier: its rows, and the ring in memory if it has been loaded. */
  datatype Tier = Tier(store: TierStore, ring: Option<Ring>)

  // ================================================================ durable steps of one tier

  ghost function Reloaded(t: Tier, boot: Seed): Tier {
    BootstrappedNonempty(t.store, boot);
    var store := Bootstrapped(t.store, boot);
    Tier(store, Some(RingOf(store)))
  }

  ghost function Loaded(t: Tier, boot: Seed): Tier {
    if t.ring.Some? then t else Reloaded(t, boot)
  }

  ghost function Stored(t: Tier, seed: Seed): Tier {
    t.(store := t.store.(keys := t.store.keys[NextVersion(t.store) := seed]))
  }

  function Pointed(t: Tier, version: int): Tier {
    t.(store := t.store.(pointer := Some(version)))
  }

  function Deleted(t: Tier, version: int): Tier {
    t.(store := t.store.(keys := t.store.keys - {version}))
  }

  // ================================================================ the process

  /** How far a rotation gets: the stores done before it stops, all four, or the reload as well. */
  datatype RotationStop = Nothing | TempKey | TempPointer | FullKey | FullPointer | Done

  datatype RetireStop = NoDelete | TempDeleted | BothDeleted | Reread

  class JwtService {
    var temp: Tier
    var full: Tier

    constructor (tempStore: TierStore, fullStore: TierStore)
      ensures temp == Tier(tempStore, None) && full == Tier(fullStore, None)
    {
      temp, full := Tier(tempStore, None), Tier(fullStore, None);
    }

    /** Each tier is loaded on its own, and only if it is not loaded yet. */
    method LoadJWTKeys(tempBoot: Seed, fullBoot: Seed)
      modifies this
      ensures temp == Loaded(old(temp), tempBoot) && full == Loaded(old(full), fullBoot)
    {
      temp := EnsureRingLoaded(temp, tempBoot);
      full := EnsureRingLoaded(full, fullBoot);
    }

    /** Both tiers are read before either ring is replaced. */
    method ReloadJWTKeys(tempBoot: Seed, fullBoot: Seed)
      modifies this
      ensures temp == Reloaded(old(temp), tempBoot) && full == Reloaded(old(full), fullBoot)
    {
      var tempIds := ListKeyIDs(temp.store);
      var tempStore, tempRing := LoadJWTRing(temp.store, tempIds, tempBoot);
      var fullIds := ListKeyIDs(full.store);
      var fullStore, fullRing := LoadJWTRing(full.store, fullIds, fullBoot);
      temp, full := Tier(tempStore, Some(tempRing)), Tier(fullStore, Some(fullRing));
    }

    /**
     Stores the next version's seed and then its pointer, temp tier first, and reloads; it may stop after
     any of these.
    */
    method RotateJWTSigningKeys(tempSeed: Seed, fullSeed: Seed, stop: RotationStop)
      modifies this
      ensures var stored := Stored(old(temp), tempSeed);
              var pointed := Pointed(stored, NextVersion(old(temp).store));
              temp == match stop
                      case Nothing => old(temp)
                      case TempKey => stored
                      case Done => Reloaded(pointed, 0)
                      case _ => pointed
      ensures var stored := Stored(old(full), fullSeed);
              var pointed := Pointed(stored, NextVersion(old(full).store));
              full == match stop
                      case FullKey => stored
                      case FullPointer => pointed
                      case Done => Reloaded(pointed, 0)
                      case _ => old(full)
    {
      if stop == Nothing { return; }
      var next := NextOf(temp.store);
      temp := temp.(store := temp.store.(keys := temp.store.keys[next := tempSeed]));
      if stop == TempKey { return; }
      temp := Pointed(temp, next);
      if stop == TempPointer { return; }
      var fullNext := NextOf(full.store);
      full := full.(store := full.store.(keys := full.store.keys[fullNext := fullSeed]));
      if stop == FullKey { return; }
      full := Pointed(full, fullNext);
      if stop == FullPointer { return; }
      ReloadJWTKeys(0, 0);
    }

    /** Refuses the versions that are active in memory; deletes the version from both tiers, then reloads. */
    method RetireJWTKeyVersion(version: int, tempBoot: Seed, fullBoot: Seed,
        stop: RetireStop)
      returns (ok: bool)
      modifies this
      ensures version <= 0 ==> !ok && temp == old(temp) && full == old(full)
      ensures version > 0 ==>
                var t, f := Loaded(old(temp), tempBoot), Loaded(old(full), fullBoot);
                var refused := version == t.ring.value.activeVersion || version == f.ring.value.activeVersion;
                && (ok <==> !refused && stop == Reread)
                && temp == (if refused || stop == NoDelete then t
                            else if stop == Reread then Reloaded(Deleted(t, version), tempBoot)
                            else Deleted(t, version))
                && full == (if refused || stop == NoDelete || stop == TempDeleted then f
                            else if stop == Reread then Reloaded(Deleted(f, version), fullBoot)
                            else Deleted(f, version))
    {
      if version <= 0 { return false; }
      LoadJWTKeys(tempBoot, fullBoot);
      if version == temp.ring.value.activeVersion || version == full.ring.value.activeVersion { return false; }
      if stop == NoDelete { return false; }
      temp := Deleted(temp, version);
      if stop == TempDeleted { return false; }
      full := Deleted(full, version);
      if stop == BothDeleted { return false; }
      ReloadJWTKeys(tempBoot, fullBoot);
      return true;
    }
  }

  /** The versions stored in a tier, in whatever order the database lists them. */
  method ListKeyIDs(ts: TierStore) returns (ids: seq<int>)
    ensures forall v :: v in ids <==> v in ts.keys
    ensures forall i, j | 0 <= i < j < |ids| :: ids[i] != ids[j]
  {
    ids := [];
    var rest := ts.keys.Keys;
    while rest != {}
      invariant rest <= ts.keys.Keys && forall v :: v in ids <==> v in ts.keys.Keys - rest
      invariant forall i, j | 0 <= i < j < |ids| :: ids[i] != ids[j]
      decreases rest
    {
      assert (forall v :: v !in rest) ==> rest == {};
      var v :| v in rest;
      ids := ids + [v];
      rest := rest - {v};
    }
  }

  method EnsureRingLoaded(t: Tier, boot: Seed) returns (t': Tier)
    ensures t' == Loaded(t, boot)
    ensures t.ring.Some? ==> t' == t
  {
    if t.ring.Some? { return t; }
    var ids := ListKeyIDs(t.store);
    var store, ring := LoadJWTRing(t.store, ids, boot);
    return Tier(store, Some(ring));
  }

  method NextOf(ts: TierStore) returns (next: int)
    ensures next == NextVersion(ts) && next !in ts.keys
  {
    var ids := ListKeyIDs(ts);
    var versions := ListJWTVersions(ids);
    next := 1;
    if |versions| > 0 {
      assert versions[0] in versions && versions[0] in ts.keys;
      HighestIs(ts.keys, versions);
      next := versions[|versions| - 1] + 1;
    } else {
      assert forall v :: v in ts.keys ==> v in versions;
      assert ts.keys.Keys == {};
    }
  }

  // ================================================================ histories of one tier

  /** Every durable step a rotation, retirement, load or restart consists of, and the issue of a token. */
  datatype Event =
    | Load(boot: Seed)
    | Reload(boot: Seed)
    | StoreNext(seed: Seed)
    | Point(version: int)
    | Delete(version: int)
    | Restart
    | Issue

  /** What an issued token was signed with. */
  datatype Signed = Signed(version: int, seed: Seed)

  /** The tier, the tokens issued so far, and the versions ever deleted or stored. */
  datatype World = World(tier: Tier, issued: set<Signed>, retired: set<int>, used: set<int>)

  /** A deletion spares the version active in memory, and is only made with the ring loaded; so is an issue. */
  ghost predicate Possible(w: World, e: Event) {
    match e
    case Delete(version) => w.tier.ring.Some? && version != w.tier.ring.value.activeVersion
    case Issue => w.tier.ring.Some?
    case _ => true
  }

  ghost function Next(w: World, e: Event): World
    requires Possible(w, e)
  {
    match e
    case Load(boot) => WithTier(w, Loaded(w.tier, boot))
    case Reload(boot) => WithTier(w, Reloaded(w.tier, boot))
    case StoreNext(seed) => WithTier(w, Stored(w.tier, seed))
    case Point(version) => WithTier(w, Pointed(w.tier, version))
    case Delete(version) => WithTier(w, Deleted(w.tier, version)).(retired := w.retired + {version})
    case Restart => WithTier(w, w.tier.(ring := None))
    case Issue => w.(issued := w.issued + {Signed(w.tier.ring.value.activeVersion, w.tier.ring.value.signing)})
  }

  ghost function WithTier(w: World, t: Tier): World {
    w.(tier := t, used := w.used + t.store.keys.Keys)
  }

  ghost predicate Happens(w: World, events: seq<Event>)
    decreases |events|
  {
    events == [] || (Possible(w, events[0]) && Happens(Next(w, events[0]), events[1..]))
  }

  ghost function After(w: World, events: seq<Event>): World
    requires Happens(w, events)
    decreases |events|
  {
    if events == [] then w else After(Next(w, events[0]), events[1..])
  }

  const FRESH: World := World(Tier(TierStore(map[], None), None), {}, {}, {})

  /** The ring in memory still has its key in the table, and accepts every unretired token. */
  ghost predicate RingInv(w: World, ring: Ring) {
    && ring.activeVersion in w.tier.store.keys && w.tier.store.keys[ring.activeVersion] == ring.signing
    && Pub(ring.signing) in ring.verifyPubs
    && forall tok | tok in w.issued && tok.version !in w.retired :: Pub(tok.seed) in ring.verifyPubs
  }

  ghost predicate Inv(w: World) {
    && (forall tok | tok in w.issued && tok.version !in w.retired ::
          tok.version in w.tier.store.keys && w.tier.store.keys[tok.version] == tok.seed)
    && (w.tier.ring.Some? ==> RingInv(w, w.tier.ring.value))
    && (w.issued != {} ==> w.tier.store.keys != map[])
  }

  lemma NextVersionNew(ts: TierStore)
    ensures NextVersion(ts) !in ts.keys
  {
    if ts.keys != map[] {
      var h := Highest(ts.keys);
    }
  }

  lemma ReloadKeeps(w: World, boot: Seed)
    requires Inv(w)
    ensures Inv(WithTier(w, Reloaded(w.tier, boot)))
  {
    var w' := WithTier(w, Reloaded(w.tier, boot));
    var store := w'.tier.store;
    BootstrappedNonempty(w.tier.store, boot);
    forall v | v in store.keys ensures Pub(store.keys[v]) in RingOf(store).verifyPubs {
      RingVerifies(store, store.keys[v]);
    }
    assert Active(store) in store.keys;
  }

  lemma EventKeeps(w: World, e: Event)
    requires Inv(w) && Possible(w, e)
    ensures Inv(Next(w, e))
  {
    match e
    case Load(boot) =>
      if w.tier.ring.None? {
        ReloadKeeps(w, boot);
      }
    case Reload(boot) => ReloadKeeps(w, boot);
    case StoreNext(seed) =>
      NextVersionNew(w.tier.store);
      assert NextVersion(w.tier.store) in Next(w, e).tier.store.keys;
    case Delete(version) => assert w.tier.ring.value.activeVersion in Next(w, e).tier.store.keys;
    case Issue => assert w.tier.ring.value.activeVersion in w.tier.store.keys;
    case _ =>
  }

  lemma {:induction false} RunKeeps(w: World, events: seq<Event>)
    requires Inv(w) && Happens(w, events)
    ensures Inv(After(w, events))
    decreases |events|
  {
    if events != [] {
      EventKeeps(w, events[0]);
      RunKeeps(Next(w, events[0]), events[1..]);
    }
  }

  /**
   In every history of a tier, with rotations and retirements that stop anywhere and with restarts, a token
   signed by a version that was never retired verifies against the loaded ring, and against the ring that
   the next load or reload would build; and the ring in memory always has its key in the table.
  */
  lemma UnretiredTokensVerify(events: seq<Event>, tok: Signed, boot: Seed)
    requires Happens(FRESH, events)
    requires tok in After(FRESH, events).issued && tok.version !in After(FRESH, events).retired
    ensures var t := After(FRESH, events).tier;
            && (t.ring.Some? ==> Pub(tok.seed) in t.ring.value.verifyPubs)
            && Pub(tok.seed) in Reloaded(t, boot).ring.value.verifyPubs
  {
    RunKeeps(FRESH, events);
    ReloadKeeps(After(FRESH, events), boot);
  }

  /** Once loaded, a tier never loses its last key: the active version in memory is stored under its own seed. */
  lemma ActiveKeyStays(events: seq<Event>)
    requires Happens(FRESH, events) && After(FRESH, events).tier.ring.Some?
    ensures var t := After(FRESH, events).tier;
            && t.ring.value.activeVersion in t.store.keys
            && t.store.keys[t.ring.value.activeVersion] == t.ring.value.signing
  {
    RunKeeps(FRESH, events);
  }

  // ================================================================ rotations that stop

  /** A deletion takes one key and leaves pointer, ring and all other keys; a load leaves a loaded ring alone. */
  lemma DeletionAndLoad(t: Tier, version: int, boot: Seed)
    ensures Deleted(t, version).ring == t.ring && Deleted(t, version).store.pointer == t.store.pointer
    ensures forall v :: v in Deleted(t, version).store.keys <==> v in t.store.keys && v != version
    ensures forall v | v in Deleted(t, version).store.keys :: Deleted(t, version).store.keys[v] == t.store.keys[v]
    ensures t.ring.Some? ==> Loaded(t, boot) == t
    ensures t.ring.None? ==> Loaded(t, boot) == Reloaded(t, boot)
  {
  }

  /** Where a restart finds the pointer naming a stored version. */
  predicate PointerNamesStored(ts: TierStore) {
    ts.pointer.Some? && ts.pointer.value in ts.keys
  }

  /**
   A rotation that stops after storing its key, and a restart: the version named by the pointer row is
   active as before if there is one; a tier whose pointer was never written, as after its bootstrap, signs
   with the new key from then on.
  */
  lemma StoppedBeforePointer(w: World, seed: Seed, boot: Seed)
    requires w.tier.store.keys != map[]
    ensures var ts := w.tier.store;
            var ring := Next(Next(Next(w, StoreNext(seed)), Restart), Load(boot)).tier.ring.value;
            if PointerNamesStored(ts) then
              ring.activeVersion == ts.pointer.value && ring.signing == ts.keys[ts.pointer.value]
            else
              ring.activeVersion == NextVersion(ts) && ring.signing == seed
  {
    var ts := w.tier.store;
    var next := NextVersion(ts);
    var after := ts.(keys := ts.keys[next := seed]);
    NextVersionNew(ts);
    assert next in after.keys;
    RingFollowsPointer(after);
    HighestUnique(after.keys, next);
  }

  /** With the pointer written as well, the new key is active after a restart, in every case. */
  lemma StoppedAfterPointer(w: World, seed: Seed, boot: Seed)
    ensures var next := NextVersion(w.tier.store);
            var pointed := Next(Next(w, StoreNext(seed)), Point(next));
            var ring := Next(Next(pointed, Restart), Load(boot)).tier.ring.value;
            && pointed.tier.store.pointer == Some(next)
            && ring.activeVersion == next && ring.signing == seed
  {
    var next := NextVersion(w.tier.store);
    var after := Next(Next(w, StoreNext(seed)), Point(next)).tier.store;
    assert next in after.keys;
    RingFollowsPointer(after);
  }

  // ================================================================ version numbers

  /** The tier after a rotation that completes. */
  ghost function Rotated(w: World, seed: Seed): World {
    WithTier(w, Reloaded(Pointed(Stored(w.tier, seed), NextVersion(w.tier.store)), 0))
  }

  /** Histories in which every rotation completes before anything else happens. */
  datatype Whole = Rotate(seed: Seed) | Other(e: Event)

  ghost predicate PossibleWhole(w: World, x: Whole) {
    match x
    case Rotate(_) => true
    case Other(e) => !e.StoreNext? && !e.Point? && Possible(w, e)
  }

  ghost function NextWhole(w: World, x: Whole): World
    requires PossibleWhole(w, x)
  {
    match x
    case Rotate(seed) => Rotated(w, seed)
    case Other(e) => Next(w, e)
  }

  /** The highest version ever used is stored, and is the active one in the table and in memory. */
  ghost predicate OnTop(w: World) {
    var ts := w.tier.store;
    && ts.keys.Keys <= w.used
    && (ts.keys == map[] ==> w.used == {} && w.tier.ring.None? && ts.pointer.None?)
    && (ts.keys != map[] ==>
          && Active(ts) == Highest(ts.keys)
          && (forall v | v in w.used :: v <= Highest(ts.keys))
          && (w.tier.ring.Some? ==> w.tier.ring.value.activeVersion == Highest(ts.keys)))
  }

  lemma HighestUnique(keys: map<int, Seed>, v: int)
    requires v in keys && forall x | x in keys :: x <= v
    ensures keys != map[] && Highest(keys) == v
  {
    assert keys != map[];
    var h := Highest(keys);
  }

  /** A completed rotation uses a version number higher than any used before, and makes it the active one. */
  lemma RotationOnTop(w: World, seed: Seed)
    requires OnTop(w)
    ensures OnTop(Rotated(w, seed))
    ensures forall v | v in w.used :: v < NextVersion(w.tier.store)
    ensures Rotated(w, seed).tier.ring.value.activeVersion == NextVersion(w.tier.store)
    ensures Rotated(w, seed).tier.ring.value.signing == seed
    ensures Rotated(w, seed).used == w.used + {NextVersion(w.tier.store)}
  {
    var next := NextVersion(w.tier.store);
    var ts := Pointed(Stored(w.tier, seed), next).store;
    assert next in ts.keys;
    assert ts.keys.Keys == w.tier.store.keys.Keys + {next};
    HighestUnique(ts.keys, next);
  }

  lemma WholeKeepsTop(w: World, x: Whole)
    requires OnTop(w) && PossibleWhole(w, x)
    ensures OnTop(NextWhole(w, x))
  {
    match x
    case Rotate(seed) => RotationOnTop(w, seed);
    case Other(e) =>
      match e
      case Load(boot) => BootOnTop(w, boot);
      case Reload(boot) => BootOnTop(w, boot);
      case Delete(version) =>
        var keys := w.tier.store.keys - {version};
        assert w.tier.store.keys != map[];
        var h := Highest(w.tier.store.keys);
        assert h in keys;
        HighestUnique(keys, h);
      case _ =>
  }

  lemma BootOnTop(w: World, boot: Seed)
    requires OnTop(w)
    ensures OnTop(WithTier(w, Reloaded(w.tier, boot)))
  {
    BootstrappedNonempty(w.tier.store, boot);
    if w.tier.store.keys == map[] {
      HighestUnique(map[1 := boot], 1);
    }
  }

  ghost predicate HappensWhole(w: World, xs: seq<Whole>)
    decreases |xs|
  {
    xs == [] || (PossibleWhole(w, xs[0]) && HappensWhole(NextWhole(w, xs[0]), xs[1..]))
  }

  ghost function AfterWhole(w: World, xs: seq<Whole>): World
    requires HappensWhole(w, xs)
    decreases |xs|
  {
    if xs == [] then w else AfterWhole(NextWhole(w, xs[0]), xs[1..])
  }

  lemma {:induction false} WholeRunOnTop(w: World, xs: seq<Whole>)
    requires OnTop(w) && HappensWhole(w, xs)
    ensures OnTop(AfterWhole(w, xs))
    decreases |xs|
  {
    if xs != [] {
      WholeKeepsTop(w, xs[0]);
      WholeRunOnTop(NextWhole(w, xs[0]), xs[1..]);
    }
  }

  /**
   When all rotations complete, each one's version number is higher than every number used before it, so
   numbers strictly increase and none is used twice, however retirements and restarts come in between.
  */
  lemma VersionsNeverReused(xs: seq<Whole>)
    requires HappensWhole(FRESH, xs)
    ensures var w := AfterWhole(FRESH, xs); forall v | v in w.used :: v < NextVersion(w.tier.store)
  {
    WholeRunOnTop(FRESH, xs);
    RotationOnTop(AfterWhole(FRESH, xs), 0);
  }

  /** Every number from 1 to the highest one used has been used, and nothing else is stored. */
  ghost predicate UsedWithoutGap(w: World, top: nat) {
    && w.tier.store.keys.Keys <= w.used
    && forall v :: v in w.used <==> 1 <= v <= top
  }

  lemma TopStored(w: World, top: nat)
    requires UsedWithoutGap(w, top) && w.tier.store.keys != map[]
    ensures 1 <= Highest(w.tier.store.keys) <= top
    ensures top in w.tier.store.keys ==> Highest(w.tier.store.keys) == top
  {
    assert Highest(w.tier.store.keys) in w.used;
  }

  lemma EventKeepsGapless(w: World, e: Event, top: nat) returns (top': nat)
    requires UsedWithoutGap(w, top) && Possible(w, e)
    ensures UsedWithoutGap(Next(w, e), top')
  {
    top' := top;
    match e {
      case Load(boot) =>
        if w.tier.ring.None? && w.tier.store.keys == map[] {
          top' := if top == 0 then 1 else top;
        }
      case Reload(boot) =>
        if w.tier.store.keys == map[] {
          top' := if top == 0 then 1 else top;
        }
      case StoreNext(_) =>
        if w.tier.store.keys == map[] {
          top' := if top == 0 then 1 else top;
        } else {
          TopStored(w, top);
          top' := if Highest(w.tier.store.keys) == top then top + 1 else top;
        }
      case _ =>
    }
  }

  lemma {:induction false} RunKeepsGapless(w: World, events: seq<Event>, top: nat) returns (top': nat)
    requires UsedWithoutGap(w, top) && Happens(w, events)
    ensures UsedWithoutGap(After(w, events), top')
    decreases |events|
  {
    top' := top;
    if events != [] {
      var next := EventKeepsGapless(w, events[0], top);
      top' := RunKeepsGapless(Next(w, events[0]), events[1..], next);
    }
  }

  /** v is stored, and no number ever used is higher. */
  ghost predicate HighestEverStored(w: World, v: int) {
    v in w.tier.store.keys && forall u | u in w.used :: u <= v
  }

  /** The next rotation's number is above every number used so far. */
  ghost predicate NextIsNew(w: World) {
    forall v | v in w.used :: v < NextVersion(w.tier.store)
  }

  lemma NextIsNewWhere(w: World, top: nat)
    requires UsedWithoutGap(w, top)
    ensures NextIsNew(w) <==> w.used == {} || exists v :: HighestEverStored(w, v)
    ensures NextIsNew(w) <==> NextVersion(w.tier.store) !in w.used
  {
    var keys := w.tier.store.keys;
    if keys != map[] {
      TopStored(w, top);
      assert top in w.used;
      assert HighestEverStored(w, top) <==> top in keys;
    } else if top > 0 {
      assert 1 in w.used && top in w.used;
    } else {
      assert forall v :: v !in w.used;
    }
  }

  /**
   Over all histories of a tier, with rotations and retirements that stop anywhere and with restarts: the
   number that the next rotation uses is new, and above all earlier ones, if and only if the highest number
   ever used is still stored.
  */
  lemma NextVersionNewIff(events: seq<Event>)
    requires Happens(FRESH, events)
    ensures var w := After(FRESH, events);
            && (NextIsNew(w) <==> w.used == {} || exists v :: HighestEverStored(w, v))
            && (NextVersion(w.tier.store) !in w.used <==> NextIsNew(w))
  {
    var top := RunKeepsGapless(FRESH, events, 0);
    NextIsNewWhere(After(FRESH, events), top);
  }

  /**
   On the guard of a retirement: where the next number is new, it stays new after a version has been
   deleted if and only if that version was not the highest one stored.
  */
  lemma RetirementKeepsNewIff(w: World, version: int)
    requires NextIsNew(w) && w.tier.store.keys.Keys <= w.used && (forall v | v in w.used :: v >= 1)
    requires Possible(w, Delete(version)) && version in w.tier.store.keys
    ensures NextIsNew(Next(w, Delete(version))) <==> version != Highest(w.tier.store.keys)
  {
    var keys := w.tier.store.keys;
    var rest := keys - {version};
    assert keys != map[];
    if version == Highest(keys) {
      assert version in Next(w, Delete(version)).used;
      if rest != map[] {
        assert Highest(rest) in keys;
      }
    } else {
      HighestUnique(rest, Highest(keys));
    }
  }

  /**
   A rotation that stops after storing its key breaks that: the version can be retired, since it is not
   active in memory, and the next rotation then uses its number again with another seed.
  */
  lemma StoppedRotationReuses(w: World, first: Seed, second: Seed)
    requires OnTop(w) && w.tier.ring.Some?
    ensures var stored := Next(w, StoreNext(first));
            var v := NextVersion(w.tier.store);
            && Possible(stored, Delete(v))
            && var again := Next(Next(stored, Delete(v)), StoreNext(second));
               v in stored.tier.store.keys && stored.tier.store.keys[v] == first
               && v in again.tier.store.keys && again.tier.store.keys[v] == second
  {
    var v := NextVersion(w.tier.store);
    NextVersionNew(w.tier.store);
    assert w.tier.store.keys[v := first] - {v} == w.tier.store.keys;
  }
}
