/** auth/keys.go and auth/jwt_rotation.go: versioned signing keys in two tiers. */
module JwtKeys {
  import opened Prelude

  /** A 32-byte Ed25519 seed; the public key determines it and is determined by it. */
  type Seed = int

  datatype PublicKey = Pub(seed: Seed)

  /** One tier's rows of system_keys: the seeds by version, and the active-version pointer row. */
  datatype TierStore = TierStore(keys: map<int, Seed>, pointer: Option<int>)

  datatype Ring = Ring(activeVersion: int, signing: Seed, verifyPubs: seq<PublicKey>)

  // ================================================================ sorted versions

  ghost function LeastVersion(s: set<int>): (m: int)
    requires s != {}
    ensures m in s && forall x | x in s :: m <= x
  {
    LeastExists(s);
    var m :| m in s && forall x | x in s :: m <= x;
    m
  }

  lemma {:induction false} LeastExists(s: set<int>)
    requires s != {}
    ensures exists m | m in s :: forall x | x in s :: m <= x
    decreases s
  {
    assert (forall a :: a !in s) ==> s == {};
    var a :| a in s;
    var others := s - {a};
    if others == {} {
      assert s == {a};
    } else {
      LeastExists(others);
      var m :| m in others && forall x | x in others :: m <= x;
      var least := if a < m then a else m;
      forall x | x in s ensures least <= x {
        if x != a {
          assert x in others;
        }
      }
    }
  }

  /** The elements of s from the least to the greatest. */
  ghost function Ascending(s: set<int>): (r: seq<int>)
    decreases s
  {
    if s == {} then [] else [LeastVersion(s)] + Ascending(s - {LeastVersion(s)})
  }

  ghost predicate Sorted(xs: seq<int>) {
    forall i, j | 0 <= i < j < |xs| :: xs[i] < xs[j]
  }

  lemma {:induction false} AscendingSorted(s: set<int>)
    ensures Sorted(Ascending(s)) && forall x :: x in Ascending(s) <==> x in s
    decreases s
  {
    if s != {} {
      AscendingSorted(s - {LeastVersion(s)});
      var rest := Ascending(s - {LeastVersion(s)});
      forall k | 0 <= k < |rest| ensures LeastVersion(s) < rest[k] {
        assert rest[k] in rest;
      }
    }
  }

  lemma {:induction false} SortedIsAscending(xs: seq<int>, s: set<int>)
    requires Sorted(xs) && forall x :: x in xs <==> x in s
    ensures xs == Ascending(s)
    decreases s
  {
    if xs == [] {
      assert s == {} by {
        assert forall x | x in s :: x in xs;
      }
    } else {
      assert xs[0] in xs;
      forall x | x in s ensures xs[0] <= x {
        var k :| 0 <= k < |xs| && xs[k] == x;
      }
      assert xs[0] == LeastVersion(s);
      forall x ensures x in xs[1..] <==> x in s - {xs[0]} {
        if x in s - {xs[0]} {
          var k :| 0 <= k < |xs| && xs[k] == x;
          assert xs[1..][k - 1] == x;
        }
      }
      SortedIsAscending(xs[1..], s - {xs[0]});
    }
  }

  // ================================================================ rings

  /** The pointer's version if it is stored, else the highest stored one. */
  ghost function Active(ts: TierStore): (v: int)
    requires ts.keys != map[]
    ensures v in ts.keys
  {
    if ts.pointer.Some? && ts.pointer.value in ts.keys then ts.pointer.value else Highest(ts.keys)
  }

  ghost function Highest(keys: map<int, Seed>): (v: int)
    requires keys != map[]
    ensures v in keys && forall x | x in keys :: x <= v
  {
    var versions := Ascending(keys.Keys);
    AscendingSorted(keys.Keys);
    assert versions != [] by {
      var x :| x in keys;
      assert x in versions;
    }
    var last := versions[|versions| - 1];
    assert last in versions && forall x | x in keys :: x in versions;
    last
  }

  /** The active version first, then the others in ascending order. */
  ghost function Ordered(ts: TierStore): seq<int>
    requires ts.keys != map[]
  {
    [Active(ts)] + Ascending(ts.keys.Keys - {Active(ts)})
  }

  ghost function Pubs(keys: map<int, Seed>, versions: seq<int>): seq<PublicKey>
    requires forall k | 0 <= k < |versions| :: versions[k] in keys
  {
    seq(|versions|, i requires 0 <= i < |versions| => Pub(keys[versions[i]]))
  }

  lemma OrderedCovers(ts: TierStore)
    requires ts.keys != map[]
    ensures forall v :: v in Ordered(ts) <==> v in ts.keys
    ensures forall i, j | 0 <= i < j < |Ordered(ts)| :: Ordered(ts)[i] != Ordered(ts)[j]
    ensures Ordered(ts)[0] == Active(ts)
  {
    AscendingSorted(ts.keys.Keys - {Active(ts)});
    var rest := Ascending(ts.keys.Keys - {Active(ts)});
    assert forall k | 0 <= k < |rest| :: rest[k] in rest;
    assert forall k | 0 <= k < |Ordered(ts)| :: Ordered(ts)[k] in Ordered(ts);
  }

  /** What a load of the tier builds. */
  ghost function RingOf(ts: TierStore): Ring
    requires ts.keys != map[]
  {
    OrderedCovers(ts);
    Ring(Active(ts), ts.keys[Active(ts)], Pubs(ts.keys, Ordered(ts)))
  }

  /** A loaded ring verifies a signature exactly when it was made with a stored seed; the active one comes first. */
  lemma RingVerifies(ts: TierStore, seed: Seed)
    requires ts.keys != map[]
    ensures Pub(seed) in RingOf(ts).verifyPubs <==> exists v | v in ts.keys :: ts.keys[v] == seed
    ensures |RingOf(ts).verifyPubs| == |Ordered(ts)| && RingOf(ts).verifyPubs[0] == Pub(RingOf(ts).signing)
  {
    OrderedCovers(ts);
    var pubs := RingOf(ts).verifyPubs;
    if Pub(seed) in pubs {
      var k :| 0 <= k < |pubs| && pubs[k] == Pub(seed);
      assert Ordered(ts)[k] in Ordered(ts);
      assert ts.keys[Ordered(ts)[k]] == seed;
    }
    if v :| v in ts.keys && ts.keys[v] == seed {
      assert v in Ordered(ts);
      var k :| 0 <= k < |Ordered(ts)| && Ordered(ts)[k] == v;
      assert pubs[k] == Pub(seed);
    }
  }

  /**
   The ring signs with the version that the pointer row names, if that version is stored; without such a
   row it signs with the highest version.
  */
  lemma RingFollowsPointer(ts: TierStore)
    requires ts.keys != map[]
    ensures var ring := RingOf(ts);
            && ring.activeVersion in ts.keys && ring.signing == ts.keys[ring.activeVersion]
            && (ts.pointer.Some? && ts.pointer.value in ts.keys ==> ring.activeVersion == ts.pointer.value)
            && (ts.pointer.None? || ts.pointer.value !in ts.keys ==> forall v | v in ts.keys :: v <= ring.activeVersion)
  {
  }

  /** A fresh tier gets version 1 before it is loaded. */
  function Bootstrapped(ts: TierStore, seed: Seed): TierStore {
    if ts.keys == map[] then ts.(keys := map[1 := seed]) else ts
  }

  lemma BootstrappedNonempty(ts: TierStore, seed: Seed)
    ensures Bootstrapped(ts, seed).keys != map[]
  {
    assert 1 in map[1 := seed];
  }

  // ================================================================ the tier operations

  /** The version the next rotation of the tier uses. */
  ghost function NextVersion(ts: TierStore): int {
    if ts.keys == map[] then 1 else Highest(ts.keys) + 1
  }

  method ListJWTVersions(ids: seq<int>) returns (versions: seq<int>)
    requires forall i, j | 0 <= i < j < |ids| :: ids[i] != ids[j]
    ensures Sorted(versions) && forall x :: x in versions <==> x in ids
  {
    versions := [];
    for i := 0 to |ids|
      invariant Sorted(versions) && forall x :: x in versions <==> x in ids[..i]
    {
      // sort.Ints, as an insertion of the next version.
      var k := 0;
      while k < |versions| && versions[k] < ids[i]
        invariant 0 <= k <= |versions| && forall j | 0 <= j < k :: versions[j] < ids[i]
      {
        k := k + 1;
      }
      ghost var before := versions;
      assert k < |versions| ==> versions[k] in versions && versions[k] in ids[..i];
      assert ids[..i + 1] == ids[..i] + [ids[i]];
      versions := versions[..k] + [ids[i]] + versions[k..];
      assert before == before[..k] + before[k..];
    }
    assert ids[..|ids|] == ids;
  }

  /** ids is what the database lists for the tier; seed is drawn if there is nothing. */
  method LoadJWTRing(ts: TierStore, ids: seq<int>, seed: Seed) returns (ts': TierStore, ring: Ring)
    requires forall i, j | 0 <= i < j < |ids| :: ids[i] != ids[j]
    requires forall v :: v in ids <==> v in ts.keys
    ensures ts' == (if ts.keys == map[] then ts.(keys := map[1 := seed]) else ts) && ts'.keys != map[]
    ensures ring == RingOf(ts')
    ensures ring.activeVersion in ts'.keys && ring.signing == ts'.keys[ring.activeVersion]
    ensures ts'.pointer.Some? && ts'.pointer.value in ts'.keys ==> ring.activeVersion == ts'.pointer.value
    ensures ts'.pointer.None? || ts'.pointer.value !in ts'.keys ==> forall v | v in ts'.keys :: v <= ring.activeVersion
  {
    BootstrappedNonempty(ts, seed);
    var versions := ListJWTVersions(ids);
    ts' := ts;
    if |versions| == 0 {
      forall v ensures v !in ts.keys {
        assert v in ts.keys ==> v in versions;
      }
      assert ts.keys.Keys == {};
      ts' := ts.(keys := map[1 := seed]);
      versions := [1];
    } else {
      assert versions[0] in versions && versions[0] in ts.keys;
    }
    SortedIsAscending(versions, ts'.keys.Keys);
    var activeVersion := versions[|versions| - 1];
    if ts'.pointer.Some? && ts'.pointer.value in versions {
      activeVersion := ts'.pointer.value;
    }
    assert versions[|versions| - 1] in versions;
    HighestIs(ts'.keys, versions);
    assert activeVersion == Active(ts');
    var verifyPubs := BuildVerifyPubs(ts', versions, activeVersion);
    return ts', Ring(activeVersion, ts'.keys[activeVersion], verifyPubs);
  }

  lemma HighestIs(keys: map<int, Seed>, versions: seq<int>)
    requires keys != map[] && Sorted(versions) && versions != [] && forall x :: x in versions <==> x in keys
    ensures versions[|versions| - 1] == Highest(keys)
  {
    var k :| 0 <= k < |versions| && versions[k] == Highest(keys);
    assert versions[|versions| - 1] in versions;
  }

  /** Active key first, then the remaining versions in the order listed. */
  method BuildVerifyPubs(ts: TierStore, versions: seq<int>, activeVersion: int) returns (verifyPubs: seq<PublicKey>)
    requires ts.keys != map[] && activeVersion == Active(ts)
    requires Sorted(versions) && forall x :: x in versions <==> x in ts.keys
    ensures (forall k | 0 <= k < |Ordered(ts)| :: Ordered(ts)[k] in ts.keys) && verifyPubs == Pubs(ts.keys, Ordered(ts))
  {
    OrderedCovers(ts);
    verifyPubs := [Pub(ts.keys[activeVersion])];
    ghost var others: seq<int> := [];
    for i := 0 to |versions|
      invariant Sorted(others) && forall x :: x in others <==> x in versions[..i] && x != activeVersion
      invariant (forall k | 0 <= k < |others| :: others[k] in ts.keys)
                && verifyPubs == Pubs(ts.keys, [activeVersion] + others)
    {
      assert versions[..i + 1] == versions[..i] + [versions[i]] && versions[i] in versions;
      if versions[i] == activeVersion { continue; }
      forall k | 0 <= k < |others| ensures others[k] < versions[i] {
        assert others[k] in others;
        var j :| 0 <= j < i && versions[j] == others[k];
      }
      ghost var more := others + [versions[i]];
      assert [activeVersion] + more == [activeVersion] + others + [versions[i]];
      verifyPubs := verifyPubs + [Pub(ts.keys[versions[i]])];
      assert verifyPubs == Pubs(ts.keys, [activeVersion] + more);
      others := more;
    }
    assert versions[..|versions|] == versions;
    SortedIsAscending(others, ts.keys.Keys - {activeVersion});
  }
}
