/** crypto/envelope_rotation.go: re-wrapping every system_keys row under a new envelope master. */
module Envelope {
  import opened Prelude
  import opened SecretsEnv

  /**
   AEAD and key derivation as ideal functions: a ciphertext opens under the master, nonce and key type it
   was sealed with and no others; anything else in the column never opens.
  */
  datatype Cipher = Sealed(master: Bytes, keyType: string, nonce: int, plaintext: Bytes) | Garbage

  /** A system_keys row. */
  datatype SysKey = SysKey(keyType: string, data: Cipher, nonce: int)

  function Encrypt(master: Bytes, plaintext: Bytes, keyType: string, nonce: int): SysKey {
    SysKey(keyType, Sealed(master, keyType, nonce, plaintext), nonce)
  }

  function Decrypt(master: Bytes, row: SysKey): Option<Bytes> {
    if row.data.Sealed? && row.data.master == master && row.data.keyType == row.keyType
       && row.data.nonce == row.nonce then
      Some(row.data.plaintext)
    else None
  }

  type Keys = map<string, SysKey>

  const ENTITY_ID: string := "entity_id_master_key"

  ghost predicate Readable(keys: Keys, master: Bytes) {
    forall id | id in keys :: Decrypt(master, keys[id]).Some?
  }

  /** ids lists every row once, in the order the database returns them. */
  ghost predicate Lists(keys: Keys, ids: seq<string>) {
    (forall id :: id in ids <==> id in keys) && forall i, j | 0 <= i < j < |ids| :: ids[i] != ids[j]
  }

  datatype Failure = BadLength | Undecryptable(id: string) | UpdateRefused

  /** The random material a rotation draws: a nonce for each row and a fresh EntityID master. */
  datatype Draw = Draw(nonces: map<string, int>, entityId: Bytes)

  function NonceFor(draw: Draw, id: string): int {
    if id in draw.nonces then draw.nonces[id] else 0
  }

  /** What a row becomes, if it can be re-wrapped. */
  function Rewrap(id: string, row: SysKey, oldMaster: Bytes, newMaster: Bytes, draw: Draw): Option<SysKey> {
    var plaintext := if id == ENTITY_ID then Some(draw.entityId) else Decrypt(oldMaster, row);
    if plaintext.None? then None else Some(Encrypt(newMaster, plaintext.value, row.keyType, NonceFor(draw, id)))
  }

  ghost predicate AllRewrap(keys: Keys, oldMaster: Bytes, draw: Draw) {
    forall id | id in keys && id != ENTITY_ID :: Decrypt(oldMaster, keys[id]).Some?
  }

  class SystemKeys {
    var rows: Keys

    constructor (rows: Keys)
      ensures this.rows == rows
    {
      this.rows := rows;
    }

    /**
     One transaction: first every row is decrypted and re-encrypted into a buffer, then the buffer is
     written. refused says whether the database refuses a write or the commit.
    */
    method ReencryptAllSystemKeys(ids: seq<string>, oldMaster: Bytes, newMaster: Bytes, draw: Draw, refused: bool)
      returns (r: Result<(nat, bool), Failure>)
      requires Lists(rows, ids)
      modifies this
      ensures r.Ok? <==> |oldMaster| == |newMaster| == 32 && !refused && AllRewrap(old(rows), oldMaster, draw)
      ensures r.Err? ==> rows == old(rows)
      ensures r.Ok? ==> rows.Keys == old(rows).Keys && r.value == (|ids|, ENTITY_ID in old(rows))
      ensures r.Ok? ==> forall id | id in rows ::
                Some(rows[id]) == Rewrap(id, old(rows)[id], oldMaster, newMaster, draw)
    {
      if |oldMaster| != 32 || |newMaster| != 32 { return Err(BadLength); }
      var updates: seq<SysKey> := [];
      var regenerated := false;
      for i := 0 to |ids|
        invariant |updates| == i
        invariant forall k | 0 <= k < i :: Some(updates[k]) == Rewrap(ids[k], rows[ids[k]], oldMaster, newMaster, draw)
        invariant regenerated <==> ENTITY_ID in ids[..i]
      {
        assert ids[i] in ids && ids[..i + 1] == ids[..i] + [ids[i]];
        var row := Rewrap(ids[i], rows[ids[i]], oldMaster, newMaster, draw);
        if ids[i] == ENTITY_ID {
          regenerated := true;
        }
        if row.None? { return Err(Undecryptable(ids[i])); }
        updates := updates + [row.value];
      }
      assert ids[..|ids|] == ids;
      forall id | id in rows && id != ENTITY_ID ensures Decrypt(oldMaster, rows[id]).Some? {
        var k :| 0 <= k < |ids| && ids[k] == id;
      }
      if refused { return Err(UpdateRefused); }
      WriteBuffer(ids, updates);
      return Ok((|ids|, regenerated));
    }

    /** The UPDATEs of the buffered rows, one by one. */
    method WriteBuffer(ids: seq<string>, updates: seq<SysKey>)
      requires |updates| == |ids| && Lists(rows, ids)
      modifies this
      ensures rows.Keys == old(rows).Keys
      ensures forall k | 0 <= k < |ids| :: ids[k] in rows && rows[ids[k]] == updates[k]
    {
      for i := 0 to |ids|
        invariant rows.Keys == old(rows).Keys
        invariant forall k | 0 <= k < i :: ids[k] in rows && rows[ids[k]] == updates[k]
      {
        assert ids[i] in ids;
        rows := rows[ids[i] := updates[i]];
      }
    }

    /** The count is all rows exactly when every row opens under the master. */
    method VerifyAllSystemKeysDecryptable(ids: seq<string>, master: Bytes) returns (count: nat, ok: bool)
      requires Lists(rows, ids)
      ensures ok <==> |master| == 32 && Readable(rows, master)
      ensures ok ==> count == |ids|
    {
      if |master| != 32 { return 0, false; }
      count := 0;
      for i := 0 to |ids|
        invariant count == i
        invariant forall k | 0 <= k < i :: ids[k] in rows && Decrypt(master, rows[ids[k]]).Some?
      {
        assert ids[i] in ids;
        if Decrypt(master, rows[ids[i]]).None? { return count, false; }
        count := count + 1;
      }
      forall id | id in rows ensures Decrypt(master, rows[id]).Some? {
        var k :| 0 <= k < |ids| && ids[k] == id;
      }
      return count, true;
    }
  }

  /** The table after a re-wrap that succeeds. */
  function Rewrapped(keys: Keys, oldMaster: Bytes, newMaster: Bytes, draw: Draw): Keys {
    map id | id in keys && Rewrap(id, keys[id], oldMaster, newMaster, draw).Some? ::
      Rewrap(id, keys[id], oldMaster, newMaster, draw).value
  }

  /**
   A re-wrapped table opens under the new master in every row, each to its old plaintext, except the
   EntityID master, which is the fresh one; under any other master no row opens.
  */
  lemma RewrapTransparent(keys: Keys, oldMaster: Bytes, newMaster: Bytes, draw: Draw, other: Bytes)
    requires AllRewrap(keys, oldMaster, draw) && other != newMaster
    ensures var after := Rewrapped(keys, oldMaster, newMaster, draw);
            && after.Keys == keys.Keys
            && (forall id | id in keys ::
                  Decrypt(newMaster, after[id])
                  == if id == ENTITY_ID then Some(draw.entityId) else Decrypt(oldMaster, keys[id]))
            && (forall id | id in keys :: after[id].nonce == NonceFor(draw, id))
            && (forall id | id in keys :: after[id].keyType == keys[id].keyType && Decrypt(other, after[id]) == None)
  {
  }

  /** Two masters cannot both open a row. */
  lemma OneMasterPerRow(row: SysKey, a: Bytes, b: Bytes)
    requires Decrypt(a, row).Some? && Decrypt(b, row).Some?
    ensures a == b
  {
  }
}

/** auth/envelope_rotation_apply.go: the rotation as a sequence of durable steps that may stop anywhere. */
module EnvelopeProtocol {
  import opened Prelude
  import opened SecretsEnv
  import opened Envelope

  const JWT_FULL_PREFIX: string := "jwt_signing_key_full_v"

  /** A recovery file: readable, or cut off in the middle of its write. */
  datatype RecoveryFile = Complete(master: Bytes) | Torn

  /** Everything that survives a stop. */
  datatype Disk = Disk(
    secretsEnv: string,
    recovery: map<string, RecoveryFile>,   // by the timestamp in the file name
    backups: map<string, string>,
    keys: Keys,
    consumed: set<string>)                 // nonces of used mandates

  /** A master that the rotation draws. */
  type MasterKey = m: Bytes | |m| == 32 witness seq(32, _ => 0)

  /** What one call of the rotation is given, draws or meets. */
  datatype Call = Call(
    mandate: Option<string>, // the nonce of a mandate whose signature and fields verify
    newMaster: MasterKey,
    timestamp: string,
    draw: Draw)

  /** The durable steps, in order; a stop after step k leaves the first k done. */
  datatype Stage = NothingDone | MandateConsumed | RecoveryTorn | RecoveryWritten | BackedUp | RowsRewrapped | Installed

  /** The master that the rotation reads out of secrets.env: the first key line's. */
  function EnvMaster(d: Disk): Result<Bytes, ReadError> {
    ReadKey(SplitLines(d.secretsEnv))
  }

  /** The master that a process started on secrets.env works with: the last one assigned. */
  function ServiceMaster(d: Disk): Result<Bytes, ReadError> {
    StartMaster(SplitLines(d.secretsEnv))
  }

  function WithMaster(content: string, master: Bytes): string {
    JoinLines(Rewritten(SplitLines(content), EncodeHex(master)))
  }

  predicate IsJwtFull(id: string) {
    JWT_FULL_PREFIX <= id
  }

  /** The full-tier verification keys load: there are some and each opens. */
  predicate JwtKeysLoad(keys: Keys, master: Bytes) {
    && (exists id | id in keys :: IsJwtFull(id))
    && forall id | id in keys && IsJwtFull(id) :: Decrypt(master, keys[id]).Some?
  }

  /**
   The checks that come before the first durable step. The command loads secrets.env into its environment
   and starts its key manager from there; the mandate's verification keys are opened under that master.
  */
  predicate Admitted(d: Disk, c: Call) {
    && ServiceMaster(d).Ok?
    && EnvMaster(d).Ok?
    && JwtKeysLoad(d.keys, ServiceMaster(d).value)
    && c.mandate.Some? && c.mandate.value !in d.consumed
  }

  /**
   When a rotation is admitted, on a file whose first key line is first and whose last line to assign the
   variable is last: no line is overlong, both lines give 32 bytes, there are full-tier signing keys and all
   of them open under the last line's master, and the mandate verifies and has not been used. Nothing else
   is asked: no state of the recovery files, the backups or the other rows.
  */
  lemma AdmittedExactly(d: Disk, c: Call, first: nat, last: nat)
    requires var lines := SplitLines(d.secretsEnv);
             && first < |lines| && IsKeyLine(lines[first]) && (forall k | 0 <= k < first :: !IsKeyLine(lines[k]))
             && last < |lines| && Assigned(lines[last]).Some?
             && forall k | last < k < |lines| :: Assigned(lines[k]).None?
    ensures var lines := SplitLines(d.secretsEnv);
            var master := InitMaster(Assigned(lines[last]));
            Admitted(d, c)
            <==> && (forall k | 0 <= k < |lines| :: !TooLong(lines[k]))
                 && KeyOf(lines[first]).Ok? && master.Ok?
                 && (exists id :: id in d.keys && "jwt_signing_key_full_v" <= id)
                 && (forall id | id in d.keys && "jwt_signing_key_full_v" <= id ::
                       Decrypt(master.value, d.keys[id]).Some?)
                 && c.mandate.Some? && c.mandate.value !in d.consumed
  {
    var lines := SplitLines(d.secretsEnv);
    ReadFirstKeyLine(lines, first);
    if forall k | 0 <= k < |lines| :: !TooLong(lines[k]) {
      LastAssignmentWins(lines, None, last);
    } else if LoadLines(lines, None).Ok? {
      LoadedAreShort(lines, None);
    }
  }

  /** Without a key line none is. */
  lemma NotAdmittedWithoutKeyLine(d: Disk, c: Call)
    requires forall k | 0 <= k < |SplitLines(d.secretsEnv)| :: !IsKeyLine(SplitLines(d.secretsEnv)[k])
    ensures !Admitted(d, c)
  {
    NothingToRead(SplitLines(d.secretsEnv));
  }

  /** The disk after the rotation has stopped at the given stage, and how far it could get at most. */
  ghost function StoppedAt(d: Disk, c: Call, stage: Stage): Disk
    requires Admitted(d, c)
  {
    var oldMaster := EnvMaster(d).value;
    var d1 := d.(consumed := d.consumed + {c.mandate.value});
    var d2 := d1.(recovery := d1.recovery[c.timestamp := Complete(c.newMaster)]);
    var d3 := d2.(backups := d2.backups[c.timestamp := d.secretsEnv]);
    var d4 := d3.(keys := Rewrapped(d.keys, oldMaster, c.newMaster, c.draw));
    match stage
    case NothingDone => d
    case MandateConsumed => d1
    case RecoveryTorn => d1.(recovery := d1.recovery[c.timestamp := Torn])
    case RecoveryWritten => d2
    case BackedUp => d3
    case RowsRewrapped => d4
    case Installed => d4.(secretsEnv := WithMaster(d.secretsEnv, c.newMaster))
  }

  /** The re-wrap commits only if every row it decrypts opens; without it nothing later happens. */
  ghost predicate CanReach(d: Disk, c: Call, stage: Stage) {
    && (stage != NothingDone ==> Admitted(d, c))
    && (stage == RowsRewrapped || stage == Installed ==> AllRewrap(d.keys, EnvMaster(d).value, c.draw))
  }

  /** The deployment that the offline rotation works on: files, and the table inside its database. */
  class Deployment {
    var secretsEnv: string
    var recovery: map<string, RecoveryFile>
    var backups: map<string, string>
    var consumed: set<string>
    const table: SystemKeys

    constructor (secretsEnv: string, table: SystemKeys)
      ensures this.table == table && View() == Disk(secretsEnv, map[], map[], table.rows, {})
    {
      this.secretsEnv, this.table := secretsEnv, table;
      recovery, backups, consumed := map[], map[], {};
    }

    function View(): Disk
      reads this, table
    {
      Disk(secretsEnv, recovery, backups, table.rows, consumed)
    }

    /**
     The rotation, stopped after the given stage by a crash or a failing file operation; refused says
     whether the database refuses the re-wrap. It reports the stage it left the disk in.
    */
    method ApplyEnvelopeMasterRotation(c: Call, ids: seq<string>, stop: Stage, refused: bool)
      returns (reached: Stage, ok: bool)
      requires Lists(table.rows, ids)
      modifies this, table
      ensures CanReach(old(View()), c, reached)
      ensures View() == if reached == NothingDone then old(View()) else StoppedAt(old(View()), c, reached)
      ensures reached == if stop == NothingDone || !Admitted(old(View()), c) then NothingDone
                         else if stop != RowsRewrapped && stop != Installed then stop
                         else if !refused && AllRewrap(old(table.rows), EnvMaster(old(View())).value, c.draw) then stop
                         else BackedUp
      ensures ok <==> reached == Installed
    {
      if !Admitted(View(), c) || stop == NothingDone { return NothingDone, false; }
      var oldMaster := EnvMaster(View()).value;
      consumed := consumed + {c.mandate.value};
      if stop == MandateConsumed { return MandateConsumed, false; }
      if stop == RecoveryTorn {
        recovery := recovery[c.timestamp := Torn];
        return RecoveryTorn, false;
      }
      recovery := recovery[c.timestamp := Complete(c.newMaster)];
      if stop == RecoveryWritten { return RecoveryWritten, false; }
      backups := backups[c.timestamp := secretsEnv];
      if stop == BackedUp { return BackedUp, false; }
      reached, ok := RewrapAndInstall(c, oldMaster, ids, stop, refused);
    }

    /** The part of the rotation from the re-wrap on. */
    method RewrapAndInstall(c: Call, oldMaster: Bytes, ids: seq<string>, stop: Stage, refused: bool)
      returns (reached: Stage, ok: bool)
      requires Lists(table.rows, ids) && EnvMaster(View()) == Ok(oldMaster)
      requires stop == RowsRewrapped || stop == Installed
      modifies this`secretsEnv, table
      ensures reached == if refused || !AllRewrap(old(table.rows), oldMaster, c.draw) then BackedUp else stop
      ensures reached == BackedUp ==> View() == old(View())
      ensures reached != BackedUp ==>
                && AllRewrap(old(table.rows), oldMaster, c.draw)
                && table.rows == Rewrapped(old(table.rows), oldMaster, c.newMaster, c.draw)
                && secretsEnv
                   == if reached == Installed then WithMaster(old(secretsEnv), c.newMaster) else old(secretsEnv)
      ensures ok <==> reached == Installed
    {
      ReadKeyLength(SplitLines(secretsEnv));
      var r := table.ReencryptAllSystemKeys(ids, oldMaster, c.newMaster, c.draw, refused);
      if r.Err? { return BackedUp, false; }
      assert table.rows == Rewrapped(old(table.rows), oldMaster, c.newMaster, c.draw);
      if stop == RowsRewrapped { return RowsRewrapped, false; }
      ReadableHasKeyLine(secretsEnv);
      var rewritten := RewriteMasterKeyInSecretsEnv(secretsEnv, EncodeHex(c.newMaster));
      secretsEnv := rewritten.value;
      assert Readable(table.rows, c.newMaster);
      var count, verified := table.VerifyAllSystemKeysDecryptable(ids, c.newMaster);
      return Installed, verified;
    }
  }

  /** A master that was read is 32 bytes long, from a file that has a key line. */
  lemma {:induction false} ReadKeyLength(lines: seq<string>)
    requires ReadKey(lines).Ok?
    ensures |ReadKey(lines).value| == 32
  {
    if !IsKeyLine(lines[0]) {
      ReadKeyLength(lines[1..]);
    }
  }

  lemma ReadableHasKeyLine(content: string)
    requires ReadKey(SplitLines(content)).Ok?
    ensures FirstKeyLine(SplitLines(content)) < |SplitLines(content)|
  {
    if FirstKeyLine(SplitLines(content)) == |SplitLines(content)| {
      NothingToRead(SplitLines(content));
    }
  }

  /** Some master that opens every row is in secrets.env or in a recovery file. */
  ghost predicate Recoverable(d: Disk) {
    || (EnvMaster(d).Ok? && Readable(d.keys, EnvMaster(d).value))
    || (ServiceMaster(d).Ok? && Readable(d.keys, ServiceMaster(d).value))
    || exists ts :: InRecovery(d, ts)
  }

  /** This recovery file holds a master that opens every row. */
  ghost predicate InRecovery(d: Disk, ts: string) {
    ts in d.recovery && d.recovery[ts].Complete? && Readable(d.keys, d.recovery[ts].master)
  }

  /**
   A recovery file that an admitted rotation overwrites, as one of the same second, holds no master that
   secrets.env does not hold too: both open the signing keys.
  */
  lemma OverwrittenIsCurrent(d: Disk, c: Call)
    requires Admitted(d, c) && InRecovery(d, c.timestamp)
    ensures Readable(d.keys, ServiceMaster(d).value)
  {
    var id :| id in d.keys && IsJwtFull(id);
    OneMasterPerRow(d.keys[id], ServiceMaster(d).value, d.recovery[c.timestamp].master);
  }

  /** A new master that happens to open the old table is the one already in use. */
  lemma DrawnIsCurrent(d: Disk, c: Call)
    requires Admitted(d, c) && Readable(d.keys, c.newMaster)
    ensures Readable(d.keys, ServiceMaster(d).value)
  {
    var id :| id in d.keys && IsJwtFull(id);
    OneMasterPerRow(d.keys[id], ServiceMaster(d).value, c.newMaster);
  }

  /** What a stop before the re-wrap leaves: the same table and secrets.env, and the other recovery files. */
  lemma StoppedEarly(d: Disk, c: Call, stage: Stage)
    requires Admitted(d, c) && stage != RowsRewrapped && stage != Installed
    ensures var d' := StoppedAt(d, c, stage);
            && d'.keys == d.keys && d'.secretsEnv == d.secretsEnv
            && (forall ts | ts != c.timestamp :: InRecovery(d', ts) <==> InRecovery(d, ts))
            && (InRecovery(d', c.timestamp) ==> InRecovery(d, c.timestamp) || Readable(d.keys, c.newMaster))
  {
  }

  /** A stop after it: the new master opens every row and is in the recovery file. */
  lemma StoppedLate(d: Disk, c: Call, stage: Stage)
    requires CanReach(d, c, stage) && (stage == RowsRewrapped || stage == Installed)
    ensures InRecovery(StoppedAt(d, c, stage), c.timestamp)
  {
  }

  /**
   Wherever a rotation stops, what is left is recoverable if and only if it was before, or the re-wrap went
   through: a master that opens every row is never lost, whatever files were there, and one that had been
   lost earlier comes back with the re-wrap.
  */
  lemma StopAnywhere(d: Disk, c: Call, stage: Stage)
    requires CanReach(d, c, stage) && stage != NothingDone
    ensures Recoverable(StoppedAt(d, c, stage)) <==> Recoverable(d) || stage == RowsRewrapped || stage == Installed
  {
    if stage == RowsRewrapped || stage == Installed {
      StoppedLate(d, c, stage);
    } else {
      StoppedEarly(d, c, stage);
      if InRecovery(d, c.timestamp) {
        OverwrittenIsCurrent(d, c);
      }
      if Readable(d.keys, c.newMaster) {
        DrawnIsCurrent(d, c);
      }
    }
  }

  /**
   After a rotation that completes, every row opens under the new master to its old plaintext (the EntityID
   master to the fresh one), the old file is backed up, and the new master is in the recovery file.
  */
  lemma Completed(d: Disk, c: Call, id: string)
    requires CanReach(d, c, Installed) && id in d.keys
    ensures var d' := StoppedAt(d, c, Installed);
            var oldMaster := EnvMaster(d).value;
            && Readable(d'.keys, c.newMaster) && d'.keys.Keys == d.keys.Keys
            && Decrypt(c.newMaster, d'.keys[id])
               == (if id == ENTITY_ID then Some(c.draw.entityId) else Decrypt(oldMaster, d.keys[id]))
            && c.timestamp in d'.backups && d'.backups[c.timestamp] == d.secretsEnv
            && c.timestamp in d'.recovery && d'.recovery[c.timestamp] == Complete(c.newMaster)
  {
  }

  /** And secrets.env says the new master and differs in no other line. */
  lemma InstalledFile(d: Disk, c: Call)
    requires CanReach(d, c, Installed)
    ensures var d' := StoppedAt(d, c, Installed);
            var before, after := SplitLines(d.secretsEnv), SplitLines(d'.secretsEnv);
            && EnvMaster(d') == Ok(c.newMaster)
            && |after| == |before|
            && forall k | 0 <= k < |before| && k != FirstKeyLine(before) :: after[k] == before[k]
  {
    ReadableStaysReadable(d.secretsEnv, c.newMaster);
    RewriteThenRead(d.secretsEnv, c.newMaster);
  }

  /**
   After it the service starts with the new master if and only if no line after the rewritten one assigns
   the variable again; the new master, drawn at random, is in no line of the old file.
  */
  lemma ServiceFollowsIff(d: Disk, c: Call)
    requires CanReach(d, c, Installed)
    requires forall k | 0 <= k < |SplitLines(d.secretsEnv)| :: !Says(SplitLines(d.secretsEnv)[k], c.newMaster)
    ensures var lines := SplitLines(d.secretsEnv);
            ServiceMaster(StoppedAt(d, c, Installed)) == Ok(c.newMaster)
            <==> forall k | FirstKeyLine(lines) < k < |lines| :: Assigned(lines[k]).None?
  {
    var lines := SplitLines(d.secretsEnv);
    RewrittenLines(d.secretsEnv, c.newMaster);
    StartsWithNewIff(lines, c.newMaster);
  }

  lemma RewrittenLines(content: string, master: Bytes)
    requires |master| == 32
    ensures SplitLines(WithMaster(content, master)) == Rewritten(SplitLines(content), EncodeHex(master))
  {
    SplitThenJoin(content);
    InstalledLine(master);
    JoinThenSplit(Rewritten(SplitLines(content), EncodeHex(master)));
  }

  /** Nothing stands in the way of a rotation whose rows all open under the master in secrets.env. */
  lemma CanComplete(d: Disk, c: Call)
    requires Admitted(d, c) && Readable(d.keys, EnvMaster(d).value)
    ensures CanReach(d, c, Installed)
  {
  }

  /** On a file with one line for the master, that is the case as soon as the service's master opens them. */
  lemma OneLineCanComplete(d: Disk, c: Call)
    requires Admitted(d, c) && OneAssignment(SplitLines(d.secretsEnv)) && Readable(d.keys, ServiceMaster(d).value)
    ensures CanReach(d, c, Installed)
  {
    SameMaster(SplitLines(d.secretsEnv));
  }

  // ================================================================ whole histories

  datatype Event =
    | Rotate(c: Call, stage: Stage)
    | InstallRecovery(timestamp: string)             // the operator puts a recovery file's master into secrets.env
    | StoreKey(id: string, keyType: string, plaintext: Bytes, nonce: int)  // by the service, under its master
    | DeleteKey(id: string)

  ghost predicate Possible(d: Disk, e: Event) {
    match e
    case Rotate(c, stage) => CanReach(d, c, stage)
    case InstallRecovery(ts) =>
      && ts in d.recovery && d.recovery[ts].Complete? && |d.recovery[ts].master| == 32
      && Readable(d.keys, d.recovery[ts].master)
      && FirstKeyLine(SplitLines(d.secretsEnv)) < |SplitLines(d.secretsEnv)|
    case StoreKey(_, _, _, _) => ServiceMaster(d).Ok? && Readable(d.keys, ServiceMaster(d).value)
    case DeleteKey(_) => true
  }

  ghost function Next(d: Disk, e: Event): Disk
    requires Possible(d, e)
  {
    match e
    case Rotate(c, stage) => if stage == NothingDone then d else StoppedAt(d, c, stage)
    case InstallRecovery(ts) => d.(secretsEnv := WithMaster(d.secretsEnv, d.recovery[ts].master))
    case StoreKey(id, keyType, plaintext, nonce) =>
      d.(keys := d.keys[id := Encrypt(ServiceMaster(d).value, plaintext, keyType, nonce)])
    case DeleteKey(id) => d.(keys := d.keys - {id})
  }

  ghost predicate Happens(d: Disk, events: seq<Event>)
    decreases |events|
  {
    events == [] || (Possible(d, events[0]) && Happens(Next(d, events[0]), events[1..]))
  }

  ghost function After(d: Disk, events: seq<Event>): Disk
    requires Happens(d, events)
    decreases |events|
  {
    if events == [] then d else After(Next(d, events[0]), events[1..])
  }

  lemma EventKeeps(d: Disk, e: Event)
    requires Recoverable(d) && Possible(d, e)
    ensures Recoverable(Next(d, e))
  {
    var d' := Next(d, e);
    match e
    case Rotate(c, stage) =>
      if stage != NothingDone {
        StopAnywhere(d, c, stage);
      }
    case InstallRecovery(ts) => assert InRecovery(d', ts);
    case StoreKey(_, _, _, _) => assert Readable(d'.keys, ServiceMaster(d').value);
    case DeleteKey(_) => assert forall ts :: InRecovery(d, ts) ==> InRecovery(d', ts);
  }

  /**
   Over every history of rotations that stop wherever they like, operator recoveries and key writes, the
   table never becomes unreadable: a master for it stays in secrets.env or in a recovery file.
  */
  lemma {:induction false} NeverLost(d: Disk, events: seq<Event>)
    requires Recoverable(d) && Happens(d, events)
    ensures Recoverable(After(d, events))
    decreases |events|
  {
    if events != [] {
      EventKeeps(d, events[0]);
      NeverLost(Next(d, events[0]), events[1..]);
    }
  }

  /** A mandate serves one rotation: whatever stops or fails later, it is not accepted again. */
  lemma {:induction false} MandateUsedOnce(d: Disk, c: Call, stage: Stage, events: seq<Event>, again: Call)
    requires Possible(d, Rotate(c, stage)) && stage != NothingDone
    requires Happens(Next(d, Rotate(c, stage)), events) && again.mandate == c.mandate
    ensures !Admitted(After(Next(d, Rotate(c, stage)), events), again)
  {
    ConsumedStays(Next(d, Rotate(c, stage)), events);
  }

  lemma ConsumedStep(d: Disk, e: Event)
    requires Possible(d, e)
    ensures d.consumed <= Next(d, e).consumed
  {
  }

  lemma {:induction false} ConsumedStays(d: Disk, events: seq<Event>)
    requires Happens(d, events)
    ensures d.consumed <= After(d, events).consumed
    decreases |events|
  {
    if events != [] {
      ConsumedStep(d, events[0]);
      ConsumedStays(Next(d, events[0]), events[1..]);
    }
  }
}
