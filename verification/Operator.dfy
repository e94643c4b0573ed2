/** The operator account: memory, Vault and a cache on disk (server/operator.go). */
module Operator {
  import opened Basics
  import opened Text
  import opened StateFile
  import opened VaultKv

  datatype Operator = Operator(username: Bytes, passwordHash: Bytes, sessionKey: Bytes, updatedAt: Time)

  /** argon2id taken symbolically: salted hashing and the check that reads the parameters back. */
  datatype Hashing = Hashing(hash: (Bytes, Bytes) -> Bytes, verify: (Bytes, Bytes) -> bool)

  ghost predicate Sound(h: Hashing) {
    forall salt, p, q :: h.verify(h.hash(salt, p), q) <==> p == q
  }

  /** The faults one save or load may meet; a random source that fails draws None. */
  datatype Faults = Faults(readFailure: Option<Bytes>, write: WriteOutcome, mkdirOk: bool, fileWrite: FileWrite)

  datatype Draws = Draws(salt: Option<Bytes>, key: Option<Bytes>)

  /** What the relay process and its surroundings hold. `vaultConfigured` and `hasDir` never change. */
  datatype State = State(vaultConfigured: bool, hasDir: bool, kv: Store<Operator>, file: StateFile<Operator>,
                         rec: Option<Operator>)

  // ---- load ---------------------------------------------------------------------------------

  /** None covers both an unreadable Vault and one without an account: load treats them alike. */
  function ReadVault(s: State, failure: Option<Bytes>): Option<Operator> {
    if !s.vaultConfigured then None
    else
      match KvGet(s.kv, failure)
      case Ok(Some(rec)) => if rec.username == [] then None else Some(rec)
      case _ => None
  }

  function ReadCache(s: State): Option<Operator> {
    if s.hasDir && s.file.Holds? && s.file.value.username != [] && s.file.value.passwordHash != []
    then Some(s.file.value)
    else None
  }

  function LoadStep(s: State, f: Faults): State {
    match ReadVault(s, f.readFailure)
    case Some(rec) => s.(rec := Some(rec), file := Saved(s.hasDir, s.file, rec, f.mkdirOk, f.fileWrite))
    case None =>
      match ReadCache(s)
      case Some(rec) => s.(rec := Some(rec))
      case None => s
  }

  // ---- save ---------------------------------------------------------------------------------

  datatype SaveResult = Stored | BadCredentials | NoRandomness | VaultFailed(text: Bytes) | NoVault

  predicate CredentialsValid(username: Bytes, password: Bytes) {
    0 < |username| <= 64 && 0 < |password| <= 1024
  }

  /** The key the new record carries: kept unless sessions are rotated or there is none to keep. */
  function ChosenKey(rec: Option<Operator>, rotateSessions: bool, draw: Option<Bytes>): Option<Bytes> {
    if rec.Some? && !rotateSessions && rec.value.sessionKey != [] then Some(rec.value.sessionKey) else draw
  }

  function SaveStep(s: State, username: Bytes, password: Bytes, rotateSessions: bool, h: Hashing, d: Draws, now: Time,
                    f: Faults): (State, SaveResult)
  {
    var name := TrimSpace(username);
    if !CredentialsValid(name, password) then (s, BadCredentials)
    else if d.salt.None? || ChosenKey(s.rec, rotateSessions, d.key).None? then (s, NoRandomness)
    else
      var rec := Operator(name, h.hash(d.salt.value, password), ChosenKey(s.rec, rotateSessions, d.key).value, now);
      if !s.vaultConfigured then (s, NoVault)
      else
        var written := s.(kv := KvPut(s.kv, rec, f.write));
        if !f.write.Acknowledged? then (written, VaultFailed(f.write.text))
        else (written.(rec := Some(rec), file := Saved(s.hasDir, s.file, rec, f.mkdirOk, f.fileWrite)), Stored)
  }

  predicate VerifyWith(rec: Option<Operator>, h: Hashing, username: Bytes, password: Bytes) {
    rec.Some? && TrimSpace(username) == rec.value.username && h.verify(rec.value.passwordHash, password)
  }

  // ---- The store as it stands ------------------------------------------------------------------

  class OperatorStore {
    const vaultConfigured: bool
    const hasDir: bool
    const kv: KvStore<Operator>
    const h: Hashing
    var file: StateFile<Operator>
    var rec: Option<Operator>

    constructor (vaultConfigured: bool, hasDir: bool, kv: KvStore<Operator>, h: Hashing, file: StateFile<Operator>)
      ensures this.h == h && this.kv == kv && Abstract() == State(vaultConfigured, hasDir, kv.state, file, None)
    {
      this.vaultConfigured, this.hasDir, this.kv, this.h, this.file, rec := vaultConfigured, hasDir, kv, h, file, None;
    }

    ghost function Abstract(): State
      reads this, kv
    {
      State(vaultConfigured, hasDir, kv.state, file, rec)
    }

    method ReadVaultRecord(failure: Option<Bytes>) returns (r: Option<Operator>)
      ensures r == ReadVault(Abstract(), failure)
    {
      if !vaultConfigured {
        return None;
      }
      var got := kv.Get(failure);
      if got.Err? || got.value.None? || got.value.value.username == [] {
        return None;
      }
      r := got.value;
    }

    method ReadCacheRecord() returns (r: Option<Operator>)
      ensures r == ReadCache(Abstract())
    {
      if !hasDir || !file.Holds? || file.value.username == [] || file.value.passwordHash == [] {
        return None;
      }
      r := Some(file.value);
    }

    method WriteCache(r: Operator, mkdirOk: bool, write: FileWrite)
      modifies this`file
      ensures file == Saved(hasDir, old(file), r, mkdirOk, write)
    {
      if !hasDir || !mkdirOk || write.NothingWritten? {
        return;
      }
      file := if write.Written? then Holds(r) else Garbled;
    }

    method Load(f: Faults)
      modifies this
      ensures Abstract() == LoadStep(old(Abstract()), f)
    {
      var r := ReadVaultRecord(f.readFailure);
      if r.Some? {
        rec := r;
        WriteCache(r.value, f.mkdirOk, f.fileWrite);
        return;
      }
      r := ReadCacheRecord();
      if r.Some? {
        rec := r;
      }
    }

    method Verify(username: Bytes, password: Bytes) returns (ok: bool)
      ensures ok == VerifyWith(rec, h, username, password)
    {
      if rec.None? || TrimSpace(username) != rec.value.username {
        return false;
      }
      ok := h.verify(rec.value.passwordHash, password);
    }

    method Save(username: Bytes, password: Bytes, rotateSessions: bool, d: Draws, now: Time, f: Faults)
      returns (r: SaveResult)
      modifies this, kv
      ensures (Abstract(), r) == SaveStep(old(Abstract()), username, password, rotateSessions, h, d, now, f)
    {
      var name := TrimSpace(username);
      if name == [] || |name| > 64 || password == [] || |password| > 1024 {
        return BadCredentials;
      }
      if d.salt.None? {
        return NoRandomness;
      }
      var sessionKey: Bytes := [];
      if rec.Some? && !rotateSessions {
        sessionKey := rec.value.sessionKey;
      }
      if sessionKey == [] {
        if d.key.None? {
          return NoRandomness;
        }
        sessionKey := d.key.value;
      }
      var record := Operator(name, h.hash(d.salt.value, password), sessionKey, now);
      if !vaultConfigured {
        return NoVault;
      }
      var err := kv.Put(record, f.write);
      if err.Some? {
        return VaultFailed(err.value);
      }
      WriteCache(record, f.mkdirOk, f.fileWrite);
      rec := Some(record);
      r := Stored;
    }
  }

  // ---- What a save promises -----------------------------------------------------------------------

  /** A save that succeeds leaves memory equal to Vault, one that fails leaves memory as it was. */
  lemma SaveAgreesWithVaultOrChangesNothing(s: State, username: Bytes, password: Bytes, rotate: bool, h: Hashing,
                                            d: Draws,
                                            now: Time, f: Faults)
    ensures var (s', r) := SaveStep(s, username, password, rotate, h, d, now, f);
            if r.Stored? then s'.rec.Some? && s'.rec == s'.kv.doc && ReadVault(s', None) == s'.rec
            else s'.rec == s.rec && s'.file == s.file && (f.write.Refused? ==> s'.kv.doc == s.kv.doc)
  {}

  /** After a save the new credentials are accepted, and no other password under that name or any other. */
  lemma SavedCredentialsAreTheOnlyOnes(s: State, username: Bytes, password: Bytes, rotate: bool, h: Hashing,
                                       d: Draws, now: Time,
                                       f: Faults, u: Bytes, p: Bytes)
    requires Sound(h) && SaveStep(s, username, password, rotate, h, d, now, f).1.Stored?
    ensures VerifyWith(SaveStep(s, username, password, rotate, h, d, now, f).0.rec, h, u, p)
            <==> TrimSpace(u) == TrimSpace(username) && p == password
  {}

  /** A relay that restarts over the same Vault and can read it comes back with the saved record. */
  lemma SavedRecordSurvivesARestart(s: State, username: Bytes, password: Bytes, rotate: bool, h: Hashing, d: Draws,
                                    now: Time,
                                    f: Faults, g: Faults)
    requires SaveStep(s, username, password, rotate, h, d, now, f).1.Stored?
    requires g.readFailure.None?
             || (SaveWorks(s.hasDir, f.mkdirOk, f.fileWrite) && s.hasDir
                 && h.hash(d.salt.value, password) != [])
    ensures var s' := SaveStep(s, username, password, rotate, h, d, now, f).0;
            LoadStep(s'.(rec := None), g).rec == s'.rec
  {}

  /** What a load finds: Vault's record when it answers with one, else the cache's when that is usable, else what
      memory held. Only a record from Vault is written to the cache. */
  lemma LoadFindsExactly(s: State, f: Faults)
    ensures var s' := LoadStep(s, f);
            var answered := s.vaultConfigured && f.readFailure.None? && s.kv.doc.Some? && s.kv.doc.value.username != [];
            var cached := s.hasDir && s.file.Holds? && s.file.value.username != [] && s.file.value.passwordHash != [];
            && (answered ==> s'.rec == s.kv.doc)
            && (answered && s.hasDir && f.mkdirOk && f.fileWrite.Written? ==> s'.file == Holds(s.kv.doc.value))
            && (!answered && cached ==> s'.rec == Some(s.file.value))
            && (!answered && !cached ==> s'.rec == s.rec)
            && (!answered || !s.hasDir ==> s'.file == s.file)
            && s'.kv == s.kv
  {
    if !s.vaultConfigured || f.readFailure.Some? {
      assert ReadVault(s, f.readFailure).None?;
    }
  }

  /** A start that reaches Vault prepares the next one that does not. */
  lemma LoadedRecordSurvivesALossOfVault(s: State, f: Faults, g: Faults)
    requires s.vaultConfigured && f.readFailure.None? && s.kv.doc.Some? && s.kv.doc.value.username != []
    requires s.kv.doc.value.passwordHash != [] && s.hasDir && f.mkdirOk && f.fileWrite.Written?
    ensures LoadStep(LoadStep(s, f).(rec := None), g).rec == s.kv.doc
  {
    LoadFindsExactly(s, f);
    LoadFindsExactly(LoadStep(s, f).(rec := None), g);
  }

  /** When a save succeeds, why it does not, and the record it makes: the session key is kept exactly when it is not
      to be rotated and there is one. */
  lemma SaveSucceedsExactly(s: State, username: Bytes, password: Bytes, rotate: bool, h: Hashing, d: Draws, now: Time,
                            f: Faults)
    ensures var (s', r) := SaveStep(s, username, password, rotate, h, d, now, f);
            var fit := 0 < |TrimSpace(username)| <= 64 && 0 < |password| <= 1024;
            var keeps := s.rec.Some? && !rotate && s.rec.value.sessionKey != [];
            var drawn := d.salt.Some? && (keeps || d.key.Some?);
            && (r.BadCredentials? <==> !fit) && (r.NoRandomness? <==> fit && !drawn)
            && (r.NoVault? <==> fit && drawn && !s.vaultConfigured)
            && (r.Stored? <==> fit && drawn && s.vaultConfigured && f.write.Acknowledged?)
            && (r.VaultFailed? ==> r.text == f.write.text)
            && (r.Stored? ==>
                  s'.rec == Some(Operator(TrimSpace(username), h.hash(d.salt.value, password),
                                          if keeps then s.rec.value.sessionKey else d.key.value, now)))
            && (r.Stored? && s.hasDir && f.mkdirOk && f.fileWrite.Written? ==> s'.file == Holds(s'.rec.value))
  {}
}
