/** Whole runs of the operator account: bootstraps, password changes and restarts, with Vault and the
    cache failing in any way. */
module OperatorRuns {
  import opened Basics
  import opened StateFile
  import opened VaultKv
  import opened Operator
  import opened Auth
  import Strconv
  import Text

  /** `everInVault` and `drawn` are history; `bootstraps` counts the successes of this process life. */
  datatype World = World(s: State, everInVault: set<Operator>, drawn: set<Bytes>, bootstraps: nat)

  datatype Action =
    | Restart(f: Faults)
    | Bootstrap(form: Form, d: Draws, now: Time, f: Faults)
    | ChangePassword(form: Form, d: Draws, now: Time, f: Faults)

  /** Session keys are drawn fresh: never a key drawn before, never the admin token. */
  predicate Enabled(w: World, a: Action, token: Bytes) {
    a.Restart? || a.d.key.None? || (a.d.key.value !in w.drawn && a.d.key.value != token && a.d.key.value != [])
  }

  function Recorded(w: World, s': State, drew: Option<Bytes>): World {
    w.(s := s',
       everInVault := w.everInVault + if s'.kv.doc.Some? then {s'.kv.doc.value} else {},
       drawn := w.drawn + if drew.Some? then {drew.value} else {})
  }

  function Next(w: World, a: Action, token: Bytes, h: Hashing): World {
    match a
    case Restart(f) => w.(s := LoadStep(w.s.(rec := None), f), bootstraps := 0)
    case Bootstrap(form, d, now, f) =>
      var (s', r) := BootstrapStep(w.s, token, form, h, d, now, f);
      Recorded(w, s', d.key).(bootstraps := w.bootstraps + if r.Done? then 1 else 0)
    case ChangePassword(form, d, now, f) =>
      Recorded(w, ChangePasswordStep(w.s, token, form, h, d, now, f).0, d.key)
  }

  function Start(vaultConfigured: bool, hasDir: bool): World {
    World(State(vaultConfigured, hasDir, Store(None, 0), Absent, None), {}, {}, 0)
  }

  ghost predicate Run(w: World, actions: seq<Action>, token: Bytes, h: Hashing, w': World)
    decreases |actions|
  {
    if actions == [] then w' == w
    else Enabled(w, actions[0], token) && Run(Next(w, actions[0], token, h), actions[1..], token, h, w')
  }

  // ---- Where every record comes from ------------------------------------------------------------------

  ghost predicate Inv(w: World) {
    && (w.s.kv.doc.Some? ==> w.s.kv.doc.value in w.everInVault)
    && (w.s.file.Holds? ==> w.s.file.value in w.everInVault)
    && (w.s.rec.Some? ==> w.s.rec.value in w.everInVault)
    && (forall rec :: rec in w.everInVault ==> rec.sessionKey in w.drawn && rec.username != [] && rec.sessionKey != [])
    && w.bootstraps <= 1 && (w.bootstraps == 1 ==> w.s.rec.Some?)
  }

  /** A rotating save stores a record under the key just drawn, or stores nothing. */
  lemma SavingDrawsTheKey(s: State, username: Bytes, password: Bytes, h: Hashing, d: Draws, now: Time, f: Faults)
    ensures var (s', r) := SaveStep(s, username, password, true, h, d, now, f);
            && (s'.kv.doc != s.kv.doc || r.Stored? ==>
                  && d.key.Some? && s'.kv.doc.Some?
                  && s'.kv.doc.value.sessionKey == d.key.value && s'.kv.doc.value.username != [])
            && (if r.Stored? then
                  s'.rec == s'.kv.doc && (s'.file == s.file || s'.file == Garbled || s'.file == Holds(s'.rec.value))
                else s'.rec == s.rec && s'.file == s.file)
            && s'.vaultConfigured == s.vaultConfigured && s'.hasDir == s.hasDir
            && (r.Stored? ==> s.vaultConfigured)
  {}

  /** What either handler does to the state, in the terms the runs need. */
  ghost predicate Handled(s: State, s': State, done: bool, d: Draws) {
    && (s'.kv.doc != s.kv.doc || done ==>
          d.key.Some? && s'.kv.doc.Some? && s'.kv.doc.value.sessionKey == d.key.value && s'.kv.doc.value.username != [])
    && (if done then s'.rec == s'.kv.doc && (s'.file == s.file || s'.file == Garbled || s'.file == Holds(s'.rec.value))
        else s'.rec == s.rec && s'.file == s.file)
    && s'.vaultConfigured == s.vaultConfigured && s'.hasDir == s.hasDir
    && (done ==> s.vaultConfigured)
  }

  lemma BootstrapIsHandled(s: State, token: Bytes, form: Form, h: Hashing, d: Draws, now: Time, f: Faults)
    ensures var (s', r) := BootstrapStep(s, token, form, h, d, now, f);
            Handled(s, s', r.Done?, d) && (s.rec.Some? ==> r == Conflict && s' == s)
  {
    SavingDrawsTheKey(s, Text.TrimSpace(form.username), form.password, h, d, now, f);
  }

  lemma ChangeIsHandled(s: State, token: Bytes, form: Form, h: Hashing, d: Draws, now: Time, f: Faults)
    ensures var (s', r) := ChangePasswordStep(s, token, form, h, d, now, f);
            Handled(s, s', r.Done?, d)
  {
    if s.rec.Some? {
      var name := if Text.TrimSpace(form.username) == [] then s.rec.value.username else Text.TrimSpace(form.username);
      SavingDrawsTheKey(s, name, form.password, h, d, now, f);
    }
  }

  lemma HandlingKeepsInv(w: World, s': State, done: bool, d: Draws)
    requires Inv(w) && Handled(w.s, s', done, d) && (d.key.Some? ==> d.key.value != [])
    ensures Inv(Recorded(w, s', d.key).(bootstraps := w.bootstraps))
    ensures done ==> s'.rec.Some?
  {}

  lemma StepKeepsInv(w: World, a: Action, token: Bytes, h: Hashing)
    requires Inv(w) && Enabled(w, a, token)
    ensures Inv(Next(w, a, token, h))
  {
    match a
    case Restart(f) =>
    case Bootstrap(form, d, now, f) =>
      BootstrapIsHandled(w.s, token, form, h, d, now, f);
      var (s', r) := BootstrapStep(w.s, token, form, h, d, now, f);
      HandlingKeepsInv(w, s', r.Done?, d);
    case ChangePassword(form, d, now, f) =>
      ChangeIsHandled(w.s, token, form, h, d, now, f);
      var (s', r) := ChangePasswordStep(w.s, token, form, h, d, now, f);
      HandlingKeepsInv(w, s', r.Done?, d);
  }

  lemma {:induction false} RunKeepsInv(w: World, actions: seq<Action>, token: Bytes, h: Hashing, w': World)
    requires Inv(w) && Run(w, actions, token, h, w')
    ensures Inv(w')
    decreases |actions|
  {
    if actions == [] {
    } else {
      StepKeepsInv(w, actions[0], token, h);
      RunKeepsInv(Next(w, actions[0], token, h), actions[1..], token, h, w');
    }
  }

  /** A readable cache, and memory itself, only ever hold a record that was once in Vault. */
  lemma CacheHoldsOnlyVaultRecords(vaultConfigured: bool, hasDir: bool, actions: seq<Action>, token: Bytes,
                                   h: Hashing, w: World)
    requires Run(Start(vaultConfigured, hasDir), actions, token, h, w)
    ensures w.s.file.Holds? ==> w.s.file.value in w.everInVault
    ensures w.s.rec.Some? ==> w.s.rec.value in w.everInVault
  {
    RunKeepsInv(Start(vaultConfigured, hasDir), actions, token, h, w);
  }

  /** Within one process life at most one bootstrap succeeds, and none once an account exists. */
  lemma AtMostOneBootstrapPerLife(vaultConfigured: bool, hasDir: bool, actions: seq<Action>, token: Bytes,
                                  h: Hashing, w: World,
                                  form: Form, d: Draws, now: Time, f: Faults)
    requires Run(Start(vaultConfigured, hasDir), actions, token, h, w)
    ensures w.bootstraps <= 1
    ensures w.bootstraps == 1 || w.s.rec.Some? ==> BootstrapStep(w.s, token, form, h, d, now, f) == (w.s, Conflict)
  {
    RunKeepsInv(Start(vaultConfigured, hasDir), actions, token, h, w);
  }

  // ---- Sessions of the past -------------------------------------------------------------------------------

  /** The keys that may have signed a session up to now. */
  function PastKeys(w: World, token: Bytes): set<Bytes> {
    w.drawn + {token}
  }

  /** Neither memory nor Vault leads back to one of these keys. */
  ghost predicate Retired(w: World, token: Bytes, keys: set<Bytes>) {
    && w.s.vaultConfigured
    && w.s.rec.Some? && w.s.rec.value.sessionKey !in keys && w.s.rec.value.sessionKey != []
    && w.s.kv.doc.Some? && w.s.kv.doc.value.sessionKey !in keys && w.s.kv.doc.value.sessionKey != []
    && w.s.kv.doc.value.username != []
    && keys <= PastKeys(w, token)
  }

  predicate Succeeds(w: World, a: Action, token: Bytes, h: Hashing) {
    match a
    case Restart(_) => false
    case Bootstrap(form, d, now, f) => BootstrapStep(w.s, token, form, h, d, now, f).1.Done?
    case ChangePassword(form, d, now, f) => ChangePasswordStep(w.s, token, form, h, d, now, f).1.Done?
  }

  /** A restart that Vault does not answer, while the cache, or its absence, leads back to one of these keys. */
  predicate Reverts(w: World, a: Action, token: Bytes, keys: set<Bytes>) {
    a.Restart? && a.f.readFailure.Some? && SessionKey(ReadCache(w.s), token) in keys
  }

  /** Some restart of the run is of that kind. */
  ghost predicate FallsBack(w: World, actions: seq<Action>, token: Bytes, h: Hashing, keys: set<Bytes>)
    decreases |actions|
  {
    actions != []
    && (Reverts(w, actions[0], token, keys) || FallsBack(Next(w, actions[0], token, h), actions[1..], token, h, keys))
  }

  lemma SuccessRetires(w: World, a: Action, token: Bytes, h: Hashing)
    requires Enabled(w, a, token) && Succeeds(w, a, token, h)
    ensures Retired(Next(w, a, token, h), token, PastKeys(w, token))
  {
    match a
    case Bootstrap(form, d, now, f) => BootstrapIsHandled(w.s, token, form, h, d, now, f);
    case ChangePassword(form, d, now, f) => ChangeIsHandled(w.s, token, form, h, d, now, f);
  }

  lemma StepKeepsRetired(w: World, a: Action, token: Bytes, h: Hashing, keys: set<Bytes>)
    requires Retired(w, token, keys) && token in keys && Enabled(w, a, token) && !Reverts(w, a, token, keys)
    ensures Retired(Next(w, a, token, h), token, keys)
  {
    match a
    case Restart(_) =>
    case Bootstrap(form, d, now, f) => BootstrapIsHandled(w.s, token, form, h, d, now, f);
    case ChangePassword(form, d, now, f) => ChangeIsHandled(w.s, token, form, h, d, now, f);
  }

  lemma {:induction false} RunKeepsRetired(w: World, actions: seq<Action>, token: Bytes, h: Hashing, w': World,
                                           keys: set<Bytes>)
    requires Retired(w, token, keys) && token in keys && Run(w, actions, token, h, w')
    requires !FallsBack(w, actions, token, h, keys)
    ensures Retired(w', token, keys)
    decreases |actions|
  {
    if actions == [] {
    } else {
      StepKeepsRetired(w, actions[0], token, h, keys);
      RunKeepsRetired(Next(w, actions[0], token, h), actions[1..], token, h, w', keys);
    }
  }

  /** After a successful bootstrap or password change no session of before ever validates again, through any
      later changes, failures and restarts, as long as no restart falls back to a key of before. */
  lemma NoEarlierSessionEverValidates(w: World, a: Action, actions: seq<Action>, token: Bytes, h: Hashing, w': World,
                                      tag: Tagger, key: Bytes, text: Bytes, earlier: Time, now: Time)
    requires Enabled(w, a, token) && Succeeds(w, a, token, h) && Unforgeable(tag)
    requires Run(Next(w, a, token, h), actions, token, h, w')
    requires !FallsBack(Next(w, a, token, h), actions, token, h, PastKeys(w, token))
    requires key in PastKeys(w, token) && ValidSession(tag, key, text, earlier)
    ensures !ValidSession(tag, SessionKey(w'.s.rec, token), text, now)
  {
    SuccessRetires(w, a, token, h);
    RunKeepsRetired(Next(w, a, token, h), actions, token, h, w', PastKeys(w, token));
  }

  /** In this state some text validates that validated under one of these keys. */
  ghost predicate Honours(s: State, token: Bytes, tag: Tagger, keys: set<Bytes>) {
    exists key, text, earlier, now ::
      key in keys && ValidSession(tag, key, text, earlier) && ValidSession(tag, SessionKey(s.rec, token), text, now)
  }

  lemma HonoursExactlyTheCurrentKey(s: State, token: Bytes, tag: Tagger, keys: set<Bytes>)
    requires Unforgeable(tag)
    ensures Honours(s, token, tag, keys) <==> SessionKey(s.rec, token) in keys
  {
    var current := SessionKey(s.rec, token);
    if current in keys {
      SessionIsValidAtOnce(tag, current);
      assert ValidSession(tag, current, Session(tag, current, 100), 0);
    }
  }

  /** The run passes through such a state. */
  ghost predicate Revives(w: World, actions: seq<Action>, token: Bytes, h: Hashing, tag: Tagger, keys: set<Bytes>)
    decreases |actions|
  {
    Honours(w.s, token, tag, keys)
    || (actions != [] && Revives(Next(w, actions[0], token, h), actions[1..], token, h, tag, keys))
  }

  lemma {:induction false} RetiredRevivesExactlyByFallback(w: World, actions: seq<Action>, token: Bytes, h: Hashing,
                                                           w': World,
                                                           tag: Tagger, keys: set<Bytes>)
    requires Retired(w, token, keys) && token in keys && Unforgeable(tag) && Run(w, actions, token, h, w')
    ensures Revives(w, actions, token, h, tag, keys) <==> FallsBack(w, actions, token, h, keys)
    decreases |actions|
  {
    HonoursExactlyTheCurrentKey(w.s, token, tag, keys);
    if actions == [] {
    } else {
      var a, next := actions[0], Next(w, actions[0], token, h);
      if Reverts(w, a, token, keys) {
        RestartRevivesExactlyByFallback(w, token, h, keys, a.f);
        HonoursExactlyTheCurrentKey(next.s, token, tag, keys);
        assert Revives(next, actions[1..], token, h, tag, keys);
      } else {
        StepKeepsRetired(w, a, token, h, keys);
        RetiredRevivesExactlyByFallback(next, actions[1..], token, h, w', tag, keys);
      }
    }
  }

  /** Over whole runs: after a success the relay comes to honour a session of before if and only if some restart
      meets no answer from Vault while the cache leads back to a key of before. */
  lemma EarlierSessionsReviveExactlyByFallback(w: World, a: Action, actions: seq<Action>, token: Bytes, h: Hashing,
                                               w': World,
                                               tag: Tagger)
    requires Enabled(w, a, token) && Succeeds(w, a, token, h) && Unforgeable(tag)
    requires Run(Next(w, a, token, h), actions, token, h, w')
    ensures Revives(Next(w, a, token, h), actions, token, h, tag, PastKeys(w, token))
            <==> FallsBack(Next(w, a, token, h), actions, token, h, PastKeys(w, token))
  {
    SuccessRetires(w, a, token, h);
    RetiredRevivesExactlyByFallback(Next(w, a, token, h), actions, token, h, w', tag, PastKeys(w, token));
  }

  /** A success whose cache write works keeps the cache from leading back: not even a restart without Vault
      revives a session of before. */
  lemma CachedChangeSurvivesARestart(w: World, a: Action, token: Bytes, h: Hashing, f: Faults)
    requires Enabled(w, a, token) && Succeeds(w, a, token, h)
    requires var s := Next(w, a, token, h).s; s.hasDir && s.file == Holds(s.rec.value)
    requires Next(w, a, token, h).s.rec.value.passwordHash != []
    ensures !FallsBack(Next(w, a, token, h), [Restart(f)], token, h, PastKeys(w, token))
  {
    SuccessRetires(w, a, token, h);
  }

  /** At a restart a retired key comes back exactly when Vault does not answer and the cache, or its
      absence, leads back to that key. */
  lemma RestartRevivesExactlyByFallback(w: World, token: Bytes, h: Hashing, keys: set<Bytes>, f: Faults)
    requires Retired(w, token, keys)
    ensures SessionKey(Next(w, Restart(f), token, h).s.rec, token) in keys <==> Reverts(w, Restart(f), token, keys)
  {}

  /** Such a cache exists: a password change whose cache write fails cleanly, then a restart without Vault,
      and the session key of before the change signs again. */
  lemma StaleCacheRevivesTheOldKey(w: World, a: Action, token: Bytes, h: Hashing, f: Faults)
    requires a.ChangePassword? && Succeeds(w, a, token, h) && !a.f.mkdirOk
    requires ReadCache(w.s) == w.s.rec && f.readFailure.Some?
    ensures SessionKey(Next(Next(w, a, token, h), Restart(f), token, h).s.rec, token) == SessionKey(w.s.rec, token)
  {
    ChangeIsHandled(w.s, token, a.form, h, a.d, a.now, a.f);
  }

  // One such run from the start: bootstrap, password change without a cache write, restart without Vault.

  const TOKEN: Bytes := [116]
  const BOOTSTRAP: Action :=
    Bootstrap(Form(TOKEN, [97], [112], [112]), Draws(Some([1]), Some([2])), 0,
              Faults(None, Acknowledged, true, Written))
  const CHANGE: Action :=
    ChangePassword(Form(TOKEN, [97], [113], [113]), Draws(Some([1]), Some([3])), 0,
                   Faults(None, Acknowledged, false, Written))
  const RESTART: Action := Restart(Faults(Some([]), Acknowledged, true, Written))

  function FirstRecord(h: Hashing): Operator {
    Operator([97], h.hash([1], [112]), [2], 0)
  }

  lemma FirstAccount(h: Hashing)
    ensures var w := Next(Start(true, true), BOOTSTRAP, TOKEN, h);
            && Enabled(Start(true, true), BOOTSTRAP, TOKEN) && w.drawn == {[2]}
            && w.s == State(true, true, Store(Some(FirstRecord(h)), 1), Holds(FirstRecord(h)), Some(FirstRecord(h)))
  {
    assert Text.TrimSpace([97]) == [97] && Text.TrimSpace(TOKEN) == TOKEN;
  }

  lemma ChangeIsAccepted(w: World, h: Hashing)
    requires w.s.rec.Some? && w.s.vaultConfigured && w.drawn == {[2]}
    ensures Enabled(w, CHANGE, TOKEN) && Succeeds(w, CHANGE, TOKEN, h)
  {
    assert Text.TrimSpace([97]) == [97] && Text.TrimSpace(TOKEN) == TOKEN;
  }

  /** The session minted before the password change validates again after it. */
  lemma AnEarlierSessionValidatesAgain(tag: Tagger, h: Hashing)
    requires h.hash([1], [112]) != []
    ensures var w1 := Next(Start(true, true), BOOTSTRAP, TOKEN, h);
            var w2 := Next(w1, CHANGE, TOKEN, h);
            var w3 := Next(w2, RESTART, TOKEN, h);
            var session := Session(tag, SessionKey(w1.s.rec, TOKEN), 100);
            && Enabled(Start(true, true), BOOTSTRAP, TOKEN) && Enabled(w1, CHANGE, TOKEN)
            && Succeeds(w1, CHANGE, TOKEN, h)
            && ValidSession(tag, SessionKey(w1.s.rec, TOKEN), session, 0)
            && ValidSession(tag, SessionKey(w3.s.rec, TOKEN), session, 0)
  {
    FirstAccount(h);
    var w1 := Next(Start(true, true), BOOTSTRAP, TOKEN, h);
    ChangeIsAccepted(w1, h);
    StaleCacheRevivesTheOldKey(w1, CHANGE, TOKEN, h, RESTART.f);
    SessionIsValidAtOnce(tag, SessionKey(w1.s.rec, TOKEN));
  }

  lemma SessionIsValidAtOnce(tag: Tagger, key: Bytes)
    ensures ValidSession(tag, key, Session(tag, key, 100), 0)
  {
    Strconv.FormatIntHasNoSeparator(100);
    Text.CutAtFirst(Strconv.FormatInt(100), DOT, tag(key, Strconv.FormatInt(100)));
    Strconv.ParseFormatInt(100);
  }

  // ---- Whose record it is ---------------------------------------------------------------------------------

  /** The admin token for a first account; the current password or the token for a change. */
  predicate Entitled(w: World, a: Action, token: Bytes, h: Hashing) {
    match a
    case Restart(_) => false
    case Bootstrap(form, _, _, _) => w.s.rec.None? && token != [] && Text.TrimSpace(form.credential) == token
    case ChangePassword(form, _, _, _) =>
      && w.s.rec.Some?
      && (VerifyWith(w.s.rec, h, w.s.rec.value.username, form.credential)
          || (token != [] && Text.TrimSpace(form.credential) == token))
  }

  /** No step but an entitled one touches Vault's record, succeeds or changes who is signed in. */
  lemma OnlyTheEntitledWrite(w: World, a: Action, token: Bytes, h: Hashing)
    requires !Entitled(w, a, token, h)
    ensures Next(w, a, token, h).s.kv == w.s.kv && !Succeeds(w, a, token, h)
    ensures !a.Restart? ==> Next(w, a, token, h).s == w.s
  {
    match a
    case Restart(_) =>
    case Bootstrap(form, d, now, f) => BootstrapSucceedsExactly(w.s, token, form, h, d, now, f);
    case ChangePassword(_, _, _, _) =>
  }

  predicate PresentsTheToken(a: Action, token: Bytes) {
    a.Bootstrap? && token != [] && Text.TrimSpace(a.form.credential) == token
  }

  predicate NoAccount(w: World) {
    w.s.kv.doc.None? && w.s.rec.None? && !w.s.file.Holds?
  }

  lemma AccountNeedsTheToken(w: World, a: Action, token: Bytes, h: Hashing)
    requires NoAccount(w) && !PresentsTheToken(a, token)
    ensures NoAccount(Next(w, a, token, h))
  {
    if a.Bootstrap? {
      OnlyTheEntitledWrite(w, a, token, h);
    }
  }

  /** Over every run: where there is a record, in Vault, in memory or in the cache, someone bootstrapped with the
      admin token. */
  lemma {:induction false} AccountBeginsWithTheToken(w: World, actions: seq<Action>, token: Bytes, h: Hashing,
                                                     w': World)
    requires NoAccount(w) && Run(w, actions, token, h, w') && !NoAccount(w')
    ensures exists i :: 0 <= i < |actions| && PresentsTheToken(actions[i], token)
    decreases |actions|
  {
    if actions == [] {
    } else if PresentsTheToken(actions[0], token) {
    } else {
      AccountNeedsTheToken(w, actions[0], token, h);
      AccountBeginsWithTheToken(Next(w, actions[0], token, h), actions[1..], token, h, w');
      var i :| 0 <= i < |actions[1..]| && PresentsTheToken(actions[1..][i], token);
      assert PresentsTheToken(actions[i + 1], token);
    }
  }
}
