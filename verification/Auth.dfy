/** Operator sessions, the first account and password changes (server/auth.go). */
module Auth {
  import opened Basics
  import opened Text
  import opened Strconv
  import opened StateFile
  import opened VaultKv
  import opened Operator

  // ---- Session cookies --------------------------------------------------------------------------

  /** HMAC (section 2 of RFC 2104) taken symbolically: a tag comes from one key and one message only. */
  type Tagger = (Bytes, Bytes) -> Bytes

  ghost predicate Unforgeable(tag: Tagger) {
    forall k, m, k', m' :: tag(k, m) == tag(k', m') ==> k == k' && m == m'
  }

  /** The operator's own key once there is an account with one, the admin token before that. */
  function SessionKey(rec: Option<Operator>, token: Bytes): Bytes {
    if rec.Some? && rec.value.sessionKey != [] then rec.value.sessionKey else token
  }

  function Session(tag: Tagger, key: Bytes, expiry: int): Bytes {
    FormatInt(expiry) + [DOT] + tag(key, FormatInt(expiry))
  }

  /** Seconds between year 1, where Go counts from, and the Unix epoch. */
  const UNIX_TO_INTERNAL: int := 62135596800

  function Wrap64(i: int): int {
    (i - MIN_INT64) % 0x1_0000_0000_0000_0000 + MIN_INT64
  }

  /** now.Before(time.Unix(unix, 0)), with the 64-bit addition inside time.Unix. */
  predicate BeforeUnix(now: Time, unix: int) {
    now / SECOND + UNIX_TO_INTERNAL < Wrap64(unix + UNIX_TO_INTERNAL)
  }

  predicate ValidSession(tag: Tagger, key: Bytes, text: Bytes, now: Time) {
    match Cut(text, DOT)
    case None => false
    case Some((exp, mac)) =>
      mac == tag(key, exp) && ParseInt(exp).Some? && BeforeUnix(now, ParseInt(exp).value)
  }

  /** A session is valid exactly while its key is the current one and its expiry is ahead, for every 64-bit expiry. */
  lemma SessionIsValidExactlyWhile(tag: Tagger, key: Bytes, current: Bytes, expiry: int, now: Time)
    requires Unforgeable(tag) && MIN_INT64 <= expiry <= MAX_INT64
    ensures ValidSession(tag, current, Session(tag, key, expiry), now) <==> key == current && BeforeUnix(now, expiry)
  {
    FormatIntHasNoSeparator(expiry);
    CutAtFirst(FormatInt(expiry), DOT, tag(key, FormatInt(expiry)));
    ParseFormatInt(expiry);
  }

  /** Whose sessions count: the admin token's until there is an account with a key of its own, and from then on only
      that key's. */
  lemma SessionsCountUnder(tag: Tagger, rec: Option<Operator>, token: Bytes, key: Bytes)
    requires Unforgeable(tag)
    ensures var own := rec.Some? && rec.value.sessionKey != [];
            ValidSession(tag, SessionKey(rec, token), Session(tag, key, 100), 0)
            <==> key == if own then rec.value.sessionKey else token
  {
    SessionIsValidExactlyWhile(tag, key, SessionKey(rec, token), 100, 0);
    ExpiryIsInWholeSeconds(0, 100);
  }

  /** Being ahead means what it says up to the last second time.Unix can represent, and never past it. */
  lemma ExpiryIsInWholeSeconds(now: Time, expiry: int)
    requires MIN_INT64 <= expiry <= MAX_INT64 && 0 <= now
    ensures BeforeUnix(now, expiry) <==> now < expiry * SECOND && expiry <= MAX_INT64 - UNIX_TO_INTERNAL
  {}

  /** What validates: exactly a decimal expiry that is ahead, a dot, and the current key's tag of that very text. */
  lemma ValidExactlyWhenTaggedWithTheCurrentKey(tag: Tagger, current: Bytes, text: Bytes, now: Time)
    ensures ValidSession(tag, current, text, now)
            <==> exists exp :: DOT !in exp && text == exp + [DOT] + tag(current, exp)
                               && ParseInt(exp).Some? && BeforeUnix(now, ParseInt(exp).value)
  {
    CutIsStable(text, DOT, []);
    if exp :| DOT !in exp && text == exp + [DOT] + tag(current, exp)
              && ParseInt(exp).Some? && BeforeUnix(now, ParseInt(exp).value) {
      CutAtFirst(exp, DOT, tag(current, exp));
    }
    if ValidSession(tag, current, text, now) {
      var (exp, mac) := Cut(text, DOT).value;
      assert mac == tag(current, exp) && DOT !in exp;
      assert text == exp + [DOT] + tag(current, exp);
      assert ParseInt(exp).Some? && BeforeUnix(now, ParseInt(exp).value);
    }
  }

  // ---- The first account and password changes ------------------------------------------------------

  predicate Matches(token: Bytes, candidate: Bytes) {
    token != [] && candidate == token
  }

  datatype Form = Form(credential: Bytes, username: Bytes, password: Bytes, confirm: Bytes)

  datatype Reply = Done | Conflict | Disabled | BadCredential | Mismatch | NotSaved(why: SaveResult)

  function BootstrapStep(s: State, token: Bytes, form: Form, h: Hashing, d: Draws, now: Time, f: Faults): (State,
                         Reply)
  {
    if s.rec.Some? then (s, Conflict)
    else if token == [] then (s, Disabled)
    else if !Matches(token, TrimSpace(form.credential)) then (s, BadCredential)
    else if form.password != form.confirm then (s, Mismatch)
    else
      var (s', r) := SaveStep(s, TrimSpace(form.username), form.password, true, h, d, now, f);
      (s', if r.Stored? then Done else NotSaved(r))
  }

  function ChangePasswordStep(s: State, token: Bytes, form: Form, h: Hashing, d: Draws, now: Time,
                              f: Faults): (State, Reply)
  {
    if s.rec.None? then (s, Conflict)
    else if !VerifyWith(s.rec, h, s.rec.value.username, form.credential)
            && !Matches(token, TrimSpace(form.credential)) then (s, BadCredential)
    else if form.password != form.confirm then (s, Mismatch)
    else
      var name := if TrimSpace(form.username) == [] then s.rec.value.username else TrimSpace(form.username);
      var (s', r) := SaveStep(s, name, form.password, true, h, d, now, f);
      (s', if r.Stored? then Done else NotSaved(r))
  }

  class Auth {
    const token: Bytes
    const ops: OperatorStore
    const tag: Tagger

    constructor (token: Bytes, ops: OperatorStore, tag: Tagger)
      ensures this.token == token && this.ops == ops && this.tag == tag
    {
      this.token, this.ops, this.tag := token, ops, tag;
    }

    method Mint(expiry: int) returns (text: Bytes)
      ensures text == Session(tag, SessionKey(ops.rec, token), expiry)
    {
      var exp := FormatInt(expiry);
      text := exp + [DOT] + tag(SessionKey(ops.rec, token), exp);
    }

    method IsValid(text: Bytes, now: Time) returns (ok: bool)
      ensures ok == ValidSession(tag, SessionKey(ops.rec, token), text, now)
    {
      var parts := Cut(text, DOT);
      if parts.None? || parts.value.1 != tag(SessionKey(ops.rec, token), parts.value.0) {
        return false;
      }
      var unix := ParseInt(parts.value.0);
      ok := unix.Some? && BeforeUnix(now, unix.value);
    }

    method HandleBootstrap(form: Form, d: Draws, now: Time, f: Faults) returns (r: Reply)
      modifies ops, ops.kv
      ensures (ops.Abstract(), r) == BootstrapStep(old(ops.Abstract()), token, form, ops.h, d, now, f)
    {
      if ops.rec.Some? {
        return Conflict;
      }
      if token == [] {
        return Disabled;
      }
      if TrimSpace(form.credential) != token {
        return BadCredential;
      }
      if form.password != form.confirm {
        return Mismatch;
      }
      var saved := ops.Save(TrimSpace(form.username), form.password, true, d, now, f);
      r := if saved.Stored? then Done else NotSaved(saved);
    }

    method HandleChangePassword(form: Form, d: Draws, now: Time, f: Faults) returns (r: Reply)
      modifies ops, ops.kv
      ensures (ops.Abstract(), r) == ChangePasswordStep(old(ops.Abstract()), token, form, ops.h, d, now, f)
    {
      if ops.rec.None? {
        return Conflict;
      }
      var rec := ops.rec.value;
      var known := ops.Verify(rec.username, form.credential);
      if !known && !Matches(token, TrimSpace(form.credential)) {
        return BadCredential;
      }
      var username := TrimSpace(form.username);
      if username == [] {
        username := rec.username;
      }
      if form.password != form.confirm {
        return Mismatch;
      }
      var saved := ops.Save(username, form.password, true, d, now, f);
      r := if saved.Stored? then Done else NotSaved(saved);
    }
  }

  // ---- Who may create and change the account ---------------------------------------------------------

  /** A form that can become a record, given the draws and Vault's answer. */
  predicate CanBeSaved(s: State, name: Bytes, form: Form, d: Draws, f: Faults) {
    && form.password == form.confirm && 0 < |name| <= 64 && 0 < |form.password| <= 1024
    && d.salt.Some? && d.key.Some? && s.vaultConfigured && f.write.Acknowledged?
  }

  lemma FormIsSavedExactly(s: State, name: Bytes, form: Form, h: Hashing, d: Draws, now: Time, f: Faults)
    requires TrimSpace(name) == name && form.password == form.confirm
    ensures var (s', r) := SaveStep(s, name, form.password, true, h, d, now, f);
            && (r.Stored? <==> CanBeSaved(s, name, form, d, f))
            && (r.Stored? ==> s'.rec == Some(Operator(name, h.hash(d.salt.value, form.password), d.key.value, now)))
            && (r.Stored? ==> s'.kv.doc == s'.rec)
            && (!r.Stored? ==> s'.rec == s.rec && s'.file == s.file)
  {}

  /** The first account takes the admin token, and with it exactly a form that can be saved; without it, or once
      there is an account, nothing at all changes. */
  lemma BootstrapSucceedsExactly(s: State, token: Bytes, form: Form, h: Hashing, d: Draws, now: Time, f: Faults)
    ensures var (s', r) := BootstrapStep(s, token, form, h, d, now, f);
            var name, entitled := TrimSpace(form.username), token != [] && TrimSpace(form.credential) == token;
            && (r.Done? <==> s.rec.None? && entitled && CanBeSaved(s, name, form, d, f))
            && (r.Done? ==> s'.rec == Some(Operator(name, h.hash(d.salt.value, form.password), d.key.value, now)))
            && (r.Done? ==> s'.kv.doc == s'.rec)
            && (s.rec.Some? || !entitled ==> s' == s)
            && (!r.Done? ==> s'.rec == s.rec && s'.file == s.file)
            && (r.Conflict? <==> s.rec.Some?) && (r.Disabled? <==> s.rec.None? && token == [])
            && (r.BadCredential? <==> s.rec.None? && token != [] && !entitled)
            && (r.Mismatch? <==> s.rec.None? && entitled && form.password != form.confirm)
  {
    TrimmedIsTrimmed(form.username);
    if form.password == form.confirm {
      FormIsSavedExactly(s, TrimSpace(form.username), form, h, d, now, f);
    }
  }

  /** A change takes the current password or the admin token; without either nothing at all changes. */
  lemma ChangeSucceedsExactly(s: State, token: Bytes, form: Form, h: Hashing, d: Draws, now: Time, f: Faults)
    requires s.rec.Some? ==> TrimSpace(s.rec.value.username) == s.rec.value.username
    ensures var (s', r) := ChangePasswordStep(s, token, form, h, d, now, f);
            var entitled := s.rec.Some? && (h.verify(s.rec.value.passwordHash, form.credential)
                                            || (token != [] && TrimSpace(form.credential) == token));
            var name := if s.rec.Some? && TrimSpace(form.username) == [] then s.rec.value.username
                        else TrimSpace(form.username);
            && (r.Done? <==> entitled && CanBeSaved(s, name, form, d, f))
            && (r.Done? ==> s'.rec == Some(Operator(name, h.hash(d.salt.value, form.password), d.key.value, now)))
            && (r.Done? ==> s'.kv.doc == s'.rec)
            && (!entitled ==> s' == s)
            && (!r.Done? ==> s'.rec == s.rec && s'.file == s.file)
            && (r.Conflict? <==> s.rec.None?) && (r.BadCredential? <==> s.rec.Some? && !entitled)
            && (r.Mismatch? <==> entitled && form.password != form.confirm) && !r.Disabled?
  {
    TrimmedIsTrimmed(form.username);
    if s.rec.Some? && form.password == form.confirm {
      FormIsSavedExactly(s, if TrimSpace(form.username) == [] then s.rec.value.username else TrimSpace(form.username),
                         form, h, d, now, f);
    }
  }
}
