/** Whole runs of the identity protocol: one relay, its Vault, and any number of agents, operators and
    replayers taking interleaved steps. Signatures are symbolic: `made` is what has actually been signed. */
module IdentityProtocol {
  import opened Basics
  import Base64
  import opened Text
  import opened Identity
  import opened Vault
  import opened VaultKv
  import opened Protocol
  import opened Enrollment
  import C = Challenges
  import K = AgentKeys
  import O = Operator

  /** A request the relay is serving, known by a number of its own. */
  type Ticket = nat

  /** An enrolment whose claim was granted; `stamp` is the issue time once the assertion has been drawn up. */
  datatype InFlight = InFlight(id: Bytes, key: Bytes, stamp: Option<Time>)

  /** A proof whose assertion passed at `at`; its challenge is not redeemed yet. */
  datatype Checked = Checked(proof: Proof, assertion: Assertion, at: Time)

  /** A claim that was granted at `at`. */
  datatype Bind = Bind(id: Bytes, key: Bytes, at: Time)

  /** An assertion document, drawn up at `at`, that the relay had Vault sign. */
  datatype Signed = Signed(document: Bytes, id: Bytes, key: Bytes, at: Time)

  /** A connection accepted as `id` at `at`. */
  datatype Acceptance = Acceptance(id: Bytes, checked: Checked, at: Time)

  datatype World = World(
    clock: Time,
    // the relay
    pool: C.Pool,
    pubKeys: Keys,
    credentials: Credentials,
    pending: map<Ticket, InFlight>,
    checked: map<Ticket, Checked>,
    // Vault
    store: Store<K.Owners>,
    transit: Keys,
    // everyone
    made: Made,
    // history
    binds: set<Bind>,
    issued: seq<(C.Nonce, Time)>,
    signed: set<Signed>,
    accepted: seq<Acceptance>)

  datatype Action =
    | Tick(elapsed: nat)
    | AskChallenge(draw: Option<C.Nonce>)
    | Enroll(t: Ticket, req: EnrollRequest, readFailure: Option<Bytes>, write: WriteOutcome)
    | DrawUp(t: Ticket)
    | SignAssertion(t: Ticket, version: int, raw: Bytes)
    | SigningFails(t: Ticket)
    | HolderSigns(holder: Key, msg: Bytes, raw: Bytes)
    | RotateTransitKey(version: int, newKey: Key)
    | RefreshKeys(keys: Keys)
    | RestartRelay(keys: Keys)
    | ChangeAccount(account: Option<O.Operator>)
    | Present(t: Ticket, headers: Hello, proof: Proof)
    | Redeem(t: Ticket)

  ghost predicate IncludedIn(keys: Keys, transit: Keys) {
    forall n :: n in keys ==> n in transit && transit[n] == keys[n]
  }

  ghost predicate IsTransitKey(key: Key, transit: Keys) {
    exists n :: n in transit && transit[n] == key
  }

  ghost predicate Unused(key: Key, made: Made) {
    forall m, raw :: (key, m, raw) !in made
  }

  /** Vault signs nothing but what the relay asks, rotates to fresh keys, and exports what it holds. */
  ghost predicate Enabled(w: World, a: Action) {
    match a
    case Enroll(t, _, _, _) => t !in w.pending
    case DrawUp(t) => t in w.pending && w.pending[t].stamp.None?
    case SignAssertion(t, version, _) => t in w.pending && w.pending[t].stamp.Some? && version in w.transit
    case SigningFails(t) => t in w.pending
    case HolderSigns(holder, _, _) => !IsTransitKey(holder, w.transit)
    case RotateTransitKey(version, newKey) =>
      version !in w.transit && !IsTransitKey(newKey, w.transit) && Unused(newKey, w.made)
    case RefreshKeys(keys) => IncludedIn(keys, w.transit)
    case RestartRelay(keys) => IncludedIn(keys, w.transit)
    case Present(t, _, _) => t !in w.checked
    case Redeem(t) => t in w.checked
    case _ => true
  }

  /** A restarted relay forgets its challenges and connections; Vault may still sign what it was asked to. */
  ghost function Next(w: World, a: Action, json: Codec): World
    requires Enabled(w, a)
  {
    match a
    case Tick(d) => w.(clock := w.clock + d)
    case AskChallenge(draw) =>
      var (pool, r) := C.IssueStep(w.pool, draw, w.clock, w.clock);
      w.(pool := pool, issued := if r.Issued? then w.issued + [(r.nonce, w.clock)] else w.issued)
    case Enroll(t, req, readFailure, write) =>
      var (store, r) := EnrollClaimStep(w.store, w.credentials, req, w.clock, readFailure, write);
      AfterEnroll(w, t, store, r)
    case DrawUp(t) => w.(pending := w.pending[t := w.pending[t].(stamp := Some(w.clock))])
    case SignAssertion(t, version, raw) => AfterSigning(w, t, DocumentOf(w.pending[t], json), version, raw)
    case SigningFails(t) => w.(pending := w.pending - {t})
    case HolderSigns(holder, msg, raw) => w.(made := w.made + {(holder, msg, raw)})
    case RotateTransitKey(version, newKey) => w.(transit := w.transit[version := newKey])
    case RefreshKeys(keys) => w.(pubKeys := keys)
    case RestartRelay(keys) => w.(pool := map[], checked := map[], pubKeys := keys)
    case ChangeAccount(account) => w.(credentials := w.credentials.(account := account))
    case Present(t, headers, proof) =>
      if HelloFromHeaders(headers).None? then w
      else AfterCheck(w, t, proof, AssertionStep(w.pubKeys, w.made, json, proof, w.clock))
    case Redeem(t) =>
      var c := w.checked[t];
      AfterRedeem(w.(checked := w.checked - {t}), c, ChallengeStep(w.pool, w.made, c.assertion, c.proof, w.clock))
  }

  function AfterEnroll(w: World, t: Ticket, store: Store<K.Owners>, r: ClaimReply): World {
    if r.Claimed? then
      w.(store := store,
         pending := w.pending[t := InFlight(r.id, r.key, None)],
         binds := w.binds + {Bind(r.id, r.key, w.clock)})
    else w.(store := store)
  }

  function DocumentOf(e: InFlight, json: Codec): Bytes
    requires e.stamp.Some?
  {
    json.marshal(Grant(e.id, e.key, e.stamp.value))
  }

  function AfterSigning(w: World, t: Ticket, document: Bytes, version: int, raw: Bytes): World
    requires t in w.pending && w.pending[t].stamp.Some? && version in w.transit
  {
    var e := w.pending[t];
    w.(made := w.made + {(w.transit[version], document, raw)},
       pending := w.pending - {t},
       signed := w.signed + {Signed(document, e.id, e.key, e.stamp.value)})
  }

  function AfterCheck(w: World, t: Ticket, proof: Proof, check: AssertionCheck): World {
    match check
    case Doubtful(_) => w
    case Genuine(a) => w.(checked := w.checked[t := Checked(proof, a, w.clock)])
  }

  function AfterRedeem(w: World, c: Checked, outcome: (C.Pool, Verdict)): World {
    w.(pool := outcome.0,
       accepted := if outcome.1.Accepted? then w.accepted + [Acceptance(outcome.1.id, c, w.clock)] else w.accepted)
  }

  /** A relay started for the first time beside a Vault that has signed nothing yet. */
  function Start(transit: Keys, clock: Time, credentials: Credentials): World {
    World(clock, map[], map[], credentials, map[], map[], Store(None, 0), transit, {}, {}, [], {}, [])
  }

  /** Who may do what, and what comes of it. */
  type Machine = (World, Action) -> Option<World>

  ghost function Moves(json: Codec): Machine {
    (w, a) => if Enabled(w, a) then Some(Next(w, a, json)) else None
  }

  ghost predicate Run(w: World, actions: seq<Action>, m: Machine, w': World)
    decreases |actions|
  {
    if actions == [] then w' == w
    else m(w, actions[0]).Some? && Run(m(w, actions[0]).value, actions[1..], m, w')
  }

  // ---- What an acceptance rests on ------------------------------------------------

  ghost predicate HasBind(w: World, id: Bytes, key: Bytes, before: Time) {
    exists t :: t <= before && Bind(id, key, t) in w.binds
  }

  ghost predicate HasNonce(w: World, nonce: C.Nonce, at: Time) {
    exists t :: t <= at <= t + C.CHALLENGE_TTL && (nonce, t) in w.issued
  }

  ghost predicate HasSignature(w: World, key: Bytes, nonce: C.Nonce) {
    KeyBytes(key).Some? && exists raw :: (KeyBytes(key).value, nonce, raw) in w.made
  }

  /** The assertion checked is one the relay had signed for exactly (id, key), unexpired at the check, after a
      claim that bound id to key. */
  ghost predicate CheckedAgainst(w: World, c: Checked, s: Signed, json: Codec) {
    && s in w.signed && c.assertion == Grant(s.id, s.key, s.at)
    && json.unmarshal(s.document) == Some(c.assertion)
    && Parse(c.proof.assertion, json).Parsed? && Parse(c.proof.assertion, json).signed.document == s.document
    && s.at <= c.at <= s.at + ASSERTION_TTL && c.at <= w.clock
    && HasBind(w, s.id, s.key, s.at)
  }

  ghost predicate CheckIsTraced(w: World, c: Checked, json: Codec) {
    exists s :: CheckedAgainst(w, c, s, json)
  }

  /** The chain behind one acceptance: such an assertion, a nonce at most CHALLENGE_TTL old, and a signature by
      the assertion's key over that nonce. */
  ghost predicate TracedTo(w: World, acc: Acceptance, s: Signed, json: Codec) {
    && CheckedAgainst(w, acc.checked, s, json) && s.id == acc.id && acc.checked.at <= acc.at
    && HasNonce(w, acc.checked.proof.challenge, acc.at)
    && HasSignature(w, s.key, acc.checked.proof.challenge)
  }

  ghost predicate Traced(w: World, acc: Acceptance, json: Codec) {
    exists s :: TracedTo(w, acc, s, json)
  }

  // ---- The invariant ---------------------------------------------------------------

  ghost predicate VaultSignsOnlyAssertions(w: World) {
    forall k, m, raw :: (k, m, raw) in w.made && IsTransitKey(k, w.transit) ==>
                          exists s :: s in w.signed && s.document == m
  }

  ghost predicate SignedIsBound(w: World, json: Codec) {
    forall s :: s in w.signed ==>
      && s.at <= w.clock
      && json.unmarshal(s.document) == Some(Grant(s.id, s.key, s.at))
      && HasBind(w, s.id, s.key, s.at)
  }

  /** A claim precedes the drawing up of its assertion. */
  ghost predicate FlightIsBound(w: World, e: InFlight) {
    var due := if e.stamp.Some? then e.stamp.value else w.clock;
    due <= w.clock && HasBind(w, e.id, e.key, due)
  }

  ghost predicate PendingIsBound(w: World) {
    forall t :: t in w.pending ==> FlightIsBound(w, w.pending[t])
  }

  ghost predicate PoolIsIssued(w: World) {
    forall n :: n in w.pool ==> (n, w.pool[n]) in w.issued && w.pool[n] <= w.clock
  }

  ghost predicate ChecksAreTraced(w: World, json: Codec) {
    forall t :: t in w.checked ==> CheckIsTraced(w, w.checked[t], json)
  }

  ghost predicate AcceptedAreTraced(w: World, json: Codec) {
    forall acc :: acc in w.accepted ==> Traced(w, acc, json)
  }

  ghost predicate Inv(w: World, json: Codec) {
    && IncludedIn(w.pubKeys, w.transit)
    && VaultSignsOnlyAssertions(w)
    && SignedIsBound(w, json)
    && PendingIsBound(w)
    && PoolIsIssued(w)
    && ChecksAreTraced(w, json)
    && AcceptedAreTraced(w, json)
  }

  /** History only grows. */
  ghost predicate Extends(w: World, w': World) {
    && w.clock <= w'.clock && w.made <= w'.made && w.binds <= w'.binds && w.signed <= w'.signed && w.issued <= w'.issued
  }

  lemma BindIsStable(w: World, w': World, id: Bytes, key: Bytes, before: Time, before': Time)
    requires Extends(w, w') && before <= before' && HasBind(w, id, key, before)
    ensures HasBind(w', id, key, before')
  {
    var t :| t <= before && Bind(id, key, t) in w.binds;
    assert Bind(id, key, t) in w'.binds;
  }

  lemma CheckIsStable(w: World, w': World, c: Checked, s: Signed, json: Codec)
    requires Extends(w, w') && CheckedAgainst(w, c, s, json)
    ensures CheckedAgainst(w', c, s, json)
  {
    BindIsStable(w, w', s.id, s.key, s.at, s.at);
  }

  lemma TraceIsStable(w: World, w': World, acc: Acceptance, json: Codec)
    requires Extends(w, w') && Traced(w, acc, json)
    ensures Traced(w', acc, json)
  {
    var nonce := acc.checked.proof.challenge;
    var s :| TracedTo(w, acc, s, json);
    CheckIsStable(w, w', acc.checked, s, json);
    var t :| t <= acc.at <= t + C.CHALLENGE_TTL && (nonce, t) in w.issued;
    assert (nonce, t) in w'.issued;
    var raw :| (KeyBytes(s.key).value, nonce, raw) in w.made;
    assert (KeyBytes(s.key).value, nonce, raw) in w'.made;
    assert TracedTo(w', acc, s, json);
  }

  /** Checks and acceptances that were traced stay so. */
  lemma TracesStay(w: World, w': World, json: Codec)
    requires Extends(w, w') && ChecksAreTraced(w, json) && AcceptedAreTraced(w, json)
    ensures forall t :: t in w.checked ==> CheckIsTraced(w', w.checked[t], json)
    ensures forall acc :: acc in w.accepted ==> Traced(w', acc, json)
  {
    forall t | t in w.checked
      ensures CheckIsTraced(w', w.checked[t], json)
    {
      var s :| CheckedAgainst(w, w.checked[t], s, json);
      CheckIsStable(w, w', w.checked[t], s, json);
    }
    forall acc | acc in w.accepted
      ensures Traced(w', acc, json)
    {
      TraceIsStable(w, w', acc, json);
    }
  }

  /** Claims behind signed assertions and enrolments in flight stay there. */
  lemma BindsStay(w: World, w': World, json: Codec)
    requires Extends(w, w') && SignedIsBound(w, json) && PendingIsBound(w)
    ensures forall s :: s in w.signed ==> s.at <= w'.clock && HasBind(w', s.id, s.key, s.at)
    ensures forall t :: t in w.pending ==> FlightIsBound(w', w.pending[t])
  {
    forall s | s in w.signed
      ensures HasBind(w', s.id, s.key, s.at)
    {
      BindIsStable(w, w', s.id, s.key, s.at, s.at);
    }
    forall t | t in w.pending
      ensures FlightIsBound(w', w.pending[t])
    {
      var e := w.pending[t];
      var due := if e.stamp.Some? then e.stamp.value else w.clock;
      BindIsStable(w, w', e.id, e.key, due, if e.stamp.Some? then due else w'.clock);
    }
  }

  // ---- The two halves of an acceptance ----------------------------------------------

  /** What passes the first half of verifyAgent in an invariant state is an assertion the relay had signed. */
  lemma GenuineIsTraced(w: World, proof: Proof, json: Codec)
    requires Inv(w, json) && AssertionStep(w.pubKeys, w.made, json, proof, w.clock).Genuine?
    ensures var a := AssertionStep(w.pubKeys, w.made, json, proof, w.clock).assertion;
            CheckIsTraced(w, Checked(proof, a, w.clock), json)
  {
    var parsed := Parse(proof.assertion, json);
    var (version, raw) := ParseSignature(parsed.signed.signature).value;
    var k := w.pubKeys[version];
    assert IsTransitKey(k, w.transit) by { assert w.transit[version] == k; }
    assert (k, parsed.signed.document, raw) in w.made;
    var s :| s in w.signed && s.document == parsed.signed.document;
    assert json.unmarshal(s.document) == Some(parsed.assertion);
    assert CheckedAgainst(w, Checked(proof, parsed.assertion, w.clock), s, json);
  }

  /** What passes the second half has redeemed a recent nonce under the key of its assertion. */
  lemma RedeemedIsTraced(w: World, c: Checked, json: Codec)
    requires PoolIsIssued(w) && CheckIsTraced(w, c, json)
    requires ChallengeStep(w.pool, w.made, c.assertion, c.proof, w.clock).1.Accepted?
    ensures var id := ChallengeStep(w.pool, w.made, c.assertion, c.proof, w.clock).1.id;
            Traced(w, Acceptance(id, c, w.clock), json)
  {
    var s :| CheckedAgainst(w, c, s, json);
    var nonce := c.proof.challenge;
    assert (nonce, w.pool[nonce]) in w.issued;
    var sig := Base64.Decode(c.proof.signature, Base64.Std).value;
    assert (KeyBytes(s.key).value, nonce, sig) in w.made;
    assert TracedTo(w, Acceptance(s.id, c, w.clock), s, json);
  }

  // ---- Every step keeps the invariant -----------------------------------------------

  lemma SigningKeepsInv(w: World, t: Ticket, version: int, raw: Bytes, json: Codec)
    requires Inv(w, json) && Faithful(json) && Enabled(w, SignAssertion(t, version, raw))
    ensures Inv(Next(w, SignAssertion(t, version, raw), json), json)
  {
    var e := w.pending[t];
    var document := DocumentOf(e, json);
    var w', s := AfterSigning(w, t, document, version, raw), Signed(document, e.id, e.key, e.stamp.value);
    TracesStay(w, w', json);
    BindsStay(w, w', json);
    assert s in w'.signed;
    assert FlightIsBound(w', e);
    forall k, m, r | (k, m, r) in w'.made && IsTransitKey(k, w'.transit)
      ensures exists other :: other in w'.signed && other.document == m
    {
      if (k, m, r) in w.made {
        var other :| other in w.signed && other.document == m;
        assert other in w'.signed;
      } else {
        assert s.document == m;
      }
    }
  }

  lemma EnrollingKeepsInv(w: World, t: Ticket, store: Store<K.Owners>, r: ClaimReply, json: Codec)
    requires Inv(w, json)
    ensures Inv(AfterEnroll(w, t, store, r), json)
  {
    var w' := AfterEnroll(w, t, store, r);
    TracesStay(w, w', json);
    BindsStay(w, w', json);
    assert r.Claimed? ==> Bind(r.id, r.key, w.clock) in w'.binds;
  }

  lemma CheckingKeepsInv(w: World, t: Ticket, proof: Proof, check: AssertionCheck, json: Codec)
    requires Inv(w, json)
    requires check.Genuine? ==> CheckIsTraced(w, Checked(proof, check.assertion, w.clock), json)
    ensures Inv(AfterCheck(w, t, proof, check), json)
  {
    var w' := AfterCheck(w, t, proof, check);
    TracesStay(w, w', json);
    BindsStay(w, w', json);
    if check.Genuine? {
      var c := Checked(proof, check.assertion, w.clock);
      var s :| CheckedAgainst(w, c, s, json);
      CheckIsStable(w, w', c, s, json);
    }
  }

  lemma PresentingKeepsInv(w: World, t: Ticket, headers: Hello, proof: Proof, json: Codec)
    requires Inv(w, json) && t !in w.checked
    ensures Inv(Next(w, Present(t, headers, proof), json), json)
  {
    var check := AssertionStep(w.pubKeys, w.made, json, proof, w.clock);
    if check.Genuine? {
      GenuineIsTraced(w, proof, json);
    }
    CheckingKeepsInv(w, t, proof, check, json);
  }

  lemma RedeemingKeepsInv(w: World, t: Ticket, json: Codec)
    requires Inv(w, json) && t in w.checked
    ensures Inv(Next(w, Redeem(t), json), json)
  {
    var c := w.checked[t];
    var outcome := ChallengeStep(w.pool, w.made, c.assertion, c.proof, w.clock);
    RedeemingOnlySpends(w.pool, w.made, c.assertion, c.proof, w.clock);
    if outcome.1.Accepted? {
      RedeemedIsTraced(w, c, json);
    }
    AfterRedeemKeepsInv(w, t, outcome, json);
  }

  lemma AfterRedeemKeepsInv(w: World, t: Ticket, outcome: (C.Pool, Verdict), json: Codec)
    requires Inv(w, json) && t in w.checked
    requires forall n :: n in outcome.0 ==> n in w.pool && outcome.0[n] == w.pool[n]
    requires outcome.1.Accepted? ==> Traced(w, Acceptance(outcome.1.id, w.checked[t], w.clock), json)
    ensures Inv(AfterRedeem(w.(checked := w.checked - {t}), w.checked[t], outcome), json)
  {
    var w' := AfterRedeem(w.(checked := w.checked - {t}), w.checked[t], outcome);
    TracesStay(w, w', json);
    BindsStay(w, w', json);
    if outcome.1.Accepted? {
      TraceIsStable(w, w', Acceptance(outcome.1.id, w.checked[t], w.clock), json);
    }
  }

  lemma RotatingKeepsInv(w: World, a: Action, json: Codec)
    requires Inv(w, json) && Enabled(w, a) && a.RotateTransitKey?
    ensures Inv(Next(w, a, json), json)
  {
    var w' := Next(w, a, json);
    TracesStay(w, w', json);
    BindsStay(w, w', json);
    forall k, m, raw | (k, m, raw) in w'.made && IsTransitKey(k, w'.transit)
      ensures exists s :: s in w'.signed && s.document == m
    {
      var n :| n in w'.transit && w'.transit[n] == k;
      assert k != a.newKey;
      assert IsTransitKey(k, w.transit) by { assert w.transit[n] == k; }
    }
  }

  /** The steps that touch neither traces nor binds. */
  lemma QuietStepKeepsInv(w: World, a: Action, json: Codec)
    requires Inv(w, json) && Enabled(w, a)
    requires a.Tick? || a.AskChallenge? || a.HolderSigns? || a.RefreshKeys? || a.RestartRelay? || a.ChangeAccount?
    ensures Inv(Next(w, a, json), json)
  {
    var w' := Next(w, a, json);
    TracesStay(w, w', json);
    BindsStay(w, w', json);
  }

  lemma FlightKeepsInv(w: World, a: Action, json: Codec)
    requires Inv(w, json) && Enabled(w, a) && (a.DrawUp? || a.SigningFails?)
    ensures Inv(Next(w, a, json), json)
  {
    var w' := Next(w, a, json);
    TracesStay(w, w', json);
    BindsStay(w, w', json);
  }

  lemma StepKeepsInv(w: World, a: Action, json: Codec)
    requires Inv(w, json) && Faithful(json) && Enabled(w, a)
    ensures Inv(Next(w, a, json), json)
  {
    match a
    case SignAssertion(t, version, raw) => SigningKeepsInv(w, t, version, raw, json);
    case Enroll(t, req, readFailure, write) =>
      var (store, r) := EnrollClaimStep(w.store, w.credentials, req, w.clock, readFailure, write);
      EnrollingKeepsInv(w, t, store, r, json);
    case DrawUp(_) => FlightKeepsInv(w, a, json);
    case SigningFails(_) => FlightKeepsInv(w, a, json);
    case Present(t, headers, proof) => PresentingKeepsInv(w, t, headers, proof, json);
    case Redeem(t) => RedeemingKeepsInv(w, t, json);
    case RotateTransitKey(_, _) => RotatingKeepsInv(w, a, json);
    case _ => QuietStepKeepsInv(w, a, json);
  }

  lemma {:induction false} RunKeepsInv(w: World, actions: seq<Action>, json: Codec, w': World)
    requires Inv(w, json) && Faithful(json) && Run(w, actions, Moves(json), w')
    ensures Inv(w', json)
    decreases |actions|
  {
    if actions == [] {
    } else {
      StepKeepsInv(w, actions[0], json);
      RunKeepsInv(Next(w, actions[0], json), actions[1..], json, w');
    }
  }

  /** Main theorem: in every interleaved run, every accepted connection has its full chain behind it. */
  lemma EveryAcceptanceIsTraced(transit: Keys, clock: Time, credentials: Credentials, actions: seq<Action>, json: Codec,
                                w: World, acc: Acceptance)
    requires Faithful(json)
    requires Run(Start(transit, clock, credentials), actions, Moves(json), w) && acc in w.accepted
    ensures Traced(w, acc, json)
  {
    RunKeepsInv(Start(transit, clock, credentials), actions, json, w);
  }

  // ---- Replays ------------------------------------------------------------------------

  function Acceptances(accepted: seq<Acceptance>, nonce: C.Nonce): nat {
    if accepted == [] then 0
    else Acceptances(DropLast(accepted), nonce) + if Last(accepted).checked.proof.challenge == nonce then 1 else 0
  }

  function TimesIssued(issued: seq<(C.Nonce, Time)>, nonce: C.Nonce): nat {
    if issued == [] then 0
    else TimesIssued(DropLast(issued), nonce) + if Last(issued).0 == nonce then 1 else 0
  }

  ghost predicate NoncesAreSpent(w: World, nonce: C.Nonce) {
    Acceptances(w.accepted, nonce) + (if nonce in w.pool then 1 else 0) <= TimesIssued(w.issued, nonce)
  }

  lemma RedeemingSpendsTheNonce(w: World, c: Checked, outcome: (C.Pool, Verdict), nonce: C.Nonce)
    requires NoncesAreSpent(w, nonce)
    requires forall n :: n in outcome.0 ==> n in w.pool
    requires outcome.1.Accepted? ==> c.proof.challenge in w.pool && c.proof.challenge !in outcome.0
    ensures NoncesAreSpent(AfterRedeem(w, c, outcome), nonce)
  {
    if outcome.1.Accepted? {
      assert DropLast(AfterRedeem(w, c, outcome).accepted) == w.accepted;
    }
  }

  lemma IssuingSpendsNoNonce(w: World, draw: Option<C.Nonce>, json: Codec, nonce: C.Nonce)
    requires NoncesAreSpent(w, nonce)
    ensures NoncesAreSpent(Next(w, AskChallenge(draw), json), nonce)
  {
    var (pool, r) := C.IssueStep(w.pool, draw, w.clock, w.clock);
    if r.Issued? {
      assert DropLast(w.issued + [(r.nonce, w.clock)]) == w.issued;
    }
  }

  lemma EnrollingSpendsNoNonce(w: World, t: Ticket, store: Store<K.Owners>, r: ClaimReply, nonce: C.Nonce)
    requires NoncesAreSpent(w, nonce)
    ensures NoncesAreSpent(AfterEnroll(w, t, store, r), nonce)
  {}

  lemma CheckingSpendsNoNonce(w: World, t: Ticket, proof: Proof, check: AssertionCheck, nonce: C.Nonce)
    requires NoncesAreSpent(w, nonce)
    ensures NoncesAreSpent(AfterCheck(w, t, proof, check), nonce)
  {}

  lemma QuietStepSpendsNoNonce(w: World, a: Action, json: Codec, nonce: C.Nonce)
    requires NoncesAreSpent(w, nonce) && Enabled(w, a)
    requires !a.AskChallenge? && !a.Redeem? && !a.Enroll? && !a.Present?
    ensures NoncesAreSpent(Next(w, a, json), nonce)
  {
    var w' := Next(w, a, json);
    assert w'.accepted == w.accepted && w'.issued == w.issued && (w'.pool == w.pool || w'.pool == map[]);
  }

  lemma StepSpendsNonces(w: World, a: Action, json: Codec, nonce: C.Nonce)
    requires NoncesAreSpent(w, nonce) && Enabled(w, a)
    ensures NoncesAreSpent(Next(w, a, json), nonce)
  {
    match a
    case AskChallenge(draw) => IssuingSpendsNoNonce(w, draw, json, nonce);
    case Enroll(t, req, readFailure, write) =>
      var (store, r) := EnrollClaimStep(w.store, w.credentials, req, w.clock, readFailure, write);
      EnrollingSpendsNoNonce(w, t, store, r, nonce);
    case Present(t, _, proof) =>
      CheckingSpendsNoNonce(w, t, proof, AssertionStep(w.pubKeys, w.made, json, proof, w.clock), nonce);
    case Redeem(t) =>
      var c := w.checked[t];
      RedeemingOnlySpends(w.pool, w.made, c.assertion, c.proof, w.clock);
      RedeemingSpendsTheNonce(w.(checked := w.checked - {t}), c,
                              ChallengeStep(w.pool, w.made, c.assertion, c.proof, w.clock), nonce);
    case _ => QuietStepSpendsNoNonce(w, a, json, nonce);
  }

  lemma {:induction false} RunSpendsNonces(w: World, actions: seq<Action>, json: Codec, w': World, nonce: C.Nonce)
    requires NoncesAreSpent(w, nonce) && Run(w, actions, Moves(json), w')
    ensures NoncesAreSpent(w', nonce)
    decreases |actions|
  {
    if actions == [] {
    } else {
      StepSpendsNonces(w, actions[0], json, nonce);
      RunSpendsNonces(Next(w, actions[0], json), actions[1..], json, w', nonce);
    }
  }

  /** A nonce admits no more connections than it was issued: a captured handshake is accepted at most once
      as long as the random source does not repeat the nonce. */
  lemma HandshakeIsNotReplayable(transit: Keys, clock: Time, credentials: Credentials, actions: seq<Action>,
                                 json: Codec,
                                 w: World, nonce: C.Nonce)
    requires Run(Start(transit, clock, credentials), actions, Moves(json), w)
    ensures Acceptances(w.accepted, nonce) <= TimesIssued(w.issued, nonce)
  {
    RunSpendsNonces(Start(transit, clock, credentials), actions, json, w, nonce);
  }

  // ---- Rebinding ----------------------------------------------------------------------

  /** A claim that is granted was authorised by the account or the token of that moment, and leaves the claimed
      key as the recorded owner, whatever faults it met. */
  lemma BindMeansOwnership(w: World, a: Action, json: Codec, b: Bind)
    requires a.Enroll? && Enabled(w, a) && b in Next(w, a, json).binds && b !in w.binds
    ensures K.OwnerOf(Next(w, a, json).store, b.id) == Some(b.key) && b.at == w.clock
    ensures w.credentials.Authorise(a.req) && b.id == TrimSpace(a.req.agentId) && b.key == a.req.publicKey
  {}

  /** A key text for these key bytes, under this id: several base64 texts decode to the same bytes. */
  predicate IsFor(id: Bytes, key: Bytes, ofId: Bytes, ofKey: Key) {
    id == ofId && KeyBytes(key) == Some(ofKey)
  }

  /** The id has an owner, and it is not this key. */
  predicate Displaced(s: Store<K.Owners>, id: Bytes, key: Key) {
    K.OwnerOf(s, id).Some? && KeyBytes(K.OwnerOf(s, id).value) != Some(key)
  }

  /** Enrolments of the key whose claim was granted and whose signature has not come yet. */
  ghost function Outstanding(w: World, id: Bytes, key: Key): set<Ticket> {
    set t | t in w.pending && IsFor(w.pending[t].id, w.pending[t].key, id, key)
  }

  /** Assertions for the key signed since. */
  ghost function SignedSince(w: World, id: Bytes, key: Key, former: set<Signed>): set<Signed> {
    set s | s in w.signed && IsFor(s.id, s.key, id, key) && s !in former
  }

  /** No store read is misread, and no enrolment asks for the id to be rebound to the displaced key. */
  predicate LeavesDisplaced(a: Action, id: Bytes, key: Key) {
    a.Enroll? ==>
      !Misread(a.readFailure) && !(a.req.rebind && IsFor(TrimSpace(a.req.agentId), a.req.publicKey, id, key))
  }

  /** A claim by the displaced key is not granted, and no other claim makes it the owner again. */
  lemma ClaimLeavesDisplaced(s: Store<K.Owners>, c: K.Claim, id: Bytes, key: Key)
    requires Displaced(s, id, key) && !Misread(c.readFailure) && !(c.rebind && IsFor(c.id, c.key, id, key))
    ensures var (s', r) := K.ClaimStep(s, c);
            Displaced(s', id, key) && (r.Granted? ==> !IsFor(c.id, c.key, id, key))
  {
    K.ClaimIsLawfulExactlyUnlessMisread(s, c);
  }

  lemma EnrollingLeavesDisplaced(w: World, a: Action, id: Bytes, key: Key)
    requires a.Enroll? && Displaced(w.store, id, key) && LeavesDisplaced(a, id, key)
    ensures var (s', r) := EnrollClaimStep(w.store, w.credentials, a.req, w.clock, a.readFailure, a.write);
            Displaced(s', id, key) && (r.Claimed? ==> !IsFor(r.id, r.key, id, key))
  {
    var c := K.Claim(TrimSpace(a.req.agentId), a.req.publicKey, a.req.username, a.req.rebind, w.clock, a.readFailure,
                     a.write);
    ClaimLeavesDisplaced(w.store, c, id, key);
  }

  /** What is outstanding and what has been signed since only trade places. */
  ghost predicate Bounded(w: World, id: Bytes, key: Key, former: set<Signed>, n: nat) {
    Displaced(w.store, id, key) && |SignedSince(w, id, key, former)| + |Outstanding(w, id, key)| <= n
  }

  lemma SubsetIsSmaller<T>(a: set<T>, b: set<T>)
    requires a <= b
    ensures |a| <= |b|
  {
    assert |b - a| == |b| - |a|;
  }

  lemma SigningIsBounded(w: World, t: Ticket, document: Bytes, version: int, raw: Bytes, id: Bytes, key: Key,
                         former: set<Signed>, n: nat)
    requires t in w.pending && w.pending[t].stamp.Some? && version in w.transit && Bounded(w, id, key, former, n)
    ensures Bounded(AfterSigning(w, t, document, version, raw), id, key, former, n)
  {
    var e, w' := w.pending[t], AfterSigning(w, t, document, version, raw);
    var since, open := SignedSince(w, id, key, former), Outstanding(w, id, key);
    if IsFor(e.id, e.key, id, key) {
      assert t in open && Outstanding(w', id, key) == open - {t};
      SubsetIsSmaller(SignedSince(w', id, key, former), since + {Signed(document, e.id, e.key, e.stamp.value)});
    } else {
      assert Outstanding(w', id, key) == open && SignedSince(w', id, key, former) == since;
    }
  }

  lemma EnrollingIsBounded(w: World, t: Ticket, store: Store<K.Owners>, r: ClaimReply, id: Bytes, key: Key,
                           former: set<Signed>, n: nat)
    requires t !in w.pending && Bounded(w, id, key, former, n) && Displaced(store, id, key)
    requires r.Claimed? ==> !IsFor(r.id, r.key, id, key)
    ensures Bounded(AfterEnroll(w, t, store, r), id, key, former, n)
  {
    var w' := AfterEnroll(w, t, store, r);
    assert Outstanding(w', id, key) == Outstanding(w, id, key);
    assert SignedSince(w', id, key, former) == SignedSince(w, id, key, former);
  }

  lemma FlightIsBounded(w: World, a: Action, json: Codec, id: Bytes, key: Key, former: set<Signed>, n: nat)
    requires a.DrawUp? || a.SigningFails?
    requires Bounded(w, id, key, former, n) && Enabled(w, a)
    ensures Bounded(Next(w, a, json), id, key, former, n)
  {
    SubsetIsSmaller(Outstanding(Next(w, a, json), id, key), Outstanding(w, id, key));
  }

  lemma QuietStepIsBounded(w: World, a: Action, json: Codec, id: Bytes, key: Key, former: set<Signed>, n: nat)
    requires !a.Enroll? && !a.DrawUp? && !a.SignAssertion? && !a.SigningFails?
    requires Bounded(w, id, key, former, n) && Enabled(w, a)
    ensures Bounded(Next(w, a, json), id, key, former, n)
  {
    var w' := Next(w, a, json);
    assert w'.pending == w.pending && w'.signed == w.signed && w'.store == w.store;
  }

  lemma StepIsBounded(w: World, a: Action, json: Codec, id: Bytes, key: Key, former: set<Signed>, n: nat)
    requires Bounded(w, id, key, former, n) && LeavesDisplaced(a, id, key) && Enabled(w, a)
    ensures Bounded(Next(w, a, json), id, key, former, n)
  {
    match a
    case Enroll(t, req, readFailure, write) =>
      EnrollingLeavesDisplaced(w, a, id, key);
      var (store, r) := EnrollClaimStep(w.store, w.credentials, req, w.clock, readFailure, write);
      EnrollingIsBounded(w, t, store, r, id, key, former, n);
    case SignAssertion(t, version, raw) =>
      SigningIsBounded(w, t, DocumentOf(w.pending[t], json), version, raw, id, key, former, n);
    case DrawUp(_) => FlightIsBounded(w, a, json, id, key, former, n);
    case SigningFails(_) => FlightIsBounded(w, a, json, id, key, former, n);
    case _ => QuietStepIsBounded(w, a, json, id, key, former, n);
  }

  lemma {:induction false} RunIsBounded(w: World, actions: seq<Action>, json: Codec, w': World, id: Bytes, key: Key,
                                        former: set<Signed>, n: nat)
    requires Bounded(w, id, key, former, n) && Run(w, actions, Moves(json), w')
    requires forall i :: 0 <= i < |actions| ==> LeavesDisplaced(actions[i], id, key)
    ensures Bounded(w', id, key, former, n)
    decreases |actions|
  {
    if actions == [] {
    } else {
      StepIsBounded(w, actions[0], json, id, key, former, n);
      RunIsBounded(Next(w, actions[0], json), actions[1..], json, w', id, key, former, n);
    }
  }

  /** What a displaced key can still do, short of a misread or a rebind back to it: it gets at most the assertions
      that were being signed for it when it was displaced, and no other assertion lets it connect more than
      ASSERTION_TTL after that moment. */
  lemma DisplacedKeyIsBounded(w: World, actions: seq<Action>, json: Codec, w': World, id: Bytes, key: Key)
    requires Inv(w, json) && Displaced(w.store, id, key) && Run(w, actions, Moves(json), w')
    requires forall i :: 0 <= i < |actions| ==> LeavesDisplaced(actions[i], id, key)
    ensures |SignedSince(w', id, key, w.signed)| <= |Outstanding(w, id, key)|
    ensures forall acc, s :: acc in w'.accepted && TracedTo(w', acc, s, json) && IsFor(s.id, s.key, id, key) ==>
                               s in SignedSince(w', id, key, w.signed) || acc.checked.at <= w.clock + ASSERTION_TTL
  {
    assert SignedSince(w, id, key, w.signed) == {};
    RunIsBounded(w, actions, json, w', id, key, w.signed, |Outstanding(w, id, key)|);
  }

  // ---- Availability -------------------------------------------------------------------

  lemma {:induction false} RunsJoin(w: World, a: seq<Action>, mid: World, b: seq<Action>, m: Machine, w': World)
    requires Run(w, a, m, mid) && Run(mid, b, m, w')
    ensures Run(w, a + b, m, w')
    decreases |a|
  {
    if a == [] {
      assert a + b == b;
    } else {
      RunsJoin(m(w, a[0]).value, a[1..], mid, b, m, w');
      assert (a + b)[1..] == a[1..] + b;
    }
  }

  lemma StepRuns(w: World, a: Action, json: Codec)
    requires Enabled(w, a)
    ensures Run(w, [a], Moves(json), Next(w, a, json))
  {
    assert Run(Next(w, a, json), [a][1..], Moves(json), Next(w, a, json));
  }

  /** A request the relay can use, from someone it accepts, for a free or own id or with rebind. */
  ghost predicate Entitled(w: World, req: EnrollRequest) {
    && w.credentials.Authorise(req)
    && 0 < |TrimSpace(req.agentId)| <= MAX_AGENT_ID && KeyBytes(req.publicKey).Some?
    && (K.OwnerOf(w.store, TrimSpace(req.agentId)) in {None, Some(req.publicKey)} || req.rebind)
  }

  function EnrollNow(t: Ticket, req: EnrollRequest): Action {
    Enroll(t, req, None, Acknowledged)
  }

  lemma EntitledEnrolmentIsClaimed(w: World, t: Ticket, json: Codec, req: EnrollRequest)
    requires Entitled(w, req) && t !in w.pending
    ensures var w', id := Next(w, EnrollNow(t, req), json), TrimSpace(req.agentId);
            && w' == w.(store := w'.store, pending := w'.pending, binds := w'.binds)
            && w'.pending == w.pending[t := InFlight(id, req.publicKey, None)]
            && K.OwnerOf(w'.store, id) == Some(req.publicKey)
  {
    var c := K.Claim(TrimSpace(req.agentId), req.publicKey, req.username, req.rebind, w.clock, None, Acknowledged);
    K.GrantedExactlyWhenEntitled(w.store, c);
  }

  lemma EnrolmentIsClaimed(w: World, json: Codec, t: Ticket, req: EnrollRequest) returns (w': World)
    requires Entitled(w, req) && t !in w.pending
    ensures Run(w, [EnrollNow(t, req)], Moves(json), w')
    ensures w' == w.(store := w'.store, pending := w'.pending, binds := w'.binds)
    ensures w'.pending == w.pending[t := InFlight(TrimSpace(req.agentId), req.publicKey, None)]
    ensures K.OwnerOf(w'.store, TrimSpace(req.agentId)) == Some(req.publicKey)
  {
    EntitledEnrolmentIsClaimed(w, t, json, req);
    w' := Next(w, EnrollNow(t, req), json);
    StepRuns(w, EnrollNow(t, req), json);
  }

  /** What an agent has to go by: an assertion granted at `at`, signed under a version the relay knows. */
  ghost predicate Holds(w: World, json: Codec, id: Bytes, key: Bytes, at: Time, version: int, raw: Bytes) {
    && 1 <= version <= MAX_INT64 && version in w.pubKeys && |raw| == SIGNATURE_SIZE
    && (w.pubKeys[version], json.marshal(Grant(id, key, at)), raw) in w.made && w.clock <= at + ASSERTION_TTL
  }

  /** A transit version the relay knows as Vault does. */
  predicate IsCurrent(w: World, version: int) {
    && 1 <= version <= MAX_INT64
    && version in w.transit && version in w.pubKeys && w.pubKeys[version] == w.transit[version]
  }

  function Signing(t: Ticket, version: int, raw: Bytes): seq<Action> {
    [DrawUp(t), SignAssertion(t, version, raw)]
  }

  function Enrolment(t: Ticket, req: EnrollRequest, version: int, raw: Bytes): seq<Action> {
    [EnrollNow(t, req)] + Signing(t, version, raw)
  }

  /** An enrolment in flight can always be drawn up and signed, whoever owns its id by then. */
  lemma FlightIsSigned(w: World, json: Codec, t: Ticket, id: Bytes, key: Bytes, version: int, raw: Bytes)
    returns (w': World)
    requires t in w.pending && w.pending[t] == InFlight(id, key, None)
    requires IsCurrent(w, version) && |raw| == SIGNATURE_SIZE
    ensures Run(w, Signing(t, version, raw), Moves(json), w') && Holds(w', json, id, key, w.clock, version, raw)
    ensures Signed(json.marshal(Grant(id, key, w.clock)), id, key, w.clock) in w'.signed
    ensures w' == w.(pending := w.pending - {t}, made := w'.made, signed := w'.signed)
  {
    var drawn := Next(w, DrawUp(t), json);
    w' := Next(drawn, SignAssertion(t, version, raw), json);
    StepRuns(w, DrawUp(t), json);
    StepRuns(drawn, SignAssertion(t, version, raw), json);
    RunsJoin(w, [DrawUp(t)], drawn, [SignAssertion(t, version, raw)], Moves(json), w');
    assert [DrawUp(t)] + [SignAssertion(t, version, raw)] == Signing(t, version, raw);
    assert w'.pending == w.pending - {t};
  }

  lemma EntitledEnrolmentIsSigned(w: World, json: Codec, t: Ticket, req: EnrollRequest, version: int, raw: Bytes)
    returns (w': World)
    requires Entitled(w, req) && t !in w.pending && IsCurrent(w, version) && |raw| == SIGNATURE_SIZE
    ensures Run(w, Enrolment(t, req, version, raw), Moves(json), w')
    ensures Holds(w', json, TrimSpace(req.agentId), req.publicKey, w.clock, version, raw)
    ensures K.OwnerOf(w'.store, TrimSpace(req.agentId)) == Some(req.publicKey)
    ensures w' == w.(store := w'.store, binds := w'.binds, made := w'.made, signed := w'.signed)
  {
    var claimed := EnrolmentIsClaimed(w, json, t, req);
    w' := FlightIsSigned(claimed, json, t, TrimSpace(req.agentId), req.publicKey, version, raw);
    RunsJoin(w, [EnrollNow(t, req)], claimed, Signing(t, version, raw), Moves(json), w');
    assert w'.pending == w.pending;
  }

  /** The headers an agent sends: the assertion it was given, the challenge it asked for, its signature over it. */
  function ProofOf(json: Codec, id: Bytes, key: Bytes, at: Time, version: int, raw: Bytes, nonce: C.Nonce,
                   sig: Bytes): Proof
  {
    Proof(Print(SignedAssertion(json.marshal(Grant(id, key, at)), PrintSignature(version, raw))), nonce,
          Base64.Encode(sig, Base64.Std))
  }

  lemma ProvenAgentIsAccepted(w: World, json: Codec, id: Bytes, key: Bytes, at: Time, version: int, raw: Bytes,
                              nonce: C.Nonce, sig: Bytes)
    requires Faithful(json) && id != [] && KeyBytes(key).Some? && Holds(w, json, id, key, at, version, raw)
    requires |sig| == SIGNATURE_SIZE && nonce in w.pool && w.clock <= w.pool[nonce] + C.CHALLENGE_TTL
    requires (KeyBytes(key).value, nonce, sig) in w.made
    ensures var proof := ProofOf(json, id, key, at, version, raw, nonce, sig);
            && AssertionStep(w.pubKeys, w.made, json, proof, w.clock) == Genuine(Grant(id, key, at))
            && ChallengeStep(w.pool, w.made, Grant(id, key, at), proof, w.clock).1 == Accepted(id)
  {
    EmptyTextIsNoKey();
    AcceptedExactlyWhenProven(w.pool, w.pubKeys, w.made, json, json.marshal(Grant(id, key, at)), version, raw, nonce,
                              sig, w.clock, w.clock);
    ParsePrinted(SignedAssertion(json.marshal(Grant(id, key, at)), PrintSignature(version, raw)), json);
  }

  lemma ChallengeIsAnswered(w: World, json: Codec, holder: Key, nonce: C.Nonce, sig: Bytes) returns (w': World)
    requires |C.Live(w.pool, w.clock)| < C.MAX_CHALLENGES && !IsTransitKey(holder, w.transit)
    ensures Run(w, [AskChallenge(Some(nonce)), HolderSigns(holder, nonce, sig)], Moves(json), w')
    ensures nonce in w'.pool && w'.pool[nonce] == w.clock && (holder, nonce, sig) in w'.made && w.made <= w'.made
    ensures w' == w.(pool := w'.pool, issued := w'.issued, made := w'.made)
  {
    var ask, answer := AskChallenge(Some(nonce)), HolderSigns(holder, nonce, sig);
    var mid := Next(w, ask, json);
    assert mid == w.(pool := C.Live(w.pool, w.clock)[nonce := w.clock], issued := w.issued + [(nonce, w.clock)]);
    StepRuns(w, ask, json);
    StepRuns(mid, answer, json);
    RunsJoin(w, [ask], mid, [answer], Moves(json), Next(mid, answer, json));
    assert [ask] + [answer] == [ask, answer];
    w' := Next(mid, answer, json);
  }

  /** A proof whose assertion passes and whose challenge is answered is accepted. */
  lemma PresentedIsAccepted(w: World, json: Codec, t: Ticket, headers: Hello, proof: Proof, a: Assertion, id: Bytes)
    returns (w': World)
    requires HelloFromHeaders(headers).Some? && t !in w.checked
    requires AssertionStep(w.pubKeys, w.made, json, proof, w.clock) == Genuine(a)
    requires ChallengeStep(w.pool, w.made, a, proof, w.clock).1 == Accepted(id)
    ensures Run(w, [Present(t, headers, proof), Redeem(t)], Moves(json), w') && w'.store == w.store
    ensures w'.accepted == w.accepted + [Acceptance(id, Checked(proof, a, w.clock), w.clock)]
  {
    var present := Present(t, headers, proof);
    var presented := Next(w, present, json);
    w' := Next(presented, Redeem(t), json);
    StepRuns(w, present, json);
    StepRuns(presented, Redeem(t), json);
    RunsJoin(w, [present], presented, [Redeem(t)], Moves(json), Next(presented, Redeem(t), json));
    assert [present] + [Redeem(t)] == [present, Redeem(t)];
  }

  /** What a holder does to connect. */
  function Handshake(t: Ticket, holder: Key, nonce: C.Nonce, sig: Bytes, headers: Hello, proof: Proof): seq<Action> {
    [AskChallenge(Some(nonce)), HolderSigns(holder, nonce, sig)] + [Present(t, headers, proof), Redeem(t)]
  }

  /** Whoever holds an assertion and its key can connect, from any world with room for a challenge. */
  lemma HolderConnects(w: World, json: Codec, t: Ticket, id: Bytes, key: Bytes, at: Time, version: int, raw: Bytes,
                       nonce: C.Nonce, sig: Bytes, headers: Hello) returns (w': World)
    requires Faithful(json)
    requires HelloFromHeaders(headers).Some? && id != [] && KeyBytes(key).Some?
    requires Holds(w, json, id, key, at, version, raw) && |sig| == SIGNATURE_SIZE && t !in w.checked
    requires |C.Live(w.pool, w.clock)| < C.MAX_CHALLENGES && !IsTransitKey(KeyBytes(key).value, w.transit)
    ensures var proof := ProofOf(json, id, key, at, version, raw, nonce, sig);
            && Run(w, Handshake(t, KeyBytes(key).value, nonce, sig, headers, proof), Moves(json), w')
            && w'.store == w.store
            && w'.accepted == w.accepted + [Acceptance(id, Checked(proof, Grant(id, key, at), w.clock), w.clock)]
  {
    var proof := ProofOf(json, id, key, at, version, raw, nonce, sig);
    var holder := KeyBytes(key).value;
    var answered := ChallengeIsAnswered(w, json, holder, nonce, sig);
    ProvenAgentIsAccepted(answered, json, id, key, at, version, raw, nonce, sig);
    w' := PresentedIsAccepted(answered, json, t, headers, proof, Grant(id, key, at), id);
    RunsJoin(w, [AskChallenge(Some(nonce)), HolderSigns(holder, nonce, sig)], answered,
             [Present(t, headers, proof), Redeem(t)], Moves(json), w');
  }

  /** From any world: an entitled enrolment, its signature, a challenge and the agent's answer to it are all
      possible, and end in a connection accepted under the enrolled id. */
  lemma HonestAgentConnects(w: World, json: Codec, t: Ticket, req: EnrollRequest, version: int, raw: Bytes,
                            nonce: C.Nonce, sig: Bytes, headers: Hello) returns (w': World)
    requires Faithful(json) && HelloFromHeaders(headers).Some?
    requires Entitled(w, req) && t !in w.pending && t !in w.checked
    requires IsCurrent(w, version) && !IsTransitKey(KeyBytes(req.publicKey).value, w.transit)
    requires |raw| == |sig| == SIGNATURE_SIZE && |C.Live(w.pool, w.clock)| < C.MAX_CHALLENGES
    ensures var id, key := TrimSpace(req.agentId), req.publicKey;
            var proof := ProofOf(json, id, key, w.clock, version, raw, nonce, sig);
            && Run(w, Enrolment(t, req, version, raw) + Handshake(t, KeyBytes(key).value, nonce, sig, headers, proof),
                   Moves(json), w')
            && w'.accepted == w.accepted + [Acceptance(id, Checked(proof, Grant(id, key, w.clock), w.clock), w.clock)]
  {
    var id, key := TrimSpace(req.agentId), req.publicKey;
    var enrolled := EntitledEnrolmentIsSigned(w, json, t, req, version, raw);
    w' := HolderConnects(enrolled, json, t, id, key, w.clock, version, raw, nonce, sig, headers);
    RunsJoin(w, Enrolment(t, req, version, raw), enrolled,
             Handshake(t, KeyBytes(key).value, nonce, sig, headers,
                       ProofOf(json, id, key, w.clock, version, raw, nonce, sig)), Moves(json), w');
  }

  /** A request that asks for an id that another key has just been given, and may have it. */
  ghost predicate TakesOver(w: World, taker: EnrollRequest, req: EnrollRequest) {
    && Entitled(w, taker) && taker.rebind && TrimSpace(taker.agentId) == TrimSpace(req.agentId)
    && KeyBytes(taker.publicKey) != KeyBytes(req.publicKey)
  }

  /** Rebinding an id revokes nothing: an agent enrols, its id is rebound to another key, and the displaced
      key is then accepted under the id although the record names the other key as owner. */
  lemma RebindDoesNotRevoke(w: World, json: Codec, t: Ticket, req: EnrollRequest, taker: EnrollRequest, version: int,
                            raw: Bytes, nonce: C.Nonce, sig: Bytes, headers: Hello) returns (w': World)
    requires Faithful(json) && HelloFromHeaders(headers).Some?
    requires Entitled(w, req) && TakesOver(w, taker, req) && t !in w.pending && t !in w.checked
    requires IsCurrent(w, version) && !IsTransitKey(KeyBytes(req.publicKey).value, w.transit)
    requires |raw| == |sig| == SIGNATURE_SIZE && |C.Live(w.pool, w.clock)| < C.MAX_CHALLENGES
    ensures var id, key := TrimSpace(req.agentId), req.publicKey;
            var proof := ProofOf(json, id, key, w.clock, version, raw, nonce, sig);
            && Run(w, Enrolment(t, req, version, raw) + [EnrollNow(t, taker)]
                      + Handshake(t, KeyBytes(key).value, nonce, sig, headers, proof), Moves(json), w')
            && Displaced(w'.store, id, KeyBytes(key).value)
            && w'.accepted == w.accepted + [Acceptance(id, Checked(proof, Grant(id, key, w.clock), w.clock), w.clock)]
  {
    var id, key := TrimSpace(req.agentId), req.publicKey;
    var enrolled := EntitledEnrolmentIsSigned(w, json, t, req, version, raw);
    var rebound := TakerIsClaimed(enrolled, json, t, req, taker);
    w' := HolderConnects(rebound, json, t, id, key, w.clock, version, raw, nonce, sig, headers);
    RunsJoin(w, Enrolment(t, req, version, raw), enrolled, [EnrollNow(t, taker)], Moves(json), rebound);
    RunsJoin(w, Enrolment(t, req, version, raw) + [EnrollNow(t, taker)], rebound,
             Handshake(t, KeyBytes(key).value, nonce, sig, headers,
                       ProofOf(json, id, key, w.clock, version, raw, nonce, sig)), Moves(json), w');
  }

  lemma TakerIsClaimed(w: World, json: Codec, t: Ticket, req: EnrollRequest, taker: EnrollRequest) returns (w': World)
    requires TakesOver(w, taker, req) && KeyBytes(req.publicKey).Some? && t !in w.pending
    ensures Run(w, [EnrollNow(t, taker)], Moves(json), w')
    ensures Displaced(w'.store, TrimSpace(req.agentId), KeyBytes(req.publicKey).value)
    ensures w' == w.(store := w'.store, pending := w'.pending, binds := w'.binds)
    ensures w'.pending == w.pending[t := InFlight(TrimSpace(req.agentId), taker.publicKey, None)]
  {
    EntitledEnrolmentIsClaimed(w, t, json, taker);
    w' := Next(w, EnrollNow(t, taker), json);
    StepRuns(w, EnrollNow(t, taker), json);
  }

  /** Nor does it recall an enrolment in flight: one whose claim came before the rebind is signed after it, however
      long after, and the displaced key has a fresh assertion. */
  lemma FlightOutlivesTheRebind(w: World, json: Codec, t: Ticket, u: Ticket, req: EnrollRequest, taker: EnrollRequest,
                                elapsed: nat, version: int, raw: Bytes) returns (w': World)
    requires Entitled(w, req) && TakesOver(w, taker, req) && t !in w.pending && u !in w.pending && t != u
    requires IsCurrent(w, version) && |raw| == SIGNATURE_SIZE
    ensures var id, key := TrimSpace(req.agentId), req.publicKey;
            && Run(w, Race(t, u, req, taker, elapsed) + Signing(t, version, raw), Moves(json), w')
            && Displaced(w'.store, id, KeyBytes(key).value) && w'.clock == w.clock + elapsed
            && Holds(w', json, id, key, w.clock + elapsed, version, raw)
  {
    var rebound := ClaimsRace(w, json, t, u, req, taker, elapsed);
    w' := FlightIsSigned(rebound, json, t, TrimSpace(req.agentId), req.publicKey, version, raw);
    RunsJoin(w, Race(t, u, req, taker, elapsed), rebound, Signing(t, version, raw), Moves(json), w');
  }

  /** A claim, a claim of another key that takes the id over, and any time. */
  function Race(t: Ticket, u: Ticket, req: EnrollRequest, taker: EnrollRequest, elapsed: nat): seq<Action> {
    [EnrollNow(t, req)] + [EnrollNow(u, taker)] + [Tick(elapsed)]
  }

  lemma ClaimsRace(w: World, json: Codec, t: Ticket, u: Ticket, req: EnrollRequest, taker: EnrollRequest, elapsed: nat)
    returns (w': World)
    requires Entitled(w, req) && TakesOver(w, taker, req) && t !in w.pending && u !in w.pending && t != u
    ensures Run(w, Race(t, u, req, taker, elapsed), Moves(json), w')
    ensures Displaced(w'.store, TrimSpace(req.agentId), KeyBytes(req.publicKey).value)
    ensures w' == w.(clock := w.clock + elapsed, store := w'.store, pending := w'.pending, binds := w'.binds)
    ensures t in w'.pending && w'.pending[t] == InFlight(TrimSpace(req.agentId), req.publicKey, None)
  {
    var claimed := EnrolmentIsClaimed(w, json, t, req);
    var rebound := TakerIsClaimed(claimed, json, u, req, taker);
    w' := ClockAdvances(rebound, json, elapsed);
    RunsJoin(w, [EnrollNow(t, req)], claimed, [EnrollNow(u, taker)], Moves(json), rebound);
    RunsJoin(w, [EnrollNow(t, req)] + [EnrollNow(u, taker)], rebound, [Tick(elapsed)], Moves(json), w');
  }

  lemma ClockAdvances(w: World, json: Codec, elapsed: nat) returns (w': World)
    ensures Run(w, [Tick(elapsed)], Moves(json), w') && w' == w.(clock := w.clock + elapsed)
  {
    w' := Next(w, Tick(elapsed), json);
    StepRuns(w, Tick(elapsed), json);
  }

  lemma EmptyTextIsNoKey()
    ensures KeyBytes([]).None?
  {
    assert Base64.Decode([], Base64.Std) == Some([]);
  }
}
