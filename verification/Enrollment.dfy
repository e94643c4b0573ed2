/** Enrolment and the check on every connection (server/enroll.go, server/agent.go). */
module Enrollment {
  import opened Basics
  import opened Base64
  import opened Identity
  import opened Protocol
  import opened Text
  import opened Vault
  import opened VaultKv
  import A = Auth
  import C = Challenges
  import K = AgentKeys
  import O = Operator
  import R = Registry

  const ASSERTION_TTL: int := 90 * 24 * 3600 * SECOND

  // ---- Enrolment ---------------------------------------------------------------

  datatype EnrollRequest = EnrollRequest(username: Bytes, password: Bytes, agentId: Bytes, publicKey: Bytes,
                                         rebind: bool)

  /** What an enrolment is authorised against: the operator account, if there is one, and the admin token. */
  datatype Credentials = Credentials(account: Option<O.Operator>, hashing: O.Hashing, token: Bytes) {
    /** An operator's own credentials, or the admin token under an empty name. */
    predicate Authorise(req: EnrollRequest) {
      || O.VerifyWith(account, hashing, req.username, req.password)
      || (req.username == [] && A.Matches(token, TrimSpace(req.password)))
    }
  }

  /** With an account saved under a password, exactly that name and password authorise, or the token alone. */
  lemma AuthorisedExactlyByPasswordOrToken(c: Credentials, req: EnrollRequest, salt: Bytes, password: Bytes)
    requires O.Sound(c.hashing)
    requires c.account.Some? ==> c.account.value.passwordHash == c.hashing.hash(salt, password)
    ensures c.Authorise(req) <==>
            || (c.account.Some? && TrimSpace(req.username) == c.account.value.username && req.password == password)
            || (req.username == [] && c.token != [] && TrimSpace(req.password) == c.token)
  {}

  datatype ClaimReply =
    | Claimed(id: Bytes, key: Bytes)
    | Unauthorised
    | UnusableId
    | UnusableKey
    | Conflict(boundAt: Time)
    | StoreUnavailable(text: Bytes)

  function EnrollClaimStep(s: Store<K.Owners>, c: Credentials, req: EnrollRequest, now: Time,
                           readFailure: Option<Bytes>,
                           write: WriteOutcome): (Store<K.Owners>, ClaimReply)
  {
    var id := TrimSpace(req.agentId);
    if !c.Authorise(req) then (s, Unauthorised)
    else if id == [] || |id| > MAX_AGENT_ID then (s, UnusableId)
    else if KeyBytes(req.publicKey).None? then (s, UnusableKey)
    else
      var (s', r) := K.ClaimStep(s, K.Claim(id, req.publicKey, req.username, req.rebind, now, readFailure, write));
      match r
      case Granted => (s', Claimed(id, req.publicKey))
      case RebindRequired(_, boundAt) => (s', Conflict(boundAt))
      case StoreFailed(text) => (s', StoreUnavailable(text))
  }

  function Grant(id: Bytes, key: Bytes, now: Time): Assertion {
    Assertion(id, key, now, Some(now + ASSERTION_TTL))
  }

  datatype EnrollReply =
    | Enrolled(assertion: Bytes, expiresAt: Time)
    | NotClaimed(why: ClaimReply)
    | NotSigned(text: Bytes)

  /** The assertion a granted claim earns, or what stood in the way of it. */
  function EnrollOutcome(claim: ClaimReply, issuedAt: Time, signature: Result<Bytes>, json: Codec): EnrollReply {
    match (claim, signature)
    case (Claimed(id, key), Ok(sig)) =>
      Enrolled(Print(SignedAssertion(json.marshal(Grant(id, key, issuedAt)), sig)), issuedAt + ASSERTION_TTL)
    case (Claimed(_, _), Err(text)) => NotSigned(text)
    case _ => NotClaimed(claim)
  }

  // ---- Connecting ----------------------------------------------------------------

  /** The three headers that carry the proof. */
  datatype Proof = Proof(assertion: Bytes, challenge: Bytes, signature: Bytes)

  datatype Verdict =
    | Accepted(id: Bytes)
    | NotEnrolled
    | UnreadableAssertion
    | NotSignedByVault
    | AssertionExpired
    | UnknownChallenge
    | MalformedSignature
    | UnusableAgentKey
    | WrongKey

  /** The first half of verifyAgent ends with an assertion or with a refusal. */
  datatype AssertionCheck = Genuine(assertion: Assertion) | Doubtful(verdict: Verdict)

  function AssertionStep(keys: Keys, made: Made, json: Codec, p: Proof, now: Time): AssertionCheck {
    if p.assertion == [] then Doubtful(NotEnrolled)
    else
      match Parse(p.assertion, json)
      case Parsed(signed, a) =>
        if !VerifyWith(keys, made, signed.document, signed.signature) then Doubtful(NotSignedByVault)
        else if a.Expired(now) then Doubtful(AssertionExpired)
        else Genuine(a)
      case _ => Doubtful(UnreadableAssertion)
  }

  /** The second half, for the assertion of the first. */
  function ChallengeStep(pool: C.Pool, made: Made, a: Assertion, p: Proof, redeemAt: Time): (C.Pool, Verdict) {
    var (pool', redeemed) := C.RedeemStep(pool, p.challenge, redeemAt);
    (pool', if !redeemed then UnknownChallenge else ProofOfKey(a, p, made))
  }

  /** The clock is read for the expiry and again inside the redemption. */
  function VerifyAgentStep(pool: C.Pool, keys: Keys, made: Made, json: Codec, p: Proof, now: Time, redeemAt: Time)
    : (C.Pool, Verdict)
  {
    match AssertionStep(keys, made, json, p, now)
    case Doubtful(v) => (pool, v)
    case Genuine(a) => ChallengeStep(pool, made, a, p, redeemAt)
  }

  function ProofOfKey(a: Assertion, p: Proof, made: Made): Verdict {
    var sig := Decode(p.signature, Std);
    if sig.None? || |sig.value| != SIGNATURE_SIZE then MalformedSignature
    else if a.PublicKeyBytes().None? then UnusableAgentKey
    else if (a.PublicKeyBytes().value, p.challenge, sig.value) !in made then WrongKey
    else Accepted(a.agentId)
  }

  datatype ConnectReply = Serving(hello: Hello) | BadHello | Rejected(verdict: Verdict) | UpgradeRequired

  class Server {
    const challenges: C.Challenges
    const agentKeys: K.AgentKeys
    const vault: Vault
    const auth: A.Auth
    const json: Codec

    constructor (challenges: C.Challenges, agentKeys: K.AgentKeys, vault: Vault, auth: A.Auth, json: Codec)
      ensures this.challenges == challenges && this.agentKeys == agentKeys && this.vault == vault
      ensures this.auth == auth && this.json == json
    {
      this.challenges, this.agentKeys, this.vault, this.auth, this.json := challenges, agentKeys, vault, auth, json;
    }

    ghost function Current(): Credentials
      reads auth.ops
    {
      Credentials(auth.ops.rec, auth.ops.h, auth.token)
    }

    method EnrollClaim(req: EnrollRequest, now: Time, readFailure: Option<Bytes>, write: WriteOutcome)
      returns (r: ClaimReply)
      modifies agentKeys.store
      ensures (agentKeys.store.state, r)
              == EnrollClaimStep(old(agentKeys.store.state), Current(), req, now, readFailure, write)
    {
      var known := auth.ops.Verify(req.username, req.password);
      if !known && !(req.username == [] && A.Matches(auth.token, TrimSpace(req.password))) {
        return Unauthorised;
      }
      var id := TrimSpace(req.agentId);
      if id == [] || |id| > MAX_AGENT_ID {
        return UnusableId;
      }
      if KeyBytes(req.publicKey).None? {
        return UnusableKey;
      }
      var claimed := agentKeys.Claim(K.Claim(id, req.publicKey, req.username, req.rebind, now, readFailure, write));
      match claimed
      case Granted => r := Claimed(id, req.publicKey);
      case RebindRequired(_, boundAt) => r := Conflict(boundAt);
      case StoreFailed(text) => r := StoreUnavailable(text);
    }

    /** `toSign` is the document Vault is asked to sign, if it is asked at all; `signature` is its answer. */
    method HandleEnroll(req: EnrollRequest, now: Time, readFailure: Option<Bytes>, write: WriteOutcome, issuedAt: Time,
                        signature: Result<Bytes>)
      returns (r: EnrollReply, toSign: Option<Bytes>)
      modifies agentKeys.store
      ensures var (store, claim) :=
                EnrollClaimStep(old(agentKeys.store.state), Current(), req, now, readFailure, write);
              && agentKeys.store.state == store && r == EnrollOutcome(claim, issuedAt, signature, json)
              && toSign == if claim.Claimed? then Some(json.marshal(Grant(claim.id, claim.key, issuedAt))) else None
    {
      var claim := EnrollClaim(req, now, readFailure, write);
      if !claim.Claimed? {
        return NotClaimed(claim), None;
      }
      var document := json.marshal(Assertion(claim.id, claim.key, issuedAt, Some(issuedAt + ASSERTION_TTL)));
      toSign := Some(document);
      match signature
      case Err(text) => r := NotSigned(text);
      case Ok(sig) => r := Enrolled(Print(SignedAssertion(document, sig)), issuedAt + ASSERTION_TTL);
    }

    method VerifyAgent(p: Proof, made: Made, now: Time, redeemAt: Time) returns (v: Verdict)
      modifies challenges
      ensures (challenges.seen, v) == VerifyAgentStep(old(challenges.seen), vault.pubKeys, made, json, p, now, redeemAt)
    {
      if p.assertion == [] {
        return NotEnrolled;
      }
      var parsed := Parse(p.assertion, json);
      if !parsed.Parsed? {
        return UnreadableAssertion;
      }
      var genuine := vault.Verify(made, parsed.signed.document, parsed.signed.signature);
      if !genuine {
        return NotSignedByVault;
      }
      if parsed.assertion.Expired(now) {
        return AssertionExpired;
      }
      var redeemed := challenges.Redeem(p.challenge, redeemAt);
      if !redeemed {
        return UnknownChallenge;
      }
      var sig := Decode(p.signature, Std);
      if sig.None? || |sig.value| != SIGNATURE_SIZE {
        return MalformedSignature;
      }
      var pub := parsed.assertion.PublicKeyBytes();
      if pub.None? {
        return UnusableAgentKey;
      }
      if (pub.value, p.challenge, sig.value) !in made {
        return WrongKey;
      }
      v := Accepted(parsed.assertion.agentId);
    }

    method HandleAgentConnect(headers: Hello, upgrade: bool, p: Proof, made: Made, now: Time, redeemAt: Time)
      returns (r: ConnectReply)
      modifies challenges
      ensures (challenges.seen, r)
              == ConnectStep(old(challenges.seen), vault.pubKeys, made, json, headers, upgrade, p, now, redeemAt)
    {
      var hello := HelloFromHeaders(headers);
      if hello.None? {
        return BadHello;
      }
      var v := VerifyAgent(p, made, now, redeemAt);
      if !v.Accepted? {
        return Rejected(v);
      }
      if !upgrade {
        return UpgradeRequired;
      }
      r := Serving(hello.value.(agentId := v.id));
    }
  }

  function ConnectStep(pool: C.Pool, keys: Keys, made: Made, json: Codec, headers: Hello, upgrade: bool, p: Proof,
                       now: Time,
                       redeemAt: Time): (C.Pool, ConnectReply)
  {
    match HelloFromHeaders(headers)
    case None => (pool, BadHello)
    case Some(hello) =>
      var (pool', v) := VerifyAgentStep(pool, keys, made, json, p, now, redeemAt);
      (pool', if !v.Accepted? then Rejected(v)
              else if !upgrade then UpgradeRequired else Serving(hello.(agentId := v.id)))
  }

  /** What an enrolled agent is handed reads back as a grant of exactly the requested id and key, signed by
      whatever Vault answered, and at that moment the store records that key as the owner. */
  lemma EnrolledMeansOwnedAndReadable(s: Store<K.Owners>, c: Credentials, req: EnrollRequest, now: Time,
                                      readFailure: Option<Bytes>,
                                      write: WriteOutcome, issuedAt: Time, signature: Result<Bytes>, json: Codec)
    requires Faithful(json)
    ensures var (s', claim) := EnrollClaimStep(s, c, req, now, readFailure, write);
            var r := EnrollOutcome(claim, issuedAt, signature, json);
            var a := Grant(TrimSpace(req.agentId), req.publicKey, issuedAt);
            && (r.Enrolled? <==> claim.Claimed? && signature.Ok?)
            && (r.NotSigned? <==> claim.Claimed? && signature.Err?) && (r.NotClaimed? ==> r.why == claim)
            && (r.NotSigned? ==> r.text == signature.text)
            && (r.Enrolled? ==>
                  && c.Authorise(req) && r.expiresAt == issuedAt + 90 * 24 * 3600 * SECOND
                  && a.issuedAt == issuedAt && a.expiresAt == Some(r.expiresAt)
                  && Parse(r.assertion, json) == Parsed(SignedAssertion(json.marshal(a), signature.value), a)
                  && K.OwnerOf(s', a.agentId) == Some(a.publicKey))
  {
    var (s', claim) := EnrollClaimStep(s, c, req, now, readFailure, write);
    if claim.Claimed? && signature.Ok? {
      assert Decode([], Std) == Some([]);
      ParsePrinted(SignedAssertion(json.marshal(Grant(claim.id, claim.key, issuedAt)), signature.value), json);
    }
  }

  /** Any two well-formed announcements in front of one proof leave the same challenges and get the same answer:
      refusal for the same reason, or service under the same id. */
  lemma HelloHasNoInfluenceOnIdentity(pool: C.Pool, keys: Keys, made: Made, json: Codec, h1: Hello, h2: Hello,
                                      upgrade: bool,
                                      p: Proof, now: Time, redeemAt: Time)
    requires HelloFromHeaders(h1).Some? && HelloFromHeaders(h2).Some?
    ensures var (pool1, r1) := ConnectStep(pool, keys, made, json, h1, upgrade, p, now, redeemAt);
            var (pool2, r2) := ConnectStep(pool, keys, made, json, h2, upgrade, p, now, redeemAt);
            && pool1 == pool2
            && (if r1.Serving? then r2.Serving? && r1.hello.agentId == r2.hello.agentId else r1 == r2)
  {}

  /** Announcing another agent's id takes nothing over: the registry changes at most the record of the id in
      the assertion, and that assertion is a genuine one. */
  lemma AnnouncedIdTakesOverNobody(pool: C.Pool, keys: Keys, made: Made, json: Codec, headers: Hello, p: Proof,
                                   now: Time,
                                   redeemAt: Time, recs: R.Records, arrival: R.Arrival, sess: R.Sess, at: Time,
                                   other: Bytes)
    requires ConnectStep(pool, keys, made, json, headers, true, p, now, redeemAt).1.Serving?
    requires Parse(p.assertion, json).Parsed? ==> other != Parse(p.assertion, json).assertion.agentId
    ensures var hello := ConnectStep(pool, keys, made, json, headers, true, p, now, redeemAt).1.hello;
            var recs' := R.ConnectStep(recs, hello, arrival, sess, at).0;
            && (other in recs' <==> other in recs) && (other in recs ==> recs'[other] == recs[other])
            && R.SessionOf(recs', Parse(p.assertion, json).assertion.agentId) == Some(sess)
            && var signed := Parse(p.assertion, json).signed;
               VerifyWith(keys, made, signed.document, signed.signature)
  {}

  /** The full condition of acceptance, for a proof in the form an agent sends it. */
  lemma AcceptedExactlyWhenProven(pool: C.Pool, keys: Keys, made: Made, json: Codec, document: Bytes, version: int,
                                  raw: Bytes,
                                  nonce: Bytes, sig: Bytes, now: Time, redeemAt: Time)
    requires json.unmarshal(document).Some? && 1 <= version <= MAX_INT64 && |raw| == |sig| == SIGNATURE_SIZE
    requires var a := json.unmarshal(document).value; a.agentId != [] && a.publicKey != [] && a.PublicKeyBytes().Some?
    ensures var a := json.unmarshal(document).value;
            var p := Proof(Print(SignedAssertion(document, PrintSignature(version, raw))), nonce, Encode(sig, Std));
            VerifyAgentStep(pool, keys, made, json, p, now, redeemAt).1 == Accepted(a.agentId)
            <==>
            && version in keys && (keys[version], document, raw) in made
            && (a.expiresAt.Some? ==> now <= a.expiresAt.value)
            && nonce in C.Live(pool, redeemAt)
            && (a.PublicKeyBytes().value, nonce, sig) in made
  {
    var signed := SignedAssertion(document, PrintSignature(version, raw));
    ParsePrinted(signed, json);
    ParsePrintedSignature(version, raw);
    RoundTrip(sig, Std);
  }

  lemma RedeemingOnlySpends(pool: C.Pool, made: Made, a: Assertion, p: Proof, redeemAt: Time)
    ensures var (pool', v) := ChallengeStep(pool, made, a, p, redeemAt);
            && (forall n :: n in pool' ==> n in pool && pool'[n] == pool[n])
            && (v.Accepted? ==> p.challenge in pool && p.challenge !in pool')
  {}

  /** A connection attempt never adds a nonce, and one that succeeds has used its own up. */
  lemma VerifyingOnlySpends(pool: C.Pool, keys: Keys, made: Made, json: Codec, p: Proof, now: Time, redeemAt: Time)
    ensures var (pool', v) := VerifyAgentStep(pool, keys, made, json, p, now, redeemAt);
            && (forall n :: n in pool' ==> n in pool && pool'[n] == pool[n])
            && (v.Accepted? ==> p.challenge in pool && p.challenge !in pool')
  {}

  /** Only a genuine, unexpired assertion can touch the challenge pool. */
  lemma NonceIsSpentOnlyByAGenuineAssertion(pool: C.Pool, keys: Keys, made: Made, json: Codec, p: Proof, now: Time,
                                            redeemAt: Time)
    ensures var (pool', v) := VerifyAgentStep(pool, keys, made, json, p, now, redeemAt);
            var parsed := Parse(p.assertion, json);
            pool' == if p.assertion != [] && parsed.Parsed?
                        && VerifyWith(keys, made, parsed.signed.document, parsed.signed.signature)
                        && !parsed.assertion.Expired(now)
                     then C.Live(pool, redeemAt) - {p.challenge} else pool
  {
    assert C.Live(pool, redeemAt) - {p.challenge} == C.RedeemStep(pool, p.challenge, redeemAt).0;
  }

  /** What the relay answers to a claim, over a store it can read: each refusal has its own condition, and the
      conflict names when the id was bound. */
  lemma ClaimRepliesExactly(s: Store<K.Owners>, c: Credentials, req: EnrollRequest, now: Time, write: WriteOutcome)
    ensures var (s', r) := EnrollClaimStep(s, c, req, now, None, write);
            var id := TrimSpace(req.agentId);
            var fit := 0 < |id| <= 128;
            var usable := Decode(req.publicKey, Std).Some? && |Decode(req.publicKey, Std).value| == 32;
            var owner := K.OwnerOf(s, id);
            var entitled := owner.None? || req.rebind;
            && (r.Unauthorised? <==> !c.Authorise(req))
            && (r.UnusableId? <==> c.Authorise(req) && !fit)
            && (r.UnusableKey? <==> c.Authorise(req) && fit && !usable)
            && (r.Conflict? <==> c.Authorise(req) && fit && usable && owner != Some(req.publicKey) && !entitled)
            && (r.Conflict? ==> r.boundAt == K.Lookup(s, id).value.boundAt)
            && (r.Claimed? <==> c.Authorise(req) && fit && usable
                                && (owner == Some(req.publicKey) || (entitled && write.Acknowledged?)))
            && (r.Claimed? ==> r.id == id && r.key == req.publicKey)
            && (r.StoreUnavailable? ==> !write.Acknowledged? && r.text == write.text)
            && (!r.Claimed? && !r.StoreUnavailable? ==> s' == s)
  {
    var claim := K.Claim(TrimSpace(req.agentId), req.publicKey, req.username, req.rebind, now, None, write);
    K.GrantedExactlyWhenEntitled(s, claim);
    K.ChangeIsRecorded(s, claim);
  }

  /** Which refusal a proof meets: the first of the checks that fails, in this order. */
  lemma VerdictsExactly(pool: C.Pool, keys: Keys, made: Made, json: Codec, p: Proof, now: Time, redeemAt: Time)
    ensures var v, parsed := VerifyAgentStep(pool, keys, made, json, p, now, redeemAt).1, Parse(p.assertion, json);
            var readable := p.assertion != [] && parsed.Parsed?;
            var genuine := readable && VerifyWith(keys, made, parsed.signed.document, parsed.signed.signature);
            var current := genuine && !parsed.assertion.Expired(now);
            var unspent := current && p.challenge in pool && redeemAt <= pool[p.challenge] + 2 * 60 * SECOND;
            var wellFormed := unspent && Decode(p.signature, Std).Some? && |Decode(p.signature, Std).value| == 64;
            var usable := wellFormed && parsed.assertion.PublicKeyBytes().Some?;
            && (v.NotEnrolled? <==> p.assertion == [])
            && (v.UnreadableAssertion? <==> p.assertion != [] && !readable)
            && (v.NotSignedByVault? <==> readable && !genuine)
            && (v.AssertionExpired? <==> genuine && !current)
            && (v.UnknownChallenge? <==> current && !unspent)
            && (v.MalformedSignature? <==> unspent && !wellFormed)
            && (v.UnusableAgentKey? <==> wellFormed && !usable)
            && (v.Accepted? ==> usable && v.id == parsed.assertion.agentId)
            && (v.WrongKey? || v.Accepted? <==> usable)
  {}

  /** Who is served, and as whom: a usable announcement before an accepted proof and an upgrade; the announcement
      stands, trimmed, but for the id. */
  lemma ServedExactly(pool: C.Pool, keys: Keys, made: Made, json: Codec, headers: Hello, upgrade: bool, p: Proof,
                      now: Time, redeemAt: Time)
    ensures var (pool', r) := ConnectStep(pool, keys, made, json, headers, upgrade, p, now, redeemAt);
            var (checked, v) := VerifyAgentStep(pool, keys, made, json, p, now, redeemAt);
            var fit := 0 < |TrimSpace(headers.agentId)| <= 128;
            && (r.BadHello? <==> !fit) && pool' == (if fit then checked else pool)
            && (r.Rejected? <==> fit && !v.Accepted?) && (r.Rejected? ==> r.verdict == v)
            && (r.UpgradeRequired? <==> fit && v.Accepted? && !upgrade)
            && (r.Serving? <==> fit && v.Accepted? && upgrade)
            && (r.Serving? ==> r.hello == Hello(v.id, TrimSpace(headers.hostname), TrimSpace(headers.os),
                                                TrimSpace(headers.arch), TrimSpace(headers.version)))
  {
    HelloArrivesExactlyWhenFit(headers);
  }
}
