/** The assertion an agent presents, as text and as a record (internal/protocol/identity.go). */
module Identity {
  import opened Basics
  import opened Base64
  import opened Text

  /** `expiresAt` is None for Go's zero time, which never expires. */
  datatype Assertion = Assertion(agentId: Bytes, publicKey: Bytes, issuedAt: Time, expiresAt: Option<Time>) {
    predicate Expired(now: Time) {
      expiresAt.Some? && expiresAt.value < now
    }

    function PublicKeyBytes(): Option<Bytes> {
      KeyBytes(publicKey)
    }
  }

  datatype SignedAssertion = SignedAssertion(document: Bytes, signature: Bytes)

  const PUBLIC_KEY_SIZE: nat := 32

  function KeyBytes(text: Bytes): Option<Bytes> {
    match Decode(text, Std)
    case None => None
    case Some(raw) => if |raw| == PUBLIC_KEY_SIZE then Some(raw) else None
  }

  /** The JSON codec of assertions: any pair of functions of which the second undoes the first. */
  datatype Codec = Codec(marshal: Assertion -> Bytes, unmarshal: Bytes -> Option<Assertion>)

  ghost predicate Faithful(json: Codec) {
    forall a :: json.unmarshal(json.marshal(a)) == Some(a)
  }

  function Print(s: SignedAssertion): Bytes {
    Encode(s.document, RawUrl) + [DOT] + s.signature
  }

  datatype Parsed =
    | Parsed(signed: SignedAssertion, assertion: Assertion)
    | Malformed
    | MalformedBody
    | MissingIdOrKey

  function Parse(text: Bytes, json: Codec): Parsed {
    match Cut(text, DOT)
    case None => Malformed
    case Some((body, signature)) =>
      match Decode(body, RawUrl)
      case None => MalformedBody
      case Some(document) =>
        match json.unmarshal(document)
        case None => MalformedBody
        case Some(a) =>
          if a.agentId == [] || a.publicKey == [] then MissingIdOrKey
          else Parsed(SignedAssertion(document, signature), a)
  }

  /** Parsing printed text gives back the very bytes that were signed, whatever the signature text holds. */
  lemma ParsePrinted(s: SignedAssertion, json: Codec)
    ensures var a := json.unmarshal(s.document);
            Parse(Print(s), json) ==
            if a.None? then MalformedBody
            else if a.value.agentId == [] || a.value.publicKey == [] then MissingIdOrKey
            else Parsed(s, a.value)
  {
    RoundTrip(s.document, RawUrl);
    CutAtFirst(Encode(s.document, RawUrl), DOT, s.signature);
  }

  /** Two different signed assertions never share a text. */
  lemma PrintIsInjective(s: SignedAssertion, t: SignedAssertion)
    requires Print(s) == Print(t)
    ensures s == t
  {
    RoundTrip(s.document, RawUrl);
    RoundTrip(t.document, RawUrl);
    CutAtFirst(Encode(s.document, RawUrl), DOT, s.signature);
    CutAtFirst(Encode(t.document, RawUrl), DOT, t.signature);
  }

  /** What parses: exactly the base64url of a document, a dot, and any signature, where the document decodes with an
      id and a key. */
  lemma ParsesExactly(text: Bytes, json: Codec, signed: SignedAssertion, a: Assertion)
    ensures Parse(text, json) == Parsed(signed, a)
            <==> && a.agentId != [] && a.publicKey != [] && json.unmarshal(signed.document) == Some(a)
                 && exists body :: DOT !in body && Decode(body, RawUrl) == Some(signed.document)
                                   && text == body + [DOT] + signed.signature
  {
    if body :| DOT !in body && Decode(body, RawUrl) == Some(signed.document)
               && text == body + [DOT] + signed.signature {
      CutAtFirst(body, DOT, signed.signature);
    }
    if Parse(text, json).Parsed? {
      CutIsStable(text, DOT, []);
    }
  }

  /** A key text is usable exactly when it is the base64 of 32 bytes. */
  lemma KeyRoundTrip(raw: Bytes)
    ensures KeyBytes(Encode(raw, Std)) == if |raw| == 32 then Some(raw) else None
  {
    RoundTrip(raw, Std);
  }

  /** An assertion expires right after its last instant, and one without an expiry never. */
  lemma ExpiresExactly(a: Assertion, now: Time)
    ensures a.Expired(now) <==> exists last: Time :: a.expiresAt == Some(last) && last < now
  {}
}
