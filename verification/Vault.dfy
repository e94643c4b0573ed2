/** Local verification of Vault signatures and the cache of transit public keys (server/vault.go). */
module Vault {
  import opened Basics
  import opened Base64
  import opened Identity
  import opened StateFile
  import opened Strconv
  import opened Text

  const SIGNATURE_SIZE: nat := 64

  const VAULT: Bytes := [118, 97, 117, 108, 116] // "vault"
  const V: byte := 118

  type Key = Bytes

  /** ed25519 taken symbolically: a signature is valid when it has been made with the matching private key. */
  type Made = set<(Key, Bytes, Bytes)>

  // ---- Signature text --------------------------------------------------------

  function PrintSignature(version: int, raw: Bytes): Bytes {
    VAULT + [COLON] + ([V] + FormatInt(version)) + [COLON] + Encode(raw, Std)
  }

  function ParseSignature(text: Bytes): Option<(int, Bytes)> {
    match Cut(text, COLON)
    case None => None
    case Some((scheme, rest)) =>
      match Cut(rest, COLON)
      case None => None
      case Some((version, b64)) =>
        if scheme != VAULT || version == [] || version[0] != V then None
        else
          match (ParseInt(version[1..]), Decode(b64, Std))
          case (Some(n), Some(raw)) => if n < 1 || |raw| != SIGNATURE_SIZE then None else Some((n, raw))
          case _ => None
  }

  lemma PrintedSignatureCuts(v: Bytes, b64: Bytes)
    requires COLON !in v
    ensures Cut(VAULT + [COLON] + v + [COLON] + b64, COLON) == Some((VAULT, v + [COLON] + b64))
    ensures Cut(v + [COLON] + b64, COLON) == Some((v, b64))
  {
    CutAtFirst(VAULT, COLON, v + [COLON] + b64);
    assert VAULT + [COLON] + (v + [COLON] + b64) == VAULT + [COLON] + v + [COLON] + b64;
    CutAtFirst(v, COLON, b64);
  }

  /** Parsing inverts printing for every version from 1 and every 64-byte signature, and for nothing else. */
  lemma ParsePrintedSignature(version: int, raw: Bytes)
    ensures ParseSignature(PrintSignature(version, raw)) ==
            if 1 <= version <= MAX_INT64 && |raw| == SIGNATURE_SIZE then Some((version, raw)) else None
  {
    var v := [V] + FormatInt(version);
    FormatIntHasNoSeparator(version);
    ParseFormatInt(version);
    RoundTrip(raw, Std);
    PrintedSignatureCuts(v, Encode(raw, Std));
    assert v[1..] == FormatInt(version);
  }

  /** What parses: exactly `vault:v`, a number from 1 as Atoi reads it, a colon and the base64 of 64 bytes. */
  lemma ParsesSignatureExactly(text: Bytes, version: int, raw: Bytes)
    ensures ParseSignature(text) == Some((version, raw))
            <==> && version >= 1 && |raw| == 64
                 && exists digits, b64 :: COLON !in digits && ParseInt(digits) == Some(version)
                                          && Decode(b64, Std) == Some(raw)
                                          && text == VAULT + [COLON] + ([V] + digits) + [COLON] + b64
  {
    if digits, b64 :| COLON !in digits && ParseInt(digits) == Some(version) && Decode(b64, Std) == Some(raw)
                      && text == VAULT + [COLON] + ([V] + digits) + [COLON] + b64 {
      PrintedSignatureCuts([V] + digits, b64);
      assert ([V] + digits)[1..] == digits;
    }
    if ParseSignature(text) == Some((version, raw)) {
      CutIsStable(text, COLON, []);
      var rest := Cut(text, COLON).value.1;
      CutIsStable(rest, COLON, []);
      var (v, b64) := Cut(rest, COLON).value;
      assert v == [V] + v[1..];
      assert text == VAULT + [COLON] + v + [COLON] + b64;
    }
  }

  // ---- Key versions ----------------------------------------------------------

  /** What transit exports: version text to base64 key. */
  type Export = map<Bytes, Bytes>

  type Keys = map<int, Key>

  function Usable(version: Bytes, b64: Bytes): Option<(int, Key)> {
    match (ParseInt(version), KeyBytes(b64))
    case (Some(n), Some(key)) => Some((n, key))
    case _ => None
  }

  /** A key map some iteration order over the export can produce. */
  ghost predicate Selection(entries: Export, keys: Keys) {
    && (forall n :: n in keys ==> exists v :: v in entries && Usable(v, entries[v]) == Some((n, keys[n])))
    && (forall v :: v in entries && Usable(v, entries[v]).Some? ==> Usable(v, entries[v]).value.0 in keys)
  }

  /** No two usable entries give one version number different keys. */
  ghost predicate Unambiguous(entries: Export) {
    forall v, w :: v in entries && w in entries && Usable(v, entries[v]).Some? && Usable(w, entries[w]).Some?
                   && Usable(v, entries[v]).value.0 == Usable(w, entries[w]).value.0
      ==> Usable(v, entries[v]) == Usable(w, entries[w])
  }

  method CollectKeys(entries: Export) returns (keys: Keys)
    ensures Selection(entries, keys)
    ensures keys != map[] <==> HasUsable(entries)
  {
    keys := map[];
    var unread := entries.Keys;
    while unread != {}
      invariant unread <= entries.Keys
      invariant keys != map[] ==> HasUsable(entries)
      invariant forall n :: n in keys ==> exists v :: v in entries && Usable(v, entries[v]) == Some((n, keys[n]))
      invariant forall v :: v in entries && v !in unread && Usable(v, entries[v]).Some? ==>
                              Usable(v, entries[v]).value.0 in keys
      decreases |unread|
    {
      var v :| v in unread;
      var u := Usable(v, entries[v]);
      if u.Some? {
        keys := keys[u.value.0 := u.value.1];
      }
      unread := unread - {v};
    }
  }

  // ---- The client's state ----------------------------------------------------

  ghost predicate HasUsable(entries: Export) {
    exists v :: v in entries && Usable(v, entries[v]).Some?
  }

  predicate VerifyWith(keys: Keys, made: Made, msg: Bytes, signature: Bytes) {
    match ParseSignature(signature)
    case None => false
    case Some((version, raw)) => version in keys && (keys[version], msg, raw) in made
  }

  class Vault {
    const hasStateDir: bool
    var pubKeys: Keys
    var cache: StateFile<Export>

    constructor (hasStateDir: bool, cache: StateFile<Export>)
      ensures this.hasStateDir == hasStateDir && this.cache == cache && pubKeys == map[]
    {
      this.hasStateDir, this.cache, pubKeys := hasStateDir, cache, map[];
    }

    method Verify(made: Made, msg: Bytes, signature: Bytes) returns (ok: bool)
      ensures ok == VerifyWith(pubKeys, made, msg, signature)
    {
      var parsed := ParseSignature(signature);
      if parsed.None? || parsed.value.0 !in pubKeys {
        return false;
      }
      ok := (pubKeys[parsed.value.0], msg, parsed.value.1) in made;
    }

    /** `answer` is what the export call yields, None when the call fails. */
    method RefreshKeys(answer: Option<Export>, mkdirOk: bool, write: FileWrite) returns (ok: bool)
      modifies this
      ensures answer.None? || !HasUsable(answer.value) ==> !ok && pubKeys == old(pubKeys) && cache == old(cache)
      ensures answer.Some? && HasUsable(answer.value) ==>
                && Selection(answer.value, pubKeys)
                && ok == SaveWorks(hasStateDir, mkdirOk, write)
                && cache == Saved(hasStateDir, old(cache), answer.value, mkdirOk, write)
    {
      if answer.None? {
        return false;
      }
      var keys := CollectKeys(answer.value);
      if keys == map[] {
        return false;
      }
      pubKeys := keys;
      ok := SaveCachedKeys(answer.value, mkdirOk, write);
    }

    method SaveCachedKeys(entries: Export, mkdirOk: bool, write: FileWrite) returns (ok: bool)
      modifies this`cache
      ensures ok == SaveWorks(hasStateDir, mkdirOk, write)
      ensures cache == Saved(hasStateDir, old(cache), entries, mkdirOk, write)
    {
      if !hasStateDir {
        return true;
      }
      if !mkdirOk {
        return false;
      }
      if write.Written? {
        cache := Holds(entries);
      } else if write.TornWrite? {
        cache := Garbled;
      }
      ok := write.Written?;
    }

    method LoadCachedKeys() returns (ok: bool)
      modifies this`pubKeys
      ensures ok <==> hasStateDir && cache.Holds? && HasUsable(cache.value)
      ensures if ok then Selection(cache.value, pubKeys) else pubKeys == old(pubKeys)
    {
      if !hasStateDir || !cache.Holds? {
        return false;
      }
      var loaded := CollectKeys(cache.value);
      if loaded == map[] {
        return false;
      }
      pubKeys := loaded;
      ok := true;
    }
  }

  // ---- Agreement of cache and live keys ---------------------------------------

  /** The iteration order cannot matter exactly when the export is unambiguous. */
  lemma SelectionIsUniqueExactlyWhenUnambiguous(entries: Export)
    ensures Unambiguous(entries) <==>
            (forall k, l :: Selection(entries, k) && Selection(entries, l) ==> k == l)
  {
    if Unambiguous(entries) {
      forall k, l | Selection(entries, k) && Selection(entries, l)
        ensures k == l
      {
        SelectionIsIncluded(entries, k, l);
        SelectionIsIncluded(entries, l, k);
        SameEntries(k, l);
      }
    } else {
      var v, w :| v in entries && w in entries && Usable(v, entries[v]).Some? && Usable(w, entries[w]).Some?
                  && Usable(v, entries[v]).value.0 == Usable(w, entries[w]).value.0
                  && Usable(v, entries[v]) != Usable(w, entries[w]);
      var k := SomeSelection(entries, v);
      var l := SomeSelection(entries, w);
      assert k != l;
    }
  }

  lemma SameEntries(k: Keys, l: Keys)
    requires forall n :: n in k ==> n in l && l[n] == k[n]
    requires forall n :: n in l ==> n in k
    ensures k == l
  {
    forall n | n in k.Keys
      ensures n in l.Keys
    {}
    forall n | n in l.Keys
      ensures n in k.Keys
    {}
    assert k.Keys == l.Keys;
    assert forall n :: n in k.Keys ==> k[n] == l[n];
  }

  lemma SelectionIsIncluded(entries: Export, k: Keys, l: Keys)
    requires Unambiguous(entries) && Selection(entries, k) && Selection(entries, l)
    ensures forall n :: n in k ==> n in l && l[n] == k[n]
  {
    forall n | n in k
      ensures n in l && l[n] == k[n]
    {
      var v :| v in entries && Usable(v, entries[v]) == Some((n, k[n]));
      assert n in l;
      var w :| w in entries && Usable(w, entries[w]) == Some((n, l[n]));
      assert Usable(v, entries[v]) == Usable(w, entries[w]);
    }
  }

  /** Whichever usable entry is read last decides its version number. */
  lemma SomeSelection(entries: Export, last: Bytes) returns (keys: Keys)
    requires last in entries && Usable(last, entries[last]).Some?
    ensures Selection(entries, keys)
    ensures keys[Usable(last, entries[last]).value.0] == Usable(last, entries[last]).value.1
  {
    keys := map[];
    var unread := entries.Keys;
    while unread != {}
      invariant unread <= entries.Keys
      invariant forall n :: n in keys ==> exists v :: v in entries && Usable(v, entries[v]) == Some((n, keys[n]))
      invariant forall v :: v in entries && v !in unread && Usable(v, entries[v]).Some? ==>
                              Usable(v, entries[v]).value.0 in keys
      decreases |unread|
    {
      var v :| v in unread;
      var u := Usable(v, entries[v]);
      if u.Some? {
        keys := keys[u.value.0 := u.value.1];
      }
      unread := unread - {v};
    }
    var u := Usable(last, entries[last]).value;
    keys := keys[u.0 := u.1];
  }

  /** A process that loads the cache gives every verdict the process that refreshed would give. */
  lemma CachedKeysJudgeAlike(entries: Export, live: Keys, cached: Keys, made: Made, msg: Bytes, signature: Bytes)
    requires Unambiguous(entries) && Selection(entries, live) && Selection(entries, cached)
    ensures VerifyWith(live, made, msg, signature) == VerifyWith(cached, made, msg, signature)
  {
    SelectionIsUniqueExactlyWhenUnambiguous(entries);
  }

  /** A refresh that keeps the old versions never turns an accepted signature into a rejected one. */
  lemma RotationKeepsVerdicts(before: Export, after: Export, former: Keys, latest: Keys, made: Made, msg: Bytes,
                              signature: Bytes)
    requires Unambiguous(after) && Selection(before, former) && Selection(after, latest)
    requires forall v :: v in before ==> v in after && after[v] == before[v]
    requires VerifyWith(former, made, msg, signature)
    ensures VerifyWith(latest, made, msg, signature)
  {
    var n := ParseSignature(signature).value.0;
    var v :| v in before && Usable(v, before[v]) == Some((n, former[n]));
    assert n in latest;
    var w :| w in after && Usable(w, after[w]) == Some((n, latest[n]));
    assert Usable(v, after[v]) == Usable(w, after[w]);
  }

  /** Transit numbers its versions canonically, which is enough for the export to be unambiguous. */
  lemma CanonicalVersionsAreUnambiguous(entries: Export)
    requires forall v :: v in entries ==> exists n :: v == FormatInt(n)
    ensures Unambiguous(entries)
  {
    forall v, w | v in entries && w in entries && Usable(v, entries[v]).Some? && Usable(w, entries[w]).Some?
                  && Usable(v, entries[v]).value.0 == Usable(w, entries[w]).value.0
      ensures Usable(v, entries[v]) == Usable(w, entries[w])
    {
      var i :| v == FormatInt(i);
      var j :| w == FormatInt(j);
      ParseFormatInt(i);
      ParseFormatInt(j);
    }
  }

  /** "1" and "01" are one version number: with different keys under them, two reads of one export can disagree
      on the same signature. */
  lemma TwoTextsOfOneVersionAreAmbiguous(k: Bytes, l: Bytes, msg: Bytes, raw: Bytes)
    returns (keys: Keys, others: Keys)
    requires KeyBytes(k).Some? && KeyBytes(l).Some? && KeyBytes(k) != KeyBytes(l) && |raw| == SIGNATURE_SIZE
    ensures var entries: Export := map[[49] := k, [48, 49] := l];
            && !Unambiguous(entries) && Selection(entries, keys) && Selection(entries, others)
    ensures var made := {(KeyBytes(k).value, msg, raw)};
            && VerifyWith(keys, made, msg, PrintSignature(1, raw))
            && !VerifyWith(others, made, msg, PrintSignature(1, raw))
  {
    var v: Bytes, w: Bytes := [49], [48, 49];
    var entries: Export := map[v := k, w := l];
    assert ParseDigits(v) == Some(1);
    assert DropLast(w) == [48] && ParseDigits([48]) == Some(0) && ParseDigits(w) == Some(1);
    assert Usable(v, k) == Some((1, KeyBytes(k).value)) && Usable(w, l) == Some((1, KeyBytes(l).value));
    assert v in entries && w in entries && entries[v] == k && entries[w] == l by { assert |v| != |w|; }
    keys := SomeSelection(entries, v);
    others := SomeSelection(entries, w);
    ParsePrintedSignature(1, raw);
  }
}
