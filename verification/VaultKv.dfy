/** Vault's KV engine as the relay's client sees it (server/vault.go, kvGet and kvPut): one document
    at one path, calls that may fail, and acknowledgements that may be lost. */
module VaultKv {
  import opened Basics

  /** How a write can end: the last two both reach the caller as an error. */
  datatype WriteOutcome = Acknowledged | AcknowledgementLost(text: Bytes) | Refused(text: Bytes) {
    predicate Applied() { !Refused? }
  }

  datatype Store<T> = Store(doc: Option<T>, puts: nat)

  const NOT_FOUND: Bytes := [52, 48, 52] // "404"

  /** The client recognises a missing document by this text anywhere in the error. */
  predicate MentionsNotFound(text: Bytes) {
    exists i :: 0 <= i < |text| && OccursAt(text, NOT_FOUND, i)
  }

  predicate OccursAt(text: Bytes, part: Bytes, i: nat) {
    i + |part| <= |text| && text[i..i + |part|] == part
  }

  /** A read whose call fails for another reason is still answered "not found" when its text says 404. */
  function KvGet<T>(s: Store<T>, failure: Option<Bytes>): Result<Option<T>> {
    match failure
    case None => Ok(s.doc)
    case Some(text) => if MentionsNotFound(text) then Ok(None) else Err(text)
  }

  function KvPut<T>(s: Store<T>, v: T, w: WriteOutcome): Store<T> {
    Store(if w.Applied() then Some(v) else s.doc, s.puts + 1)
  }

  predicate Misread(failure: Option<Bytes>) {
    failure.Some? && MentionsNotFound(failure.value)
  }

  class KvStore<T> {
    var state: Store<T>

    constructor (doc: Option<T>)
      ensures state == Store(doc, 0)
    {
      state := Store(doc, 0);
    }

    method Get(failure: Option<Bytes>) returns (r: Result<Option<T>>)
      ensures r == KvGet(state, failure)
    {
      if failure.None? {
        return Ok(state.doc);
      }
      if MentionsNotFound(failure.value) {
        return Ok(None);
      }
      r := Err(failure.value);
    }

    method Put(v: T, w: WriteOutcome) returns (err: Option<Bytes>)
      modifies this
      ensures state == KvPut(old(state), v, w)
      ensures err == if w.Acknowledged? then None else Some(w.text)
    {
      state := KvPut(state, v, w);
      err := if w.Acknowledged? then None else Some(w.text);
    }
  }

  // ---- What a read finds ---------------------------------------------------------------------------

  datatype Attempt<T> = Attempt(value: T, outcome: WriteOutcome)

  function AfterPuts<T>(s: Store<T>, puts: seq<Attempt<T>>): Store<T> {
    if puts == [] then s else KvPut(AfterPuts(s, DropLast(puts)), Last(puts).value, Last(puts).outcome)
  }

  /** After any run of writes a read finds the value of the last one that was not refused, whatever its caller
      was told, and what was there before when all were: an acknowledged value is lost to a later write only. */
  lemma {:induction false} ReadFindsTheLastLandedWrite<T>(s: Store<T>, puts: seq<Attempt<T>>)
    ensures var found := KvGet(AfterPuts(s, puts), None);
            || (found == KvGet(s, None) && forall i :: 0 <= i < |puts| ==> puts[i].outcome.Refused?)
            || exists i :: 0 <= i < |puts| && found == Ok(Some(puts[i].value)) && !puts[i].outcome.Refused?
                           && forall j :: i < j < |puts| ==> puts[j].outcome.Refused?
  {
    if puts == [] {
    } else if Last(puts).outcome.Refused? {
      ReadFindsTheLastLandedWrite(s, DropLast(puts));
    } else {
      assert KvGet(AfterPuts(s, puts), None) == Ok(Some(puts[|puts| - 1].value));
    }
  }

  /** Which failed reads count as "not found": exactly those whose text has 404 somewhere in it. */
  lemma FailedReadsExactly<T>(s: Store<T>, text: Bytes)
    ensures var r := KvGet(s, Some(text));
            && (r == Ok(None) <==> exists before, after :: text == before + [52, 48, 52] + after)
            && (r != Ok(None) ==> r == Err(text))
            && KvGet(s, None) == Ok(s.doc)
  {
    if MentionsNotFound(text) {
      var i :| 0 <= i < |text| && OccursAt(text, NOT_FOUND, i);
      assert text == text[..i] + NOT_FOUND + text[i + 3..];
    }
    if before, after :| text == before + [52, 48, 52] + after {
      assert text[|before|..|before| + 3] == NOT_FOUND;
      assert OccursAt(text, NOT_FOUND, |before|);
    }
  }
}
