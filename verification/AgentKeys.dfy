/** Which public key owns which agent id (server/agentkeys.go). */
module AgentKeys {
  import opened Basics
  import opened VaultKv

  type AgentId = Bytes
  type KeyText = Bytes

  datatype KeyRecord = KeyRecord(publicKey: KeyText, boundAt: Time, boundBy: Bytes, rebinds: nat)

  type Owners = map<AgentId, KeyRecord>

  datatype ClaimResult = Granted | RebindRequired(id: AgentId, boundAt: Time) | StoreFailed(text: Bytes)

  /** One claim together with the instant and the store faults it meets. */
  datatype Claim = Claim(id: AgentId, key: KeyText, who: Bytes, rebind: bool, now: Time,
                         readFailure: Option<Bytes>, write: WriteOutcome)
  {
    function Fresh(): KeyRecord {
      KeyRecord(key, now, who, 0)
    }
  }

  function Load(s: Store<Owners>, failure: Option<Bytes>): Result<Owners> {
    match KvGet(s, failure)
    case Err(text) => Err(text)
    case Ok(None) => Ok(map[])
    case Ok(Some(all)) => Ok(all)
  }

  function Write(s: Store<Owners>, all: Owners, w: WriteOutcome): (Store<Owners>, ClaimResult) {
    (KvPut(s, all, w), if w.Acknowledged? then Granted else StoreFailed(w.text))
  }

  function ClaimStep(s: Store<Owners>, c: Claim): (Store<Owners>, ClaimResult) {
    match Load(s, c.readFailure)
    case Err(text) => (s, StoreFailed(text))
    case Ok(all) =>
      if c.id !in all then Write(s, all[c.id := c.Fresh()], c.write)
      else if all[c.id].publicKey == c.key then (s, Granted)
      else if !c.rebind then (s, RebindRequired(c.id, all[c.id].boundAt))
      else Write(s, all[c.id := c.Fresh().(rebinds := all[c.id].rebinds + 1)], c.write)
  }

  class AgentKeys {
    const store: KvStore<Owners>

    constructor (store: KvStore<Owners>)
      ensures this.store == store
    {
      this.store := store;
    }

    method LoadLocked(failure: Option<Bytes>) returns (r: Result<Owners>)
      ensures r == Load(store.state, failure)
    {
      var got := store.Get(failure);
      match got
      case Err(text) => r := Err(text);
      case Ok(doc) => r := Ok(if doc.Some? then doc.value else map[]);
    }

    method Claim(c: Claim) returns (r: ClaimResult)
      modifies store
      ensures (store.state, r) == ClaimStep(old(store.state), c)
    {
      var loaded := LoadLocked(c.readFailure);
      if loaded.Err? {
        return StoreFailed(loaded.text);
      }
      var all := loaded.value;
      if c.id !in all {
        all := all[c.id := KeyRecord(c.key, c.now, c.who, 0)];
      } else {
        var rec := all[c.id];
        if rec.publicKey == c.key {
          return Granted;
        }
        if !c.rebind {
          return RebindRequired(c.id, rec.boundAt);
        }
        all := all[c.id := KeyRecord(c.key, c.now, c.who, rec.rebinds + 1)];
      }
      var err := store.Put(all, c.write);
      r := if err.None? then Granted else StoreFailed(err.value);
    }
  }

  // ---- Ownership ------------------------------------------------------------

  function Lookup(s: Store<Owners>, id: AgentId): Option<KeyRecord> {
    if s.doc.Some? && id in s.doc.value then Some(s.doc.value[id]) else None
  }

  function OwnerOf(s: Store<Owners>, id: AgentId): Option<KeyText> {
    var rec := Lookup(s, id);
    if rec.Some? then Some(rec.value.publicKey) else None
  }

  /** Exactly when a claim over a readable store is granted, and what a refusal says. */
  lemma GrantedExactlyWhenEntitled(s: Store<Owners>, c: Claim)
    requires c.readFailure.None?
    ensures var (s', r) := ClaimStep(s, c);
            var owner := OwnerOf(s, c.id);
            && (r.Granted? <==> owner == Some(c.key) || ((owner.None? || c.rebind) && c.write.Acknowledged?))
            && (r.RebindRequired? <==> owner.Some? && owner.value != c.key && !c.rebind)
            && (r.RebindRequired? ==> r == RebindRequired(c.id, Lookup(s, c.id).value.boundAt) && s' == s)
            && (r.Granted? ==> OwnerOf(s', c.id) == Some(c.key))
  {}

  /** A renewal writes nothing; nor does a refusal or a failed read. */
  lemma OnlyChangesAreWritten(s: Store<Owners>, c: Claim)
    requires !Misread(c.readFailure)
    ensures var changes := OwnerOf(s, c.id) != Some(c.key) && (OwnerOf(s, c.id).None? || c.rebind);
            ClaimStep(s, c).0.puts == s.puts + if c.readFailure.None? && changes then 1 else 0
    ensures ClaimStep(s, c).0.puts == s.puts ==> ClaimStep(s, c).0 == s
  {}

  /** A step is lawful when it changes no record but the claimed one, and that one only on a first claim or a rebind. */
  ghost predicate Lawful(s: Store<Owners>, s': Store<Owners>, c: Claim) {
    forall id :: Lookup(s', id) != Lookup(s, id) ==>
      && id == c.id
      && (Lookup(s, id).None? || c.rebind)
      && OwnerOf(s', id) == Some(c.key)
  }

  /** The records an applied write overwrites unasked when the read before it was mistaken for "not found". */
  predicate Endangers(s: Store<Owners>, c: Claim) {
    && s.doc.Some?
    && exists id :: id in s.doc.value && (id != c.id || (!c.rebind && s.doc.value[id] != c.Fresh()))
  }

  /** Every claim is lawful except one whose failed read was taken for an empty store and whose write then landed. */
  lemma ClaimIsLawfulExactlyUnlessMisread(s: Store<Owners>, c: Claim)
    ensures Lawful(s, ClaimStep(s, c).0, c) <==> !(Misread(c.readFailure) && c.write.Applied() && Endangers(s, c))
  {
    var s' := ClaimStep(s, c).0;
    if Misread(c.readFailure) {
      assert Load(s, c.readFailure) == Ok(map[]);
      if c.write.Applied() {
        assert s'.doc == Some(map[c.id := c.Fresh()]);
        if Endangers(s, c) {
          var id :| id in s.doc.value && (id != c.id || (!c.rebind && s.doc.value[id] != c.Fresh()));
          assert Lookup(s', id) != Lookup(s, id);
        } else {
          forall id | Lookup(s', id) != Lookup(s, id)
            ensures id == c.id && (Lookup(s, id).None? || c.rebind) && OwnerOf(s', id) == Some(c.key)
          {}
        }
      }
    }
  }

  /** "dial tcp 127.0.0.1:8404", the beginning of such an error. */
  const REFUSED: Bytes :=
    [100, 105, 97, 108, 32, 116, 99, 112, 32, 49, 50, 55, 46, 48, 46, 48, 46, 49, 58, 56, 52, 48, 52]

  /** With a read refused like that, a claim for b erases the record of a. */
  lemma AMisreadErasesAnotherOwner()
    ensures var a: AgentId, b: AgentId := [97], [98];
            var s := Store(Some(map[a := KeyRecord([1], 0, [], 0)]), 1);
            var c := Claim(b, [2], [], false, 1, Some(REFUSED), Acknowledged);
            ClaimStep(s, c).1 == Granted && OwnerOf(s, a) == Some([1]) && OwnerOf(ClaimStep(s, c).0, a) == None
  {
    assert OccursAt(REFUSED, NOT_FOUND, 20);
  }

  // ---- Runs -----------------------------------------------------------------

  function After(run: seq<Claim>): Store<Owners> {
    if run == [] then Store(None, 0) else ClaimStep(After(DropLast(run)), Last(run)).0
  }

  /** The successive owners of `id`, as an observer of the store sees them. */
  function OwnerHistory(run: seq<Claim>, id: AgentId): seq<KeyText> {
    if run == [] then []
    else
      var before := OwnerHistory(DropLast(run), id);
      var owner := OwnerOf(After(run), id);
      if owner.Some? && (before == [] || Last(before) != owner.value) then before + [owner.value] else before
  }

  ghost predicate NoMisreads(run: seq<Claim>) {
    forall i :: 0 <= i < |run| ==> !Misread(run[i].readFailure)
  }

  /** `rebinds` counts exactly the owner changes after the first, through every store fault but a misread. */
  lemma {:induction false} RebindsCountOwnerChanges(run: seq<Claim>, id: AgentId)
    requires NoMisreads(run)
    ensures var history, rec := OwnerHistory(run, id), Lookup(After(run), id);
            && (rec.None? <==> history == [])
            && (rec.Some? ==> rec.value.publicKey == Last(history) && rec.value.rebinds == |history| - 1)
    ensures forall i :: 0 < i < |OwnerHistory(run, id)| ==> OwnerHistory(run, id)[i] != OwnerHistory(run, id)[i - 1]
  {
    if run == [] {
    } else {
      RebindsCountOwnerChanges(DropLast(run), id);
      ClaimIsLawfulExactlyUnlessMisread(After(DropLast(run)), Last(run));
    }
  }

  /** An owner once recorded is displaced only by a claim that asked for the rebind. */
  lemma {:induction false} OwnerIsDisplacedOnlyByRebind(run: seq<Claim>, k: nat, id: AgentId)
    requires NoMisreads(run) && k <= |run| && OwnerOf(After(run[..k]), id).Some?
    requires forall i :: k <= i < |run| && run[i].id == id ==> !run[i].rebind
    ensures Lookup(After(run), id) == Lookup(After(run[..k]), id)
    decreases |run| - k
  {
    if k == |run| {
      assert run[..k] == run;
    } else {
      assert DropLast(run[..k + 1]) == run[..k] && Last(run[..k + 1]) == run[k];
      ClaimIsLawfulExactlyUnlessMisread(After(run[..k]), run[k]);
      OwnerIsDisplacedOnlyByRebind(run, k + 1, id);
    }
  }

  // ---- What the record of an owner says -------------------------------------------------------

  /** A claim over a readable store that changes the owner records the key, the moment and the operator; every
      failure keeps its text. */
  lemma ChangeIsRecorded(s: Store<Owners>, c: Claim)
    requires c.readFailure.None?
    ensures var (s', r) := ClaimStep(s, c);
            var before, after := Lookup(s, c.id), Lookup(s', c.id);
            var bound := KeyRecord(c.key, c.now, c.who, if before.None? then 0 else before.value.rebinds + 1);
            && (after == before || after == Some(bound))
            && (r.Granted? && OwnerOf(s, c.id) != Some(c.key) ==> after == Some(bound))
            && (OwnerOf(s, c.id) == Some(c.key) ==> s' == s && r.Granted?)
            && (r.StoreFailed? ==> !c.write.Acknowledged? && r.text == c.write.text)
  {}

  /** A read that fails, but for a misread, fails the claim with its own text and changes nothing. */
  lemma FailedReadFailsTheClaim(s: Store<Owners>, c: Claim)
    requires c.readFailure.Some? && !Misread(c.readFailure)
    ensures ClaimStep(s, c) == (s, StoreFailed(c.readFailure.value))
  {}

  /** The claim at k is the one behind the record. */
  ghost predicate IsOf(rec: KeyRecord, run: seq<Claim>, k: nat, id: AgentId) {
    && k < |run| && run[k].id == id
    && rec.publicKey == run[k].key && rec.boundAt == run[k].now && rec.boundBy == run[k].who
  }

  /** Over every run without a misread, each record names a claim that was made for its id, its moment and its
      operator, and the id has had that owner, by that very record, ever since. */
  lemma {:induction false} RecordNamesItsClaim(run: seq<Claim>, id: AgentId) returns (k: nat)
    requires NoMisreads(run) && Lookup(After(run), id).Some?
    ensures IsOf(Lookup(After(run), id).value, run, k, id)
    ensures forall j :: k < j <= |run| ==> Lookup(After(run[..j]), id) == Lookup(After(run), id)
  {
    var front, c := DropLast(run), Last(run);
    assert run == front + [c] && run[..|run|] == run && run[..|front|] == front;
    if c.readFailure.Some? {
      FailedReadFailsTheClaim(After(front), c);
    } else {
      ChangeIsRecorded(After(front), c);
      ClaimIsLawfulExactlyUnlessMisread(After(front), c);
    }
    if Lookup(After(run), id) == Lookup(After(front), id) {
      k := RecordNamesItsClaim(front, id);
      forall j | k < j <= |run|
        ensures Lookup(After(run[..j]), id) == Lookup(After(run), id)
      {
        if j < |run| {
          assert run[..j] == front[..j];
        }
      }
    } else {
      k := |front|;
    }
  }
}
