/** Interleaved runs of serveSession (server/agent.go) against the registry: every session has its own
    thread, stale closes run asynchronously, and the network or an operator may end a session at any time. */
module Sessions {
  import opened Basics
  import opened Protocol
  import opened Registry

  /** Where a session's thread stands: before Connect, in the accept loop, about to close, about to
      call Disconnect, finished. */
  datatype Phase = Established | Serving | Ending | Closed | Gone

  datatype Thread = Thread(id: Bytes, phase: Phase)

  datatype System = System(
    recs: Records,
    threads: map<Sess, Thread>,
    open: set<Sess>,
    scheduled: set<Sess>,
    // history
    connects: seq<(Bytes, Sess)>,
    disconnects: seq<(Sess, bool)>)

  datatype Action =
    | Establish(sess: Sess, id: Bytes)
    | RunConnect(sess: Sess, h: Hello, arrival: Arrival, now: Time)
    | Die(sess: Sess)
    | Kick(id: Bytes)
    | CloseStale(sess: Sess)
    | AcceptFails(sess: Sess)
    | CloseOwn(sess: Sess)
    | RunDisconnect(sess: Sess, now: Time)

  predicate InPhase(s: System, sess: Sess, phase: Phase) {
    sess in s.threads && s.threads[sess].phase == phase
  }

  predicate Enabled(s: System, a: Action) {
    match a
    case Establish(sess, _) => sess !in s.threads
    case RunConnect(sess, h, _, _) => InPhase(s, sess, Established) && h.agentId == s.threads[sess].id
    case CloseStale(sess) => sess in s.scheduled
    case AcceptFails(sess) => InPhase(s, sess, Serving) && sess !in s.open
    case CloseOwn(sess) => InPhase(s, sess, Ending)
    case RunDisconnect(sess, _) => InPhase(s, sess, Closed)
    case _ => true
  }

  function Move(s: System, sess: Sess, phase: Phase): map<Sess, Thread>
    requires sess in s.threads
  {
    s.threads[sess := s.threads[sess].(phase := phase)]
  }

  function Next(s: System, a: Action): System
    requires Enabled(s, a)
  {
    match a
    case Establish(sess, id) => s.(threads := s.threads[sess := Thread(id, Established)], open := s.open + {sess})
    case RunConnect(sess, h, arrival, now) =>
      var (recs, _, stale) := ConnectStep(s.recs, h, arrival, sess, now);
      s.(recs := recs, threads := Move(s, sess, Serving), connects := s.connects + [(h.agentId, sess)],
         scheduled := s.scheduled + if stale.Some? then {stale.value} else {})
    case Die(sess) => s.(open := s.open - {sess})
    case Kick(id) => s.(open := s.open - match SessionOf(s.recs, id) case Some(sess) => {sess} case None => {})
    case CloseStale(sess) => s.(open := s.open - {sess}, scheduled := s.scheduled - {sess})
    case AcceptFails(sess) => s.(threads := Move(s, sess, Ending))
    case CloseOwn(sess) => s.(threads := Move(s, sess, Closed), open := s.open - {sess})
    case RunDisconnect(sess, now) =>
      var (recs, ok) := DisconnectStep(s.recs, s.threads[sess].id, sess, now);
      s.(recs := recs, threads := Move(s, sess, Gone), disconnects := s.disconnects + [(sess, ok)])
  }

  const START: System := System(map[], map[], {}, {}, [], [])

  ghost predicate Run(s: System, actions: seq<Action>, s': System)
    decreases |actions|
  {
    if actions == [] then s' == s
    else Enabled(s, actions[0]) && Run(Next(s, actions[0]), actions[1..], s')
  }

  // ---- The simple specification: what the log of connects says --------------------------

  function Latest(connects: seq<(Bytes, Sess)>, id: Bytes): Option<Sess> {
    if connects == [] then None
    else if Last(connects).0 == id then Some(Last(connects).1)
    else Latest(DropLast(connects), id)
  }

  function Connects(connects: seq<(Bytes, Sess)>, id: Bytes): nat {
    if connects == [] then 0
    else Connects(DropLast(connects), id) + if Last(connects).0 == id then 1 else 0
  }

  function TimesGone(disconnects: seq<(Sess, bool)>, sess: Sess): nat {
    if disconnects == [] then 0
    else TimesGone(DropLast(disconnects), sess) + if Last(disconnects).0 == sess then 1 else 0
  }

  /** The session of the latest connect, until that session's own disconnect has run. */
  function SpecSession(s: System, id: Bytes): Option<Sess> {
    match Latest(s.connects, id)
    case None => None
    case Some(sess) => if TimesGone(s.disconnects, sess) == 0 then Some(sess) else None
  }

  lemma LatestAppend(connects: seq<(Bytes, Sess)>, id: Bytes, sess: Sess, other: Bytes)
    ensures Latest(connects + [(id, sess)], other) == if other == id then Some(sess) else Latest(connects, other)
    ensures Connects(connects + [(id, sess)], other) == Connects(connects, other) + if other == id then 1 else 0
  {
    assert DropLast(connects + [(id, sess)]) == connects;
  }

  lemma TimesGoneAppend(disconnects: seq<(Sess, bool)>, sess: Sess, ok: bool, other: Sess)
    ensures TimesGone(disconnects + [(sess, ok)], other)
            == TimesGone(disconnects, other) + if other == sess then 1 else 0
  {
    assert DropLast(disconnects + [(sess, ok)]) == disconnects;
  }

  // ---- The invariant -----------------------------------------------------------------------

  predicate Connected(s: System, sess: Sess) {
    sess in s.threads && s.threads[sess].phase != Established
  }

  ghost predicate RecordFollowsTheLog(s: System, id: Bytes) {
    && (id in s.recs <==> Latest(s.connects, id).Some?)
    && (id in s.recs ==>
          && s.recs[id].session == Latest(s.connects, id).value
          && s.recs[id].reconnects + 1 == Connects(s.connects, id)
          && Connected(s, s.recs[id].session)
          && s.threads[s.recs[id].session].id == id
          && (s.recs[id].online <==> s.threads[s.recs[id].session].phase != Gone))
  }

  ghost predicate RecordsFollowTheLog(s: System) {
    forall id :: RecordFollowsTheLog(s, id)
  }

  ghost predicate SupersededAreScheduled(s: System) {
    forall sess :: Connected(s, sess) && sess in s.open ==>
      sess in s.scheduled || Latest(s.connects, s.threads[sess].id) == Some(sess)
  }

  ghost predicate ConnectedAreLogged(s: System) {
    forall sess :: Connected(s, sess) ==> Latest(s.connects, s.threads[sess].id).Some?
  }

  ghost predicate EndedAreClosed(s: System) {
    forall sess :: InPhase(s, sess, Closed) || InPhase(s, sess, Gone) ==> sess !in s.open
  }

  ghost predicate GoneOnce(s: System) {
    forall sess :: TimesGone(s.disconnects, sess) == if InPhase(s, sess, Gone) then 1 else 0
  }

  ghost predicate Inv(s: System) {
    && RecordsFollowTheLog(s)
    && SupersededAreScheduled(s)
    && ConnectedAreLogged(s)
    && EndedAreClosed(s)
    && GoneOnce(s)
    && s.open <= s.threads.Keys
  }

  lemma ConnectLogs(s: System, a: Action, id: Bytes)
    requires a.RunConnect? && Enabled(s, a)
    ensures var s' := Next(s, a);
            && Latest(s'.connects, id) == (if id == a.h.agentId then Some(a.sess) else Latest(s.connects, id))
            && Connects(s'.connects, id) == Connects(s.connects, id) + if id == a.h.agentId then 1 else 0
  {
    LatestAppend(s.connects, a.h.agentId, a.sess, id);
  }

  lemma ConnectKeepsRecords(s: System, a: Action, id: Bytes)
    requires Inv(s) && a.RunConnect? && Enabled(s, a)
    ensures RecordFollowsTheLog(Next(s, a), id)
  {
    ConnectLogs(s, a, id);
    assert RecordFollowsTheLog(s, id);
    if id == a.h.agentId && id !in s.recs {
      NeverConnected(s.connects, id);
    }
  }

  lemma ConnectKeepsInv(s: System, a: Action)
    requires Inv(s) && a.RunConnect? && Enabled(s, a)
    ensures Inv(Next(s, a))
  {
    var s' := Next(s, a);
    forall id
      ensures RecordFollowsTheLog(s', id)
    {
      ConnectKeepsRecords(s, a, id);
    }
    assert RecordFollowsTheLog(s, a.h.agentId);
    forall sess | Connected(s', sess)
      ensures Latest(s'.connects, s'.threads[sess].id).Some?
      ensures sess in s'.open ==> sess in s'.scheduled || Latest(s'.connects, s'.threads[sess].id) == Some(sess)
    {
      ConnectLogs(s, a, s'.threads[sess].id);
      assert sess != a.sess ==> Connected(s, sess);
    }
  }

  lemma {:induction false} NeverConnected(connects: seq<(Bytes, Sess)>, id: Bytes)
    requires Latest(connects, id).None?
    ensures Connects(connects, id) == 0
  {
    if connects == [] {
    } else {
      NeverConnected(DropLast(connects), id);
    }
  }

  lemma DisconnectKeepsInv(s: System, a: Action)
    requires Inv(s) && a.RunDisconnect? && Enabled(s, a)
    ensures Inv(Next(s, a))
  {
    var s' := Next(s, a);
    forall id
      ensures RecordFollowsTheLog(s', id)
    {
      assert RecordFollowsTheLog(s, id);
    }
    var ok := DisconnectStep(s.recs, s.threads[a.sess].id, a.sess, a.now).1;
    forall sess
      ensures TimesGone(s'.disconnects, sess) == TimesGone(s.disconnects, sess) + if sess == a.sess then 1 else 0
    {
      TimesGoneAppend(s.disconnects, a.sess, ok, sess);
    }
  }

  lemma StepKeepsInv(s: System, a: Action)
    requires Inv(s) && Enabled(s, a)
    ensures Inv(Next(s, a))
  {
    match a
    case RunConnect(_, _, _, _) => ConnectKeepsInv(s, a);
    case RunDisconnect(_, _) => DisconnectKeepsInv(s, a);
    case _ =>
      forall id
        ensures RecordFollowsTheLog(Next(s, a), id)
      {
        assert RecordFollowsTheLog(s, id);
      }
  }

  lemma {:induction false} RunKeepsInv(s: System, actions: seq<Action>, s': System)
    requires Inv(s) && Run(s, actions, s')
    ensures Inv(s')
    decreases |actions|
  {
    if actions == [] {
    } else {
      StepKeepsInv(s, actions[0]);
      RunKeepsInv(Next(s, actions[0]), actions[1..], s');
    }
  }

  // ---- Main results --------------------------------------------------------------------------

  /** In every interleaving the registry answers as the specification does, and counts its reconnects exactly. */
  lemma RegistryRefinesLatestConnect(actions: seq<Action>, s: System, id: Bytes)
    requires Run(START, actions, s)
    ensures SessionOf(s.recs, id) == SpecSession(s, id)
    ensures id in s.recs <==> Connects(s.connects, id) > 0
    ensures id in s.recs ==> s.recs[id].reconnects == Connects(s.connects, id) - 1
  {
    RunKeepsInv(START, actions, s);
    assert RecordFollowsTheLog(s, id);
    if id !in s.recs {
      NeverConnected(s.connects, id);
    }
  }

  /** A disconnect succeeds exactly when its session is the latest to have connected under its id, and no
      session disconnects twice: a superseded session can never knock a fresh one offline. */
  lemma DisconnectSucceedsExactlyForTheLatest(actions: seq<Action>, s: System, sess: Sess, now: Time)
    requires Run(START, actions, s) && Enabled(s, RunDisconnect(sess, now))
    ensures Last(Next(s, RunDisconnect(sess, now)).disconnects)
            == (sess, Latest(s.connects, s.threads[sess].id) == Some(sess))
    ensures TimesGone(s.disconnects, sess) == 0
  {
    RunKeepsInv(START, actions, s);
    assert RecordFollowsTheLog(s, s.threads[sess].id);
  }

  /** Once the scheduled closes have run, at most one session per id is open, and it is the latest. */
  lemma AtMostOneOpenOnceClosesDrain(actions: seq<Action>, s: System, sess: Sess, other: Sess)
    requires Run(START, actions, s) && s.scheduled == {}
    requires Connected(s, sess) && sess in s.open && Connected(s, other) && other in s.open
    requires s.threads[sess].id == s.threads[other].id
    ensures sess == other && SessionOf(s.recs, s.threads[sess].id) == Some(sess)
  {
    RunKeepsInv(START, actions, s);
    assert RecordFollowsTheLog(s, s.threads[sess].id);
  }

  /** An agent shown offline has no open session left but one already scheduled to be closed. */
  lemma OfflineMeansClosed(actions: seq<Action>, s: System, id: Bytes, sess: Sess)
    requires Run(START, actions, s) && id in s.recs && !s.recs[id].online
    requires Connected(s, sess) && s.threads[sess].id == id && sess in s.open
    ensures sess in s.scheduled && sess != s.recs[id].session
  {
    RunKeepsInv(START, actions, s);
    assert RecordFollowsTheLog(s, id);
  }

  // ---- What a record says, from the actions alone ------------------------------------------------

  predicate ConnectsAs(a: Action, id: Bytes) {
    a.RunConnect? && a.h.agentId == id
  }

  ghost predicate LatestConnectAt(actions: seq<Action>, k: nat, id: Bytes) {
    && k < |actions| && ConnectsAs(actions[k], id)
    && forall j :: k < j < |actions| ==> !ConnectsAs(actions[j], id)
  }

  predicate EndsAt(actions: seq<Action>, j: nat, sess: Sess) {
    j < |actions| && actions[j].RunDisconnect? && actions[j].sess == sess
  }

  /** The hello, arrival and session are those of the connect at k; online since that connect until the
      session's own disconnect, offline since that disconnect. */
  ghost predicate RecordIsOf(rec: Record, actions: seq<Action>, k: nat)
    requires k < |actions| && actions[k].RunConnect?
  {
    var a := actions[k];
    && rec.hello == a.h && rec.arrival == a.arrival && rec.session == a.sess
    && (if rec.online then rec.since == a.now && forall j: nat :: !EndsAt(actions, j, a.sess)
        else exists j: nat :: k < j && EndsAt(actions, j, a.sess) && rec.since == actions[j].now)
  }

  ghost predicate RecordIsOfTheLatest(recs: Records, actions: seq<Action>, id: Bytes) {
    if id in recs then exists k :: LatestConnectAt(actions, k, id) && RecordIsOf(recs[id], actions, k)
    else forall k :: 0 <= k < |actions| ==> !ConnectsAs(actions[k], id)
  }

  lemma {:induction false} LastStep(s: System, actions: seq<Action>, s': System) returns (mid: System)
    requires Run(s, actions, s') && actions != []
    ensures Run(s, DropLast(actions), mid) && Enabled(mid, Last(actions)) && s' == Next(mid, Last(actions))
    decreases |actions|
  {
    if |actions| == 1 {
      mid := s;
      assert actions[1..] == [];
    } else {
      mid := LastStep(Next(s, actions[0]), actions[1..], s');
      assert DropLast(actions)[0] == actions[0] && DropLast(actions)[1..] == DropLast(actions[1..]);
    }
  }

  lemma {:induction false} EndedIsGone(actions: seq<Action>, s: System, j: nat, sess: Sess)
    requires Run(START, actions, s) && EndsAt(actions, j, sess)
    ensures InPhase(s, sess, Gone)
    decreases |actions|
  {
    var mid := LastStep(START, actions, s);
    if j == |actions| - 1 {
    } else {
      EndedIsGone(DropLast(actions), mid, j, sess);
    }
  }

  lemma ConnectIsRecorded(actions: seq<Action>, mid: System, a: Action, id: Bytes)
    requires Run(START, actions, mid) && Enabled(mid, a) && ConnectsAs(a, id)
    ensures RecordIsOfTheLatest(Next(mid, a).recs, actions + [a], id)
  {
    var all := actions + [a];
    assert LatestConnectAt(all, |actions|, id);
    forall j: nat
      ensures !EndsAt(all, j, a.sess)
    {
      if EndsAt(all, j, a.sess) {
        assert EndsAt(actions, j, a.sess);
        EndedIsGone(actions, mid, j, a.sess);
      }
    }
    assert RecordIsOf(Next(mid, a).recs[id], all, |actions|);
  }

  lemma OwnEndIsRecorded(actions: seq<Action>, mid: System, a: Action, id: Bytes)
    requires a.RunDisconnect? && id in mid.recs && mid.recs[id].session == a.sess && mid.recs[id].online
    requires RecordIsOfTheLatest(mid.recs, actions, id)
    ensures RecordIsOfTheLatest(mid.recs[id := mid.recs[id].(online := false, since := a.now)], actions + [a], id)
  {
    var all := actions + [a];
    var k :| LatestConnectAt(actions, k, id) && RecordIsOf(mid.recs[id], actions, k);
    assert LatestConnectAt(all, k, id) && EndsAt(all, |actions|, a.sess);
    assert RecordIsOf(mid.recs[id].(online := false, since := a.now), all, k);
  }

  lemma RecordIsLeft(actions: seq<Action>, recs: Records, a: Action, id: Bytes)
    requires RecordIsOfTheLatest(recs, actions, id) && !ConnectsAs(a, id)
    requires a.RunDisconnect? && id in recs && recs[id].online ==> a.sess != recs[id].session
    ensures RecordIsOfTheLatest(recs, actions + [a], id)
  {
    var all := actions + [a];
    if id in recs {
      var k :| LatestConnectAt(actions, k, id) && RecordIsOf(recs[id], actions, k);
      assert LatestConnectAt(all, k, id);
      forall j: nat
        ensures EndsAt(actions, j, recs[id].session) ==> EndsAt(all, j, recs[id].session)
        ensures recs[id].online ==> !EndsAt(all, j, recs[id].session)
      {
        assert j < |actions| ==> all[j] == actions[j];
        assert recs[id].online ==> !EndsAt(actions, j, recs[id].session);
      }
      assert RecordIsOf(recs[id], all, k);
    } else {
      assert forall k :: 0 <= k < |all| ==> all[k] == if k < |actions| then actions[k] else a;
    }
  }

  lemma RecordIsFrame(recs: Records, recs': Records, actions: seq<Action>, id: Bytes)
    requires RecordIsOfTheLatest(recs, actions, id)
    requires (id in recs <==> id in recs') && (id in recs ==> recs'[id] == recs[id])
    ensures RecordIsOfTheLatest(recs', actions, id)
  {}

  /** In every interleaving each record says what the latest connect of its id said, since that connect or since
      the end of that very session. */
  lemma {:induction false} RecordsNameTheLatestConnect(actions: seq<Action>, s: System, id: Bytes)
    requires Run(START, actions, s)
    ensures RecordIsOfTheLatest(s.recs, actions, id)
    decreases |actions|
  {
    if actions == [] {
    } else {
      var a, front := Last(actions), DropLast(actions);
      var mid := LastStep(START, actions, s);
      RecordsNameTheLatestConnect(front, mid, id);
      RunKeepsInv(START, front, mid);
      assert RecordFollowsTheLog(mid, id);
      assert actions == front + [a];
      if ConnectsAs(a, id) {
        ConnectIsRecorded(front, mid, a, id);
      } else if a.RunDisconnect? && id in mid.recs && mid.recs[id].session == a.sess && mid.recs[id].online {
        OwnEndIsRecorded(front, mid, a, id);
      } else {
        RecordIsLeft(front, mid.recs, a, id);
        RecordIsFrame(mid.recs, s.recs, actions, id);
      }
    }
  }

  /** A connect is reported as a reconnect, and leaves a session to close, exactly when its id has connected
      before; that session is the one of the latest such connect. */
  lemma ReconnectExactlyAfterAConnect(actions: seq<Action>, s: System, h: Hello, arrival: Arrival, sess: Sess,
                                      now: Time)
    requires Run(START, actions, s)
    ensures var (_, reconnect, stale) := ConnectStep(s.recs, h, arrival, sess, now);
            && (reconnect <==> exists k :: 0 <= k < |actions| && ConnectsAs(actions[k], h.agentId))
            && (stale.Some? <==> reconnect)
            && forall k: nat :: LatestConnectAt(actions, k, h.agentId) ==> stale == Some(actions[k].sess)
  {
    RecordsNameTheLatestConnect(actions, s, h.agentId);
    if h.agentId in s.recs {
      var k :| LatestConnectAt(actions, k, h.agentId) && RecordIsOf(s.recs[h.agentId], actions, k);
      assert forall j: nat :: LatestConnectAt(actions, j, h.agentId) ==> j == k;
    }
  }

  /** The ids counted as online are exactly those with a latest session that has not ended. */
  lemma OnlineIsWhoseSessionLives(actions: seq<Action>, s: System, id: Bytes)
    requires Run(START, actions, s)
    ensures id in Online(s.recs) <==> SpecSession(s, id).Some?
    ensures id in s.recs <==> exists k :: 0 <= k < |actions| && ConnectsAs(actions[k], id)
  {
    RegistryRefinesLatestConnect(actions, s, id);
    RecordsNameTheLatestConnect(actions, s, id);
  }
}
