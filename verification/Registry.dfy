/** The relay's record of its agents (server/registry.go): last connection wins, late closes are ignored. */
module Registry {
  import opened Basics
  import opened Protocol

  /** A yamux session, known by its identity only. */
  type Sess = nat

  datatype Transport = Tls | ProxyTls | Plain

  /** How a connection reached the relay. */
  datatype Arrival = Arrival(remoteAddr: Bytes, transport: Transport, detail: Bytes)

  datatype Record = Record(hello: Hello, arrival: Arrival, session: Sess, online: bool, since: Time, reconnects: nat)

  type Records = map<Bytes, Record>

  /** The second component says whether the id was known; the third is the session left to close. */
  function ConnectStep(recs: Records, h: Hello, arrival: Arrival, sess: Sess, now: Time): (Records, bool,
                       Option<Sess>)
  {
    if h.agentId in recs then
      var rec := recs[h.agentId];
      (recs[h.agentId := Record(h, arrival, sess, true, now, rec.reconnects + 1)], true, Some(rec.session))
    else
      (recs[h.agentId := Record(h, arrival, sess, true, now, 0)], false, None)
  }

  function DisconnectStep(recs: Records, id: Bytes, sess: Sess, now: Time): (Records, bool) {
    if id !in recs || recs[id].session != sess || !recs[id].online then (recs, false)
    else (recs[id := recs[id].(online := false, since := now)], true)
  }

  function SessionOf(recs: Records, id: Bytes): Option<Sess> {
    if id in recs && recs[id].online then Some(recs[id].session) else None
  }

  ghost function Online(recs: Records): set<Bytes> {
    set id | id in recs && recs[id].online
  }

  const UNMEASURED: int := -1

  class AgentRec {
    var hello: Hello
    var arrival: Arrival
    var session: Sess
    var online: bool
    var since: Time
    var reconnects: nat
    var rttNanos: int

    constructor ()
      ensures reconnects == 0
    {
      hello, arrival := Hello([], [], [], [], []), Arrival([], Plain, []);
      session, online, since, reconnects, rttNanos := 0, false, 0, 0, 0;
    }

    function View(): Record
      reads this
    {
      Record(hello, arrival, session, online, since, reconnects)
    }
  }

  lemma OneLessToCount(uncounted: set<Bytes>, id: Bytes, online: set<Bytes>)
    requires id in uncounted
    ensures |uncounted - {id}| == |uncounted| - 1
    ensures |(uncounted - {id}) * online| == |uncounted * online| - if id in online then 1 else 0
  {
    if id in online {
      assert (uncounted - {id}) * online == uncounted * online - {id};
    } else {
      assert (uncounted - {id}) * online == uncounted * online;
    }
  }

  class Registry {
    var agents: map<Bytes, AgentRec>

    ghost predicate Valid()
      reads this
    {
      forall i, j :: i in agents && j in agents && i != j ==> agents[i] != agents[j]
    }

    ghost function Records(): Records
      reads this, agents.Values
    {
      map id | id in agents :: agents[id].View()
    }

    constructor ()
      ensures Valid() && Records() == map[]
    {
      agents := map[];
    }

    method Connect(h: Hello, arrival: Arrival, sess: Sess, now: Time)
      returns (rec: AgentRec, reconnect: bool, stale: Option<Sess>)
      requires Valid()
      modifies this, agents.Values
      ensures Valid() && fresh(agents.Values - old(agents.Values))
      ensures (Records(), reconnect, stale) == ConnectStep(old(Records()), h, arrival, sess, now)
      ensures h.agentId in agents && rec == agents[h.agentId] && rec.rttNanos == UNMEASURED
      ensures reconnect ==> rec == old(agents)[h.agentId]
    {
      stale := None;
      reconnect := h.agentId in agents;
      if reconnect {
        rec := agents[h.agentId];
        stale := Some(rec.session);
        rec.reconnects := rec.reconnects + 1;
      } else {
        rec := new AgentRec();
        agents := agents[h.agentId := rec];
      }
      rec.hello, rec.arrival, rec.session := h, arrival, sess;
      rec.online, rec.since, rec.rttNanos := true, now, UNMEASURED;
      assert rec.View() == Record(h, arrival, sess, true, now, rec.reconnects);
      ghost var expected := ConnectStep(old(Records()), h, arrival, sess, now).0;
      forall i | i in agents
        ensures agents[i].View() == expected[i]
      {
        assert i != h.agentId ==> agents[i] == old(agents)[i] && agents[i] != rec;
      }
      assert Records() == expected;
    }

    method Disconnect(id: Bytes, sess: Sess, now: Time) returns (ok: bool)
      requires Valid()
      modifies agents.Values
      ensures Valid()
      ensures (Records(), ok) == DisconnectStep(old(Records()), id, sess, now)
      ensures ok ==> agents[id].rttNanos == UNMEASURED
    {
      if id !in agents || agents[id].session != sess || !agents[id].online {
        return false;
      }
      var rec := agents[id];
      rec.online := false;
      rec.since := now;
      rec.rttNanos := UNMEASURED;
      ok := true;
      ghost var expected := DisconnectStep(old(Records()), id, sess, now).0;
      assert Records() == expected by {
        assert Records().Keys == expected.Keys;
        assert forall i :: i in Records() ==> Records()[i] == expected[i];
      }
    }

    method Session(id: Bytes) returns (sess: Option<Sess>)
      ensures sess == SessionOf(Records(), id)
    {
      if id !in agents || !agents[id].online {
        return None;
      }
      sess := Some(agents[id].session);
    }

    lemma OnlineAgents()
      ensures Online(Records()) <= agents.Keys && |Records()| == |agents.Keys|
      ensures forall id :: id in agents ==> (id in Online(Records()) <==> agents[id].online)
    {
      assert |Records()| == |Records().Keys| && Records().Keys == agents.Keys;
    }

    method Counts() returns (online: nat, total: nat)
      ensures online == |Online(Records())| && total == |Records()|
    {
      online, total := 0, 0;
      ghost var on := Online(Records());
      OnlineAgents();
      var uncounted := agents.Keys;
      assert uncounted * on == on;
      while uncounted != {}
        invariant uncounted <= agents.Keys
        invariant total + |uncounted| == |agents.Keys| && online + |uncounted * on| == |on|
        decreases |uncounted|
      {
        var id :| id in uncounted;
        total := total + 1;
        if agents[id].online {
          online := online + 1;
        }
        OneLessToCount(uncounted, id, on);
        uncounted := uncounted - {id};
      }
    }
  }
}
