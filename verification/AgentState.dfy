/** The live picture of the running agent, as its control socket reports it (client/control.go). */
module AgentState {
  import opened Basics

  /** A session together with the connection under it. */
  type Link = nat

  datatype Status = Status(link: Option<Link>, connected: bool, connecting: bool, since: Time,
                           lastError: Bytes, nextRetry: Option<Time>)

  /** One update with the instant it happens at; a retry time of None is Go's zero time. */
  datatype Call =
    | Connecting(at: Time)
    | Connected(link: Link, at: Time)
    | Disconnected(error: Option<Bytes>, nextRetry: Option<Time>, at: Time)

  function Apply(s: Status, c: Call): Status {
    match c
    case Connecting(_) => s.(connecting := true, nextRetry := None)
    case Connected(link, at) => Status(Some(link), true, false, at, [], None)
    case Disconnected(error, retry, at) =>
      Status(None, false, false, if s.connected then at else s.since,
             if error.Some? then error.value else s.lastError, retry)
  }

  function Initial(startedAt: Time): Status {
    Status(None, false, false, startedAt, [], None)
  }

  const UNMEASURED: int := -1

  /** The status after a run of updates. */
  function After(s: Status, calls: seq<Call>): Status {
    if calls == [] then s else Apply(After(s, DropLast(calls)), Last(calls))
  }

  lemma AfterAppends(s: Status, calls: seq<Call>, c: Call)
    ensures After(s, calls + [c]) == Apply(After(s, calls), c)
  {
    assert DropLast(calls + [c]) == calls;
  }

  class AgentState {
    var startedAt: Time
    var link: Option<Link>
    var connected: bool
    var connecting: bool
    var since: Time
    var lastError: Bytes
    var nextRetry: Option<Time>
    var rttNanos: int

    /** The updates so far, oldest first. */
    ghost var calls: seq<Call>

    /** The fields are what the updates made of them. */
    ghost predicate Valid()
      reads this
    {
      Snapshot() == After(Initial(startedAt), calls)
    }

    constructor (now: Time)
      ensures Valid() && startedAt == now && calls == [] && rttNanos == UNMEASURED
    {
      startedAt := now;
      link, connected, connecting, since, lastError, nextRetry := None, false, false, now, [], None;
      rttNanos, calls := UNMEASURED, [];
    }

    function Snapshot(): Status
      reads this
    {
      Status(link, connected, connecting, since, lastError, nextRetry)
    }

    method MarkConnected(l: Link, now: Time)
      requires Valid()
      modifies this
      ensures Valid() && startedAt == old(startedAt) && calls == old(calls) + [Connected(l, now)]
      ensures Snapshot() == Apply(old(Snapshot()), Connected(l, now)) && rttNanos == UNMEASURED
    {
      AfterAppends(Initial(startedAt), calls, Connected(l, now));
      link, connected, connecting, since, lastError, nextRetry := Some(l), true, false, now, [], None;
      assert Snapshot() == Apply(old(Snapshot()), Connected(l, now));
      rttNanos, calls := UNMEASURED, calls + [Connected(l, now)];
    }

    method MarkDisconnected(error: Option<Bytes>, retry: Option<Time>, now: Time)
      requires Valid()
      modifies this
      ensures Valid() && startedAt == old(startedAt) && calls == old(calls) + [Disconnected(error, retry, now)]
      ensures Snapshot() == Apply(old(Snapshot()), Disconnected(error, retry, now)) && rttNanos == UNMEASURED
    {
      AfterAppends(Initial(startedAt), calls, Disconnected(error, retry, now));
      link := None;
      if connected {
        since := now;
      }
      connected, connecting := false, false;
      if error.Some? {
        lastError := error.value;
      }
      nextRetry := retry;
      rttNanos, calls := UNMEASURED, calls + [Disconnected(error, retry, now)];
    }

    method MarkConnecting(now: Time)
      requires Valid()
      modifies this
      ensures Valid() && startedAt == old(startedAt) && calls == old(calls) + [Connecting(now)]
      ensures Snapshot() == Apply(old(Snapshot()), Connecting(now)) && rttNanos == old(rttNanos)
    {
      AfterAppends(Initial(startedAt), calls, Connecting(now));
      connecting, nextRetry := true, None;
      calls := calls + [Connecting(now)];
    }
  }

  // ---- Runs -----------------------------------------------------------------------------------------

  /** An attempt begins when none is under way, connects at most once, and ends once. */
  predicate MayFollow(calls: seq<Call>, c: Call) {
    match c
    case Connecting(_) => calls == [] || Last(calls).Disconnected?
    case Connected(_, _) => calls != [] && Last(calls).Connecting?
    case Disconnected(_, _, _) => calls != [] && !Last(calls).Disconnected?
  }

  /** The order a supervisor produces: an attempt, perhaps a connection, then its end. */
  predicate Orderly(calls: seq<Call>) {
    calls == [] || (MayFollow(DropLast(calls), Last(calls)) && Orderly(DropLast(calls)))
  }

  lemma OrderlyAppends(calls: seq<Call>, c: Call)
    requires Orderly(calls) && MayFollow(calls, c)
    ensures Orderly(calls + [c])
  {
    assert DropLast(calls + [c]) == calls;
  }

  /** The instant of the last call that turned Connected on or off, or start-up. */
  function LastChange(startedAt: Time, calls: seq<Call>): Time {
    if calls == [] then startedAt
    else if After(Initial(startedAt), calls).connected != After(Initial(startedAt), DropLast(calls)).connected
      then Last(calls).at
    else LastChange(startedAt, DropLast(calls))
  }

  /** What the status says is what the calls did. */
  lemma {:induction false} StatusIsTruthful(startedAt: Time, calls: seq<Call>)
    requires Orderly(calls)
    ensures var s := After(Initial(startedAt), calls);
            && (s.connected <==> s.link.Some?)
            && (s.connected <==> calls != [] && Last(calls).Connected?)
            && (s.connecting <==> calls != [] && Last(calls).Connecting?)
            && (s.connected || s.connecting ==> s.nextRetry.None?)
            && !(s.connected && s.connecting)
            && s.since == LastChange(startedAt, calls)
  {
    if calls == [] {
    } else {
      StatusIsTruthful(startedAt, DropLast(calls));
    }
  }

  /** The error reported is that of the last attempt that ended with one, unless a connection has come up since. */
  function LastErrorOf(calls: seq<Call>): Bytes {
    if calls == [] || Last(calls).Connected? then []
    else if Last(calls).Disconnected? && Last(calls).error.Some? then Last(calls).error.value
    else LastErrorOf(DropLast(calls))
  }

  /** Everything else the status says, from the calls alone. */
  lemma {:induction false} StatusIsComplete(startedAt: Time, calls: seq<Call>)
    ensures var s := After(Initial(startedAt), calls);
            && s.lastError == LastErrorOf(calls)
            && s.nextRetry == (if calls != [] && Last(calls).Disconnected? then Last(calls).nextRetry else None)
            && (calls != [] && Last(calls).Connected? ==> s.link == Some(Last(calls).link))
            && (calls != [] && Last(calls).Disconnected? ==> s.link == None)
  {
    if calls == [] {
    } else {
      StatusIsComplete(startedAt, DropLast(calls));
    }
  }

  /** However many attempts fail, the time since which the agent has been offline does not move. */
  lemma {:induction false} FailedAttemptsLeaveSince(startedAt: Time, calls: seq<Call>, more: seq<Call>)
    requires Orderly(calls + more) && forall i :: 0 <= i < |more| ==> !more[i].Connected?
    requires calls == [] || Last(calls).Disconnected?
    ensures After(Initial(startedAt), calls + more).since == After(Initial(startedAt), calls).since
  {
    if more == [] {
      assert calls + more == calls;
    } else {
      var all := calls + more;
      assert DropLast(all) == calls + DropLast(more);
      FailedAttemptsLeaveSince(startedAt, calls, DropLast(more));
      StatusIsTruthful(startedAt, DropLast(all));
      if DropLast(more) == [] {
        assert DropLast(all) == calls;
      } else {
        assert Last(DropLast(all)) == more[|more| - 2];
      }
    }
  }
}
