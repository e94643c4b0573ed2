/** Two copies over one pair of connections, with the guard that closes both when a copy ends
    (client/forward.go, client/forwardcmd.go). */
module Duplex {
  import opened Basics

  /** Inward is toward the local service, or for the operator's side toward the relay. */
  datatype Direction = Inward | Outward {
    function Other(): Direction {
      if Inward? then Outward else Inward
    }
  }

  /** A copy ends cleanly when its source has ended, otherwise on a failed read or write. */
  datatype Phase = Copying | Ended(clean: bool)

  /** One io.Copy: what its source will still send, the chunk read but not yet written, what has been delivered. */
  datatype Half = Half(pending: Bytes, chunk: Bytes, delivered: Bytes, phase: Phase)

  /** Who ran the guard first, and what the other direction had delivered by then. */
  datatype Closing = Closing(first: Direction, delivered: Bytes)

  /** `faulty` records that a copy failed while both connections were still open. */
  datatype System = System(inward: Half, outward: Half, closed: Option<Closing>, faulty: bool) {
    function Of(d: Direction): Half {
      if d.Inward? then inward else outward
    }

    function With(d: Direction, h: Half): System {
      if d.Inward? then this.(inward := h) else this.(outward := h)
    }
  }

  datatype Action =
    | Read(d: Direction, n: nat)
    | Write(d: Direction, n: nat)
    | SourceEnds(d: Direction)
    | ReadFails(d: Direction)
    | Shut(d: Direction)

  /** Whose end closes both connections: either copy's on the agent, only the outward one's in bridge. */
  type Guard = set<Direction>

  const AGENT: Guard := {Inward, Outward}
  const BRIDGE: Guard := {Outward}

  predicate Enabled(s: System, a: Action, guard: Guard) {
    var h := s.Of(a.d);
    match a
    case Read(_, n) => h.phase.Copying? && h.chunk == [] && 0 < n <= |h.pending|
    case Write(_, n) => h.phase.Copying? && h.chunk != [] && n <= |h.chunk| && (s.closed.Some? ==> n == 0)
    case SourceEnds(_) => h.phase.Copying? && h.chunk == [] && h.pending == []
    case ReadFails(_) => h.phase.Copying? && h.chunk == []
    case Shut(d) => h.phase.Ended? && d in guard
  }

  function Next(s: System, a: Action, guard: Guard): System
    requires Enabled(s, a, guard)
  {
    var h := s.Of(a.d);
    match a
    case Read(d, n) => s.With(d, h.(pending := h.pending[n..], chunk := h.pending[..n]))
    case Write(d, n) =>
      var h' := h.(delivered := h.delivered + h.chunk[..n], chunk := h.chunk[n..]);
      if n == |h.chunk| then s.With(d, h')
      else s.With(d, h'.(phase := Ended(false))).(faulty := s.faulty || s.closed.None?)
    case SourceEnds(d) => s.With(d, h.(phase := Ended(true)))
    case ReadFails(d) => s.With(d, h.(phase := Ended(false))).(faulty := s.faulty || s.closed.None?)
    case Shut(d) => if s.closed.Some? then s else s.(closed := Some(Closing(d, s.Of(d.Other()).delivered)))
  }

  /** `inward` and `outward` are everything the two sources will ever send. */
  function Start(inward: Bytes, outward: Bytes): System {
    System(Half(inward, [], [], Copying), Half(outward, [], [], Copying), None, false)
  }

  ghost predicate Run(s: System, actions: seq<Action>, guard: Guard, s': System)
    decreases |actions|
  {
    if actions == [] then s' == s
    else Enabled(s, actions[0], guard) && Run(Next(s, actions[0], guard), actions[1..], guard, s')
  }

  // ---- What every step keeps -----------------------------------------------------------------------------

  predicate Conserves(h: Half, sent: Bytes) {
    && h.delivered + h.chunk + h.pending == sent
    && (h.phase == Ended(true) ==> h.chunk == [] && h.pending == [])
  }

  predicate Inv(s: System, guard: Guard, inward: Bytes, outward: Bytes) {
    && Conserves(s.inward, inward) && Conserves(s.outward, outward)
    && match s.closed
       case None => s.faulty || (s.inward.phase != Ended(false) && s.outward.phase != Ended(false))
       case Some(c) =>
         && c.first in guard && s.Of(c.first).phase.Ended? && (s.faulty || s.Of(c.first).phase.clean)
         && s.Of(c.first.Other()).delivered == c.delivered
  }

  lemma HalfConserves(s: System, a: Action, guard: Guard, sent: Bytes)
    requires Enabled(s, a, guard) && Conserves(s.Of(a.d), sent)
    ensures Conserves(Next(s, a, guard).Of(a.d), sent)
    ensures Next(s, a, guard).Of(a.d.Other()) == s.Of(a.d.Other())
  {
    var h := s.Of(a.d);
    match a
    case Read(_, n) => assert h.delivered + h.chunk + h.pending == h.delivered + (h.pending[..n] + h.pending[n..]);
    case Write(_, n) =>
      assert h.chunk == h.chunk[..n] + h.chunk[n..];
      assert h.delivered + h.chunk[..n] + h.chunk[n..] == h.delivered + h.chunk;
    case _ =>
  }

  lemma StepKeepsInv(s: System, a: Action, guard: Guard, inward: Bytes, outward: Bytes)
    requires Inv(s, guard, inward, outward) && Enabled(s, a, guard)
    ensures Inv(Next(s, a, guard), guard, inward, outward)
  {
    HalfConserves(s, a, guard, if a.d.Inward? then inward else outward);
    if a.Write? && s.closed.Some? {
      assert s.Of(a.d).delivered + s.Of(a.d).chunk[..0] == s.Of(a.d).delivered;
    }
  }

  lemma {:induction false} RunKeepsInv(s: System, actions: seq<Action>, guard: Guard, s': System, inward: Bytes,
                                       outward: Bytes)
    requires Inv(s, guard, inward, outward) && Run(s, actions, guard, s')
    ensures Inv(s', guard, inward, outward)
    decreases |actions|
  {
    if actions == [] {
    } else {
      StepKeepsInv(s, actions[0], guard, inward, outward);
      RunKeepsInv(Next(s, actions[0], guard), actions[1..], guard, s', inward, outward);
    }
  }

  // ---- Who is cut off, and what it costs -------------------------------------------------------------------

  function Sent(d: Direction, inward: Bytes, outward: Bytes): Bytes {
    if d.Inward? then inward else outward
  }

  /** In every interleaving without a fault, the direction whose end closed the connections has delivered all
      its source sent; the other stands at what it had delivered at that moment, and what is lost is exactly the
      rest of what its source had to send. */
  lemma FirstToEndIsComplete(inward: Bytes, outward: Bytes, actions: seq<Action>, guard: Guard, s: System)
    requires Run(Start(inward, outward), actions, guard, s) && s.closed.Some? && !s.faulty
    ensures var first, other := s.closed.value.first, s.closed.value.first.Other();
            && first in guard
            && s.Of(first).delivered == Sent(first, inward, outward)
            && s.Of(other).delivered == s.closed.value.delivered
            && Sent(other, inward, outward) == s.closed.value.delivered + (s.Of(other).chunk + s.Of(other).pending)
  {
    RunKeepsInv(Start(inward, outward), actions, guard, s, inward, outward);
    var first := s.closed.value.first;
    Undelivered(s.Of(first), Sent(first, inward, outward));
    Undelivered(s.Of(first.Other()), Sent(first.Other(), inward, outward));
  }

  lemma Undelivered(h: Half, sent: Bytes)
    requires Conserves(h, sent)
    ensures sent == h.delivered + (h.chunk + h.pending) && h.delivered <= sent
    ensures h.delivered == sent <==> h.chunk + h.pending == []
  {
    assert h.delivered + h.chunk + h.pending == h.delivered + (h.chunk + h.pending);
    assert |sent| == |h.delivered| + |h.chunk + h.pending|;
  }

  /** With or without faults, a copy delivers a prefix, and one that ends with its source delivers everything. */
  lemma CopiesDeliverPrefixes(inward: Bytes, outward: Bytes, actions: seq<Action>, guard: Guard, s: System,
                              d: Direction)
    requires Run(Start(inward, outward), actions, guard, s)
    ensures s.Of(d).delivered <= Sent(d, inward, outward)
    ensures s.Of(d).phase == Ended(true) ==> s.Of(d).delivered == Sent(d, inward, outward)
  {
    RunKeepsInv(Start(inward, outward), actions, guard, s, inward, outward);
    Undelivered(s.Of(d), Sent(d, inward, outward));
  }

  /** Once the guard has run nothing more is delivered in either direction. */
  lemma {:induction false} ClosedIsFinal(s: System, actions: seq<Action>, guard: Guard, s': System, d: Direction)
    requires s.closed.Some? && Run(s, actions, guard, s')
    ensures s'.Of(d).delivered == s.Of(d).delivered && s'.closed == s.closed && s'.faulty == s.faulty
    decreases |actions|
  {
    if actions == [] {
    } else {
      var h := s.Of(actions[0].d);
      assert h.delivered + h.chunk[..0] == h.delivered;
      ClosedIsFinal(Next(s, actions[0], guard), actions[1..], guard, s', d);
    }
  }

  ghost predicate BothComplete(s: System, inward: Bytes, outward: Bytes) {
    s.inward.delivered == inward && s.outward.delivered == outward
  }

  /** Deliveries only grow. */
  lemma {:induction false} DeliveriesGrow(s: System, actions: seq<Action>, guard: Guard, s': System, d: Direction)
    requires Run(s, actions, guard, s')
    ensures s.Of(d).delivered <= s'.Of(d).delivered
    decreases |actions|
  {
    if actions == [] {
    } else {
      DeliveriesGrow(Next(s, actions[0], guard), actions[1..], guard, s', d);
    }
  }

  /** Every way on without a fault that closes the connections has both directions complete. */
  ghost predicate AlwaysCompletes(s: System, guard: Guard, inward: Bytes, outward: Bytes) {
    forall more, s' :: Run(s, more, guard, s') && s'.closed.Some? && !s'.faulty ==> BothComplete(s', inward, outward)
  }

  /** When a side may end its half: every way on without a fault that closes the connections has both directions
      complete, exactly when that side has by then received everything the other will ever send. */
  lemma EndingIsSafeExactlyWhenAllHasArrived(inward: Bytes, outward: Bytes, actions: seq<Action>, guard: Guard,
                                             s: System,
                                             d: Direction)
    requires Run(Start(inward, outward), actions, guard, s) && s.closed.None? && !s.faulty
    requires d in guard && Enabled(s, SourceEnds(d), guard)
    ensures AlwaysCompletes(Next(s, SourceEnds(d), guard), guard, inward, outward)
            <==> s.Of(d.Other()).delivered == Sent(d.Other(), inward, outward)
  {
    var ended := Next(s, SourceEnds(d), guard);
    RunKeepsInv(Start(inward, outward), actions, guard, s, inward, outward);
    StepKeepsInv(s, SourceEnds(d), guard, inward, outward);
    if s.Of(d.Other()).delivered == Sent(d.Other(), inward, outward) {
      forall more, s' | Run(ended, more, guard, s') && s'.closed.Some? && !s'.faulty
        ensures BothComplete(s', inward, outward)
      {
        StaysComplete(ended, more, guard, s', inward, outward, Inward);
        StaysComplete(ended, more, guard, s', inward, outward, Outward);
      }
    } else {
      var closed := Next(ended, Shut(d), guard);
      var last := [Shut(d)];
      assert Run(closed, last[1..], guard, closed);
      assert Run(ended, last, guard, closed) && closed.closed.Some? && !closed.faulty;
      assert closed.Of(d.Other()).delivered == s.Of(d.Other()).delivered;
      assert !BothComplete(closed, inward, outward);
    }
  }

  lemma StaysComplete(s: System, actions: seq<Action>, guard: Guard, s': System, inward: Bytes, outward: Bytes,
                      d: Direction)
    requires Inv(s, guard, inward, outward) && Run(s, actions, guard, s')
    requires s.Of(d).delivered == Sent(d, inward, outward)
    ensures s'.Of(d).delivered == Sent(d, inward, outward)
  {
    RunKeepsInv(s, actions, guard, s', inward, outward);
    DeliveriesGrow(s, actions, guard, s', d);
    Undelivered(s'.Of(d), Sent(d, inward, outward));
  }

  /** Under bridge's guard the end of what the client sends never costs a byte of the reply. */
  lemma BridgeDeliversTheReply(inward: Bytes, outward: Bytes, actions: seq<Action>, s: System)
    requires Run(Start(inward, outward), actions, BRIDGE, s) && s.closed.Some? && !s.faulty
    ensures s.outward.delivered == outward
  {
    FirstToEndIsComplete(inward, outward, actions, BRIDGE, s);
  }

  /** On the agent it can cost all of it: one side sends its bytes and ends its sending half, and nothing the
      other side sends is delivered any more, whatever happens next. */
  lemma HalfCloseCutsTheOtherSide(d: Direction, sent: Bytes, other: Bytes, more: seq<Action>, s': System)
    requires sent != [] && Run(AfterHalfClose(d, sent, other), more, AGENT, s')
    ensures Run(Opening(d, sent, other), HalfClose(d, sent), AGENT, AfterHalfClose(d, sent, other))
    ensures !s'.faulty && s'.Of(d).delivered == sent && s'.Of(d.Other()).delivered == []
  {
    var actions := HalfClose(d, sent);
    var s1 := Next(Opening(d, sent, other), actions[0], AGENT);
    assert s1.Of(d) == Half([], sent, [], Copying);
    var s2 := Next(s1, actions[1], AGENT);
    assert s2.Of(d) == Half([], [], sent, Copying);
    var s4 := Next(Next(s2, actions[2], AGENT), actions[3], AGENT);
    assert s4 == AfterHalfClose(d, sent, other);
    RunOfFour(Opening(d, sent, other), actions, AGENT);
    ClosedIsFinal(s4, more, AGENT, s', d);
    ClosedIsFinal(s4, more, AGENT, s', d.Other());
  }

  function Opening(d: Direction, sent: Bytes, other: Bytes): System {
    if d.Inward? then Start(sent, other) else Start(other, sent)
  }

  /** What was sent goes through, its sender ends its half, and the guard runs. */
  function HalfClose(d: Direction, sent: Bytes): seq<Action> {
    [Read(d, |sent|), Write(d, |sent|), SourceEnds(d), Shut(d)]
  }

  function AfterHalfClose(d: Direction, sent: Bytes, other: Bytes): System {
    Opening(d, sent, other).With(d, Half([], [], sent, Ended(true))).(closed := Some(Closing(d, [])))
  }

  lemma RunOfFour(s: System, actions: seq<Action>, guard: Guard)
    requires |actions| == 4 && Enabled(s, actions[0], guard)
    requires var s1 := Next(s, actions[0], guard);
             && Enabled(s1, actions[1], guard) && Enabled(Next(s1, actions[1], guard), actions[2], guard)
             && Enabled(Next(Next(s1, actions[1], guard), actions[2], guard), actions[3], guard)
    ensures var s2 := Next(Next(s, actions[0], guard), actions[1], guard);
            Run(s, actions, guard, Next(Next(s2, actions[2], guard), actions[3], guard))
  {
    var s1 := Next(s, actions[0], guard);
    var s2 := Next(s1, actions[1], guard);
    var s3 := Next(s2, actions[2], guard);
    var s4 := Next(s3, actions[3], guard);
    assert Run(s4, actions[4..], guard, s4);
    assert actions[3..][1..] == actions[4..] && Run(s3, actions[3..], guard, s4);
    assert actions[2..][1..] == actions[3..] && Run(s2, actions[2..], guard, s4);
    assert actions[1..][1..] == actions[2..] && Run(s1, actions[1..], guard, s4);
  }
}
