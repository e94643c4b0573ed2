/** Shipping the agent's warnings to the relay (client/logship.go): a bounded queue, one writer goroutine
    and a current stream that sessions attach and detach. */
module LogShip {
  import opened Basics

  const SHIP_QUEUE: nat := 128

  /** A session's log stream, known by its identity only; sessions never share one. */
  type Stream = nat

  datatype Level = Debug | Info | Warn | Error

  datatype Line = Line(level: Level, text: Bytes) {
    predicate Ships() {
      level.Warn? || level.Error?
    }
  }

  // ---- The sink as it stands ------------------------------------------------------------------------

  /** The lines waiting for the writer, and the stream it writes to if there is one. */
  datatype State = State(lines: seq<Line>, w: Option<Stream>)

  /** One warning travels: queued, or dropped when the relay does not keep up. */
  function HandleStep(s: State, line: Line): State {
    if line.Ships() && |s.lines| < SHIP_QUEUE then s.(lines := s.lines + [line]) else s
  }

  function AttachStep(s: State, stream: Stream): State {
    s.(w := Some(stream))
  }

  function DetachStep(s: State, stream: Stream): State {
    s.(w := if s.w == Some(stream) then None else s.w)
  }

  function PopStep(s: State): State
    requires s.lines != []
  {
    s.(lines := s.lines[1..])
  }

  class LogSink {
    var lines: seq<Line>
    var w: Option<Stream>

    constructor ()
      ensures Abstract() == State([], None)
    {
      lines, w := [], None;
    }

    function Abstract(): State
      reads this
    {
      State(lines, w)
    }

    method Handle(line: Line)
      modifies this
      ensures Abstract() == HandleStep(old(Abstract()), line)
    {
      if line.Ships() && |lines| < SHIP_QUEUE {
        lines := lines + [line];
      }
    }

    method Attach(stream: Stream)
      modifies this
      ensures Abstract() == AttachStep(old(Abstract()), stream)
    {
      w := Some(stream);
    }

    /** Only the current stream can be detached; the writer uses the same guard after a failed write. */
    method Detach(stream: Stream)
      modifies this
      ensures Abstract() == DetachStep(old(Abstract()), stream)
    {
      if w == Some(stream) {
        w := None;
      }
    }

    /** The writer receives the oldest line from the channel. */
    method Pop() returns (line: Line)
      requires lines != []
      modifies this
      ensures Abstract() == PopStep(old(Abstract())) && line == old(lines)[0]
    {
      line := lines[0];
      lines := lines[1..];
    }

    /** Only then it looks which stream is current. */
    method Current() returns (target: Option<Stream>)
      ensures target == Abstract().w
    {
      target := w;
    }
  }

  // ---- Interleavings -----------------------------------------------------------------------------------

  /** A line with its position among the lines ever queued. */
  datatype Placed = Placed(line: Line, position: nat)

  /** `held` is the line the goroutine has received before it looks for a stream, `writing` the line with its
      target, the write not yet finished. History: every line queued, how many of them have been received, and
      what has been written to each stream. */
  datatype System = System(
    sink: State,
    held: Option<Placed>,
    writing: Option<(Placed, Stream)>,
    shipped: seq<Line>,
    taken: nat,
    written: map<Stream, seq<Placed>>,
    attached: seq<Stream>,
    silenced: set<Stream>)

  datatype Action =
    | Log(line: Line)
    | Attach(stream: Stream)
    | Detach(stream: Stream)
    | Pop
    | Look
    | Finish(ok: bool)

  /** A session attaches its own fresh stream once. */
  predicate Enabled(s: System, a: Action) {
    match a
    case Log(_) => true
    case Attach(stream) => stream !in s.attached
    case Detach(stream) => stream in s.attached
    case Pop => s.held.None? && s.writing.None? && s.sink.lines != []
    case Look => s.held.Some?
    case Finish(_) => s.writing.Some?
  }

  function Drop(s: System, stream: Stream): System {
    s.(sink := DetachStep(s.sink, stream), silenced := s.silenced + {stream})
  }

  function WrittenTo(written: map<Stream, seq<Placed>>, stream: Stream): seq<Placed> {
    if stream in written then written[stream] else []
  }

  function Next(s: System, a: Action): System
    requires Enabled(s, a)
  {
    match a
    case Log(line) =>
      var sink := HandleStep(s.sink, line);
      s.(sink := sink, shipped := if |sink.lines| > |s.sink.lines| then s.shipped + [line] else s.shipped)
    case Attach(stream) => s.(sink := AttachStep(s.sink, stream), attached := s.attached + [stream])
    case Detach(stream) => Drop(s, stream)
    case Pop => s.(sink := PopStep(s.sink), taken := s.taken + 1, held := Some(Placed(s.sink.lines[0], s.taken)))
    case Look => s.(held := None, writing := if s.sink.w.Some? then Some((s.held.value, s.sink.w.value)) else None)
    case Finish(ok) =>
      var (placed, stream) := s.writing.value;
      if ok then
        s.(writing := None, written := s.written[stream := WrittenTo(s.written, stream) + [placed]])
      else Drop(s.(writing := None), stream)
  }

  const START: System := System(State([], None), None, None, [], 0, map[], [], {})

  ghost predicate Run(s: System, actions: seq<Action>, s': System)
    decreases |actions|
  {
    if actions == [] then s' == s
    else Enabled(s, actions[0]) && Run(Next(s, actions[0]), actions[1..], s')
  }

  ghost predicate QueueIsTheRest(s: System) {
    s.taken <= |s.shipped| && s.sink.lines == s.shipped[s.taken..]
  }

  /** Lines of the log at strictly increasing positions. */
  ghost predicate InOrder(ps: seq<Placed>, log: seq<Line>, below: nat) {
    && (forall i :: 0 <= i < |ps| ==>
          ps[i].position < below && ps[i].position < |log| && ps[i].line == log[ps[i].position])
    && (forall i, j :: 0 <= i < j < |ps| ==> ps[i].position < ps[j].position)
  }

  /** The line in the goroutine's hands, if any, is later than every line written so far. */
  function InHand(s: System): Option<Placed> {
    if s.held.Some? then s.held else if s.writing.Some? then Some(s.writing.value.0) else None
  }

  function Written(s: System): nat {
    if InHand(s).Some? then InHand(s).value.position else s.taken
  }

  ghost predicate InHandIsTheLastTaken(s: System) {
    && (s.held.None? || s.writing.None?)
    && (s.writing.Some? ==> s.writing.value.1 in s.attached)
    && (InHand(s).Some? ==>
          && InHand(s).value.position + 1 == s.taken
          && s.taken <= |s.shipped| && InHand(s).value.line == s.shipped[s.taken - 1])
  }

  ghost predicate Inv(s: System) {
    && QueueIsTheRest(s)
    && InHandIsTheLastTaken(s)
    && (forall stream :: stream in s.written ==> InOrder(s.written[stream], s.shipped, Written(s)))
    && s.sink.w == (if s.attached == [] || Last(s.attached) in s.silenced then None else Some(Last(s.attached)))
    && (forall stream :: stream in s.silenced ==> stream in s.attached)
  }

  lemma OrderIsStable(s: System, s': System)
    requires s.written == s'.written && s.shipped <= s'.shipped && Written(s) <= Written(s')
    requires forall stream :: stream in s.written ==> InOrder(s.written[stream], s.shipped, Written(s))
    ensures forall stream :: stream in s'.written ==> InOrder(s'.written[stream], s'.shipped, Written(s'))
  {}

  lemma FinishingKeepsInv(s: System, ok: bool)
    requires Inv(s) && s.writing.Some?
    ensures Inv(Next(s, Finish(ok)))
  {
    var s' := Next(s, Finish(ok));
    var (placed, stream) := s.writing.value;
    if ok {
      forall other | other in s'.written
        ensures InOrder(s'.written[other], s'.shipped, Written(s'))
      {
        assert other != stream ==> s'.written[other] == s.written[other];
        assert InOrder(WrittenTo(s.written, other), s.shipped, placed.position);
      }
    } else {
      OrderIsStable(s, s');
    }
  }

  lemma StepKeepsInv(s: System, a: Action)
    requires Inv(s) && Enabled(s, a)
    ensures Inv(Next(s, a))
  {
    match a
    case Finish(ok) => FinishingKeepsInv(s, ok);
    case _ => OrderIsStable(s, Next(s, a));
  }

  lemma {:induction false} RunKeepsInv(s: System, actions: seq<Action>, s': System)
    requires Inv(s) && Run(s, actions, s')
    ensures Inv(s')
    decreases |actions|
  {
    if actions == [] {
    } else {
      StepKeepsInv(s, actions[0]);
      RunKeepsInv(Next(s, actions[0]), actions[1..], s');
    }
  }

  /** The latest stream attached is the current one until that very stream is detached or fails a write:
      nothing that happens to an older stream can silence it. */
  lemma LatestStreamStaysCurrent(actions: seq<Action>, s: System)
    requires Run(START, actions, s)
    ensures s.sink.w == if s.attached == [] || Last(s.attached) in s.silenced then None else Some(Last(s.attached))
  {
    RunKeepsInv(START, actions, s);
  }

  /** Each stream receives lines that were queued, in order and without repeats. */
  lemma StreamsReceiveInOrder(actions: seq<Action>, s: System, stream: Stream)
    requires Run(START, actions, s) && stream in s.written
    ensures InOrder(s.written[stream], s.shipped, |s.shipped|)
  {
    RunKeepsInv(START, actions, s);
  }

  // ---- What is shipped, and what arrives ----------------------------------------------------------------

  function Warning(a: Action): seq<Line> {
    if a.Log? && (a.line.level.Warn? || a.line.level.Error?) then [a.line] else []
  }

  /** The warnings and errors logged, in order. */
  function Warnings(actions: seq<Action>): seq<Line> {
    if actions == [] then [] else Warning(actions[0]) + Warnings(actions[1..])
  }

  /** Some warning finds the queue full. */
  ghost predicate FindsFull(s: System, actions: seq<Action>, s': System)
    requires Run(s, actions, s')
    decreases |actions|
  {
    actions != []
    && ((Warning(actions[0]) != [] && |s.sink.lines| >= 128) || FindsFull(Next(s, actions[0]), actions[1..], s'))
  }

  lemma StepQueues(s: System, a: Action)
    requires Enabled(s, a)
    ensures Next(s, a).shipped == s.shipped + if |s.sink.lines| < 128 then Warning(a) else []
  {}

  lemma Extends(a: seq<Line>, b: seq<Line>, c: seq<Line>, all: seq<Line>)
    requires |all| <= |a| + |c|
    ensures b == [] ==> (all == a + (b + c) <==> all == a + c)
    ensures b != [] ==> all != a + (b + c)
  {
    if b == [] {
      assert b + c == c;
    } else {
      assert |a + (b + c)| > |all|;
    }
  }

  /** Exactly the warnings and errors are queued, all of them exactly when none ever finds 128 waiting. */
  lemma {:induction false} WarningsAreQueuedExactlyWhileThereIsRoom(s: System, actions: seq<Action>, s': System)
    requires Run(s, actions, s')
    ensures |s'.shipped| <= |s.shipped| + |Warnings(actions)|
    ensures s'.shipped == s.shipped + Warnings(actions) <==> !FindsFull(s, actions, s')
    decreases |actions|
  {
    if actions == [] {
      assert s.shipped + [] == s.shipped;
    } else {
      var next, w, rest := Next(s, actions[0]), Warning(actions[0]), Warnings(actions[1..]);
      WarningsAreQueuedExactlyWhileThereIsRoom(next, actions[1..], s');
      StepQueues(s, actions[0]);
      if |s.sink.lines| < 128 {
        Associates(s.shipped, w, rest);
      } else {
        Extends(s.shipped, w, rest, s'.shipped);
      }
    }
  }

  function LinesOf(ps: seq<Placed>): seq<Line> {
    seq(|ps|, i requires 0 <= i < |ps| => ps[i].line)
  }

  /** The lines the goroutine is done with. */
  function Done(s: System): int {
    if InHand(s).Some? then InHand(s).value.position else s.taken
  }

  ghost predicate Undisturbed(actions: seq<Action>) {
    forall i :: 0 <= i < |actions| ==>
      !actions[i].Attach? && !actions[i].Detach? && actions[i] != Finish(false)
  }

  ghost predicate AllDelivered(s: System, stream: Stream) {
    && Inv(s) && s.sink.w == Some(stream) && (s.writing.Some? ==> s.writing.value.1 == stream)
    && 0 <= Done(s) <= |s.shipped| && LinesOf(WrittenTo(s.written, stream)) == s.shipped[..Done(s)]
  }

  lemma StepDelivers(s: System, a: Action, stream: Stream)
    requires AllDelivered(s, stream) && Enabled(s, a)
    requires !a.Attach? && !a.Detach? && a != Finish(false)
    ensures AllDelivered(Next(s, a), stream)
  {
    var s' := Next(s, a);
    StepKeepsInv(s, a);
    match a
    case Log(_) =>
      assert s'.shipped[..Done(s)] == s.shipped[..Done(s)];
    case Finish(_) =>
      var placed := s.writing.value.0;
      assert LinesOf(WrittenTo(s.written, stream) + [placed]) == LinesOf(WrittenTo(s.written, stream)) + [placed.line];
      assert s.shipped[..Done(s)] + [s.shipped[Done(s)]] == s.shipped[..Done(s) + 1];
    case _ =>
  }

  /** A stream that is current, never detached and never fails receives every line that was queued, in order: at any
      moment all those the goroutine is done with. */
  lemma {:induction false} EveryQueuedLineIsDelivered(s: System, actions: seq<Action>, s': System, stream: Stream)
    requires AllDelivered(s, stream) && Run(s, actions, s') && Undisturbed(actions)
    ensures AllDelivered(s', stream) && LinesOf(WrittenTo(s'.written, stream)) == s'.shipped[..Done(s')]
    decreases |actions|
  {
    if actions == [] {
    } else {
      StepDelivers(s, actions[0], stream);
      EveryQueuedLineIsDelivered(Next(s, actions[0]), actions[1..], s', stream);
    }
  }

  /** A stream attached before the first line starts in that state. */
  lemma FreshStreamStartsDelivered(stream: Stream)
    ensures Enabled(START, Attach(stream)) && AllDelivered(Next(START, Attach(stream)), stream)
  {
    StepKeepsInv(START, Attach(stream));
  }
}
