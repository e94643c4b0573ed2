/** The relay's activity feed (server/events.go): a bounded backlog and a lossy fan-out. */
module EventBus {
  import opened Basics

  /** `at` is None until the event is published without a time of its own. */
  datatype Event = Event(kind: Bytes, agentId: Bytes, message: Bytes, at: Option<Time>) {
    function Stamped(now: Time): Event {
      if at.None? then this.(at := Some(now)) else this
    }
  }

  const EVENT_BACKLOG: nat := 100
  const SUB_BUFFER: nat := 64

  function Trim<T>(backlog: seq<T>): seq<T> {
    if |backlog| > EVENT_BACKLOG then backlog[|backlog| - EVENT_BACKLOG..] else backlog
  }

  /** A non-blocking send to a buffered channel. */
  function Offer<T>(queue: seq<T>, e: T): seq<T> {
    if |queue| < SUB_BUFFER then queue + [e] else queue
  }

  /** A receive from a channel that holds something. */
  function Receipt<T>(queue: seq<T>): (T, seq<T>)
    requires queue != []
  {
    (queue[0], queue[1..])
  }

  class Channel {
    var queue: seq<Event>

    constructor ()
      ensures queue == []
    {
      queue := [];
    }

    method Receive() returns (e: Option<Event>)
      modifies this
      ensures if old(queue) == [] then e == None && queue == []
              else e.Some? && (e.value, queue) == Receipt(old(queue))
    {
      if queue == [] {
        return None;
      }
      e := Some(queue[0]);
      queue := queue[1..];
    }
  }

  class EventBus {
    var subs: set<Channel>
    var backlog: seq<Event>

    constructor ()
      ensures subs == {} && backlog == []
    {
      subs, backlog := {}, [];
    }

    method Publish(e: Event, now: Time)
      modifies this`backlog, subs
      ensures backlog == Trim(old(backlog) + [e.Stamped(now)])
      ensures forall ch :: ch in subs ==> ch.queue == Offer(old(ch.queue), e.Stamped(now))
    {
      var stamped := e.Stamped(now);
      backlog := backlog + [stamped];
      if |backlog| > EVENT_BACKLOG {
        backlog := backlog[|backlog| - EVENT_BACKLOG..];
      }
      var waiting := subs;
      while waiting != {}
        invariant waiting <= subs && backlog == Trim(old(backlog) + [stamped])
        invariant forall ch :: ch in subs ==>
                                 ch.queue == if ch in waiting then old(ch.queue) else Offer(old(ch.queue), stamped)
        decreases |waiting|
      {
        var ch :| ch in waiting;
        if |ch.queue| < SUB_BUFFER {
          ch.queue := ch.queue + [stamped];
        }
        waiting := waiting - {ch};
      }
    }

    method Subscribe() returns (history: seq<Event>, ch: Channel)
      modifies this`subs
      ensures history == backlog
      ensures fresh(ch) && ch.queue == [] && subs == old(subs) + {ch}
    {
      ch := new Channel();
      history := backlog;
      subs := subs + {ch};
    }

    method Unsubscribe(ch: Channel)
      modifies this`subs
      ensures subs == old(subs) - {ch}
    {
      subs := subs - {ch};
    }
  }

  // ---- Runs -------------------------------------------------------------------------------------

  /** A subscriber: what it was handed on subscribing when `start` events had been published, what waits in
      its channel and what it has received. The positions in the log of all it was ever sent, and whether a
      send to it was ever dropped, are history. */
  datatype Sub = Sub(history: seq<Event>, start: nat, queue: seq<Event>, received: seq<Event>, live: bool,
                     positions: seq<nat>, dropped: bool)

  datatype System = System(log: seq<Event>, backlog: seq<Event>, subs: map<nat, Sub>)

  datatype Action = Publish(e: Event, now: Time) | Subscribe(id: nat) | Receive(id: nat) | Unsubscribe(id: nat)

  predicate Enabled(s: System, a: Action) {
    match a
    case Publish(_, _) => true
    case Subscribe(id) => id !in s.subs
    case Receive(id) => id in s.subs && s.subs[id].queue != []
    case Unsubscribe(id) => id in s.subs
  }

  function Sent(sub: Sub, e: Event, position: nat): Sub {
    if !sub.live then sub
    else if |sub.queue| < SUB_BUFFER then sub.(queue := Offer(sub.queue, e), positions := sub.positions + [position])
    else sub.(queue := Offer(sub.queue, e), dropped := true)
  }

  function Next(s: System, a: Action): System
    requires Enabled(s, a)
  {
    match a
    case Publish(e, now) =>
      System(s.log + [e.Stamped(now)], Trim(s.backlog + [e.Stamped(now)]),
             map id | id in s.subs :: Sent(s.subs[id], e.Stamped(now), |s.log|))
    case Subscribe(id) => s.(subs := s.subs[id := Sub(s.backlog, |s.log|, [], [], true, [], false)])
    case Receive(id) =>
      var sub := s.subs[id];
      var (e, queue) := Receipt(sub.queue);
      s.(subs := s.subs[id := sub.(queue := queue, received := sub.received + [e])])
    case Unsubscribe(id) => s.(subs := s.subs[id := s.subs[id].(live := false)])
  }

  const START: System := System([], [], map[])

  ghost predicate Run(s: System, actions: seq<Action>, s': System)
    decreases |actions|
  {
    if actions == [] then s' == s
    else Enabled(s, actions[0]) && Run(Next(s, actions[0]), actions[1..], s')
  }

  /** The last `EVENT_BACKLOG` entries, or all when there are fewer. */
  function Tail<T>(log: seq<T>): seq<T> {
    log[|log| - Min(EVENT_BACKLOG, |log|)..]
  }

  /** What reached the subscriber is the log at strictly increasing positions, none before it subscribed. */
  ghost predicate InOrder(log: seq<Event>, sub: Sub) {
    var sent := sub.received + sub.queue;
    && sub.start <= |log|
    && |sent| == |sub.positions|
    && (forall i :: 0 <= i < |sent| ==> sub.start <= sub.positions[i] < |log| && sent[i] == log[sub.positions[i]])
    && (forall i, j :: 0 <= i < j < |sent| ==> sub.positions[i] < sub.positions[j])
  }

  ghost predicate Faithful(log: seq<Event>, sub: Sub) {
    && InOrder(log, sub)
    && sub.history == Tail(log[..sub.start])
    && (sub.live && !sub.dropped ==> sub.received + sub.queue == log[sub.start..])
  }

  ghost predicate Inv(s: System) {
    && s.backlog == Tail(s.log)
    && forall id :: id in s.subs ==> Faithful(s.log, s.subs[id])
  }

  lemma TrimmingKeepsTheTail(log: seq<Event>, e: Event)
    ensures Trim(Tail(log) + [e]) == Tail(log + [e])
  {}

  lemma PublishingKeepsOrder(log: seq<Event>, sub: Sub, e: Event)
    requires InOrder(log, sub)
    ensures InOrder(log + [e], Sent(sub, e, |log|))
  {
    var sub' := Sent(sub, e, |log|);
    if sub.live && |sub.queue| < SUB_BUFFER {
      assert sub'.received + sub'.queue == sub.received + sub.queue + [e];
    }
  }

  lemma PublishingIsFaithful(log: seq<Event>, sub: Sub, e: Event)
    requires Faithful(log, sub)
    ensures Faithful(log + [e], Sent(sub, e, |log|))
  {
    PublishingKeepsOrder(log, sub, e);
    var log', sub' := log + [e], Sent(sub, e, |log|);
    assert log'[..sub.start] == log[..sub.start];
    assert log'[sub.start..] == log[sub.start..] + [e];
    if sub.live && |sub.queue| < SUB_BUFFER {
      assert sub'.received + sub'.queue == sub.received + sub.queue + [e];
    }
  }

  lemma ReceivingIsFaithful(log: seq<Event>, sub: Sub)
    requires Faithful(log, sub) && sub.queue != []
    ensures Faithful(log, sub.(queue := sub.queue[1..], received := sub.received + [sub.queue[0]]))
  {
    assert sub.received + [sub.queue[0]] + sub.queue[1..] == sub.received + sub.queue;
  }

  lemma StepKeepsInv(s: System, a: Action)
    requires Inv(s) && Enabled(s, a)
    ensures Inv(Next(s, a))
  {
    match a
    case Publish(e, now) =>
      TrimmingKeepsTheTail(s.log, e.Stamped(now));
      forall id | id in s.subs
        ensures Faithful(s.log + [e.Stamped(now)], Sent(s.subs[id], e.Stamped(now), |s.log|))
      {
        PublishingIsFaithful(s.log, s.subs[id], e.Stamped(now));
      }
    case Subscribe(id) =>
      assert s.log[..|s.log|] == s.log;
    case Receive(id) =>
      ReceivingIsFaithful(s.log, s.subs[id]);
    case Unsubscribe(id) =>
  }

  lemma {:induction false} RunKeepsInv(s: System, actions: seq<Action>, s': System)
    requires Inv(s) && Run(s, actions, s')
    ensures Inv(s')
    decreases |actions|
  {
    if actions == [] {
    } else {
      StepKeepsInv(s, actions[0]);
      RunKeepsInv(Next(s, actions[0]), actions[1..], s');
    }
  }

  /** The backlog is the last hundred events published, in every interleaving. */
  lemma BacklogIsTheTailOfTheLog(actions: seq<Action>, s: System)
    requires Run(START, actions, s)
    ensures s.backlog == Tail(s.log)
  {
    RunKeepsInv(START, actions, s);
  }

  /** A subscriber's history and what it receives after it are the log in order, without repeats; with no
      send ever dropped they are its contiguous run from the backlog onward. */
  lemma SubscribersSeeTheLogInOrder(actions: seq<Action>, s: System, id: nat)
    requires Run(START, actions, s) && id in s.subs
    ensures var sub := s.subs[id];
            && InOrder(s.log, sub)
            && sub.history == Tail(s.log[..sub.start])
            && (sub.live && !sub.dropped ==>
                  sub.history + sub.received + sub.queue == s.log[sub.start - |sub.history|..])
  {
    RunKeepsInv(START, actions, s);
    var sub := s.subs[id];
    assert sub.history == s.log[sub.start - |sub.history|..sub.start];
    if sub.live && !sub.dropped {
      assert s.log[sub.start - |sub.history|..sub.start] + s.log[sub.start..] == s.log[sub.start - |sub.history|..];
      assert sub.history + sub.received + sub.queue == sub.history + (sub.received + sub.queue);
    }
  }

  /** Some publish of the run finds the subscriber's channel full. */
  ghost predicate FindsFull(s: System, actions: seq<Action>, id: nat, s': System)
    requires Run(s, actions, s')
    decreases |actions|
  {
    actions != []
    && ((actions[0].Publish? && id in s.subs && s.subs[id].live && |s.subs[id].queue| >= SUB_BUFFER)
        || FindsFull(Next(s, actions[0]), actions[1..], id, s'))
  }

  lemma {:induction false} DroppedMeansFoundFull(s: System, actions: seq<Action>, s': System, id: nat)
    requires Run(s, actions, s') && id in s'.subs
    requires id in s.subs ==> !s.subs[id].dropped
    ensures s'.subs[id].dropped <==> FindsFull(s, actions, id, s')
    decreases |actions|
  {
    if actions == [] {
    } else {
      var next := Next(s, actions[0]);
      if id in next.subs && next.subs[id].dropped {
        DroppedIsDropped(next, actions[1..], s', id);
      } else {
        DroppedMeansFoundFull(next, actions[1..], s', id);
      }
    }
  }

  lemma {:induction false} DroppedIsDropped(s: System, actions: seq<Action>, s': System, id: nat)
    requires Run(s, actions, s') && id in s.subs && s.subs[id].dropped
    ensures id in s'.subs && s'.subs[id].dropped
    decreases |actions|
  {
    if actions == [] {
    } else {
      DroppedIsDropped(Next(s, actions[0]), actions[1..], s', id);
    }
  }

  /** A live subscriber has missed nothing since its history exactly when no publish ever found 64 events
      waiting in its channel. */
  lemma NothingMissedExactlyWhileThereIsRoom(actions: seq<Action>, s: System, id: nat)
    requires Run(START, actions, s) && id in s.subs && s.subs[id].live
    ensures s.subs[id].start <= |s.log|
    ensures s.subs[id].received + s.subs[id].queue == s.log[s.subs[id].start..] <==> !FindsFull(START, actions, id, s)
  {
    RunKeepsInv(START, actions, s);
    DroppedMeansFoundFull(START, actions, s, id);
    DroppedMeansMissed(START, actions, s, id);
  }

  /** A dropped event is missing for good. */
  ghost predicate MissesSome(s: System, id: nat) {
    id in s.subs && s.subs[id].live ==>
      && s.subs[id].start <= |s.log|
      && |s.subs[id].received| + |s.subs[id].queue| + (if s.subs[id].dropped then 1 else 0)
         <= |s.log| - s.subs[id].start
  }

  lemma {:induction false} DroppedMeansMissed(s: System, actions: seq<Action>, s': System, id: nat)
    requires Run(s, actions, s') && MissesSome(s, id)
    ensures MissesSome(s', id)
    decreases |actions|
  {
    if actions == [] {
    } else {
      DroppedMeansMissed(Next(s, actions[0]), actions[1..], s', id);
    }
  }

  /** An event keeps everything it carries, and the time it came with if it came with one. */
  lemma StampAddsATimeOnly(e: Event, now: Time)
    ensures var stamped := e.Stamped(now);
            && stamped.kind == e.kind && stamped.agentId == e.agentId && stamped.message == e.message
            && stamped.at == Some(if e.at.Some? then e.at.value else now)
  {}

  /** What was published, with its times, in order. */
  function Published(actions: seq<Action>): seq<Event> {
    if actions == [] then []
    else (if actions[0].Publish? then [actions[0].e.Stamped(actions[0].now)] else []) + Published(actions[1..])
  }

  /** The log is what was published, and nothing else. */
  lemma {:induction false} LogIsWhatWasPublished(s: System, actions: seq<Action>, s': System)
    requires Run(s, actions, s')
    ensures s'.log == s.log + Published(actions)
    decreases |actions|
  {
    if actions == [] {
    } else {
      var next, first := Next(s, actions[0]), actions[0];
      LogIsWhatWasPublished(next, actions[1..], s');
      Associates(s.log, if first.Publish? then [first.e.Stamped(first.now)] else [], Published(actions[1..]));
      assert first.Publish? || next.log == s.log + [];
    }
  }

  /** After unsubscribing nothing more is sent: what had been received or was waiting is all there ever is. */
  lemma {:induction false} UnsubscribedGetsNoMore(s: System, actions: seq<Action>, s': System, id: nat)
    requires Run(s, actions, s') && id in s.subs && !s.subs[id].live
    ensures id in s'.subs && !s'.subs[id].live
    ensures s'.subs[id].received + s'.subs[id].queue == s.subs[id].received + s.subs[id].queue
    decreases |actions|
  {
    if actions == [] {
    } else {
      var sub, next := s.subs[id], Next(s, actions[0]);
      assert sub.queue != [] ==> sub.received + [sub.queue[0]] + sub.queue[1..] == sub.received + sub.queue;
      UnsubscribedGetsNoMore(next, actions[1..], s', id);
    }
  }
}
