/** Several goroutines writing frames to one connection behind a mutex (client/sshcmd.go). */
module FrameWriter {
  import opened Basics
  import opened Streams
  import opened PtyFrames

  /** A terminal size in cells, cut to the sixteen bits the frame has room for; none is sent without a terminal. */
  function ResizeFrame(cols: int, rows: int): Option<Frame> {
    if cols <= 0 || rows <= 0 then None
    else Some(Frame(PTY_RESIZE, PTYResizePayload(cols % 0x1_0000, rows % 0x1_0000)))
  }

  class FrameWriter {
    const w: Sink

    constructor (w: Sink)
      ensures this.w == w
    {
      this.w := w;
    }

    method Data(p: Bytes) returns (ok: bool)
      modifies w
      ensures ok <==> |p| <= MAX_PTY_FRAME && |Encode(Frame(PTY_DATA, p))| <= old(w.room)
      ensures w.written == old(w.written)
                           + (if |p| <= MAX_PTY_FRAME then Accepted(Encode(Frame(PTY_DATA, p)), old(w.room)) else [])
    {
      ok := WritePTYFrame(w, Frame(PTY_DATA, p));
    }

    /** The write's own result is dropped, as in the source; `sent` keeps it for the contract. */
    method Resize(cols: int, rows: int) returns (ghost sent: bool)
      modifies w
      ensures var f := ResizeFrame(cols, rows);
              if f.None? then !sent && w.written == old(w.written)
              else w.written == old(w.written) + Accepted(Encode(f.value), old(w.room))
                   && (sent <==> |Encode(f.value)| <= old(w.room))
    {
      sent := false;
      if cols <= 0 || rows <= 0 {
        return;
      }
      sent := WritePTYFrame(w, Frame(PTY_RESIZE, PTYResizePayload(cols % 0x1_0000, rows % 0x1_0000)));
    }
  }

  lemma ResizeCarriesTheSize(cols: int, rows: int)
    requires 0 < cols < 0x1_0000 && 0 < rows < 0x1_0000
    ensures ResizeFrame(cols, rows).Some? && Sizes([ResizeFrame(cols, rows).value]) == [(cols, rows)]
  {
    SizeRoundTrip(cols, rows, []);
    var f := ResizeFrame(cols, rows).value;
    assert [f][1..] == [];
  }

  /** What an operator does at a terminal. */
  datatype Gesture = Typed(p: Bytes) | Resized(cols: int, rows: int)

  function FramesOf(gs: seq<Gesture>): seq<Frame> {
    if gs == [] then []
    else
      (match gs[0]
       case Typed(p) => [Frame(PTY_DATA, p)]
       case Resized(cols, rows) =>
         match ResizeFrame(cols, rows) case Some(f) => [f] case None => [])
      + FramesOf(gs[1..])
  }

  function TypedBytes(gs: seq<Gesture>): Bytes {
    if gs == [] then [] else (if gs[0].Typed? then gs[0].p else []) + TypedBytes(gs[1..])
  }

  function UsableSizes(gs: seq<Gesture>): seq<(int, int)> {
    if gs == [] then []
    else
      (if gs[0].Resized? && gs[0].cols > 0 && gs[0].rows > 0
       then [(gs[0].cols % 0x1_0000, gs[0].rows % 0x1_0000)] else [])
      + UsableSizes(gs[1..])
  }

  /** What is typed and sized at one end is what the terminal at the other is fed and given. */
  lemma {:induction false} GesturesArrive(gs: seq<Gesture>)
    ensures Keystrokes(FramesOf(gs)) == TypedBytes(gs) && Sizes(FramesOf(gs)) == UsableSizes(gs)
  {
    if gs == [] {
    } else {
      GesturesArrive(gs[1..]);
      var rest := FramesOf(gs[1..]);
      match gs[0]
      case Typed(p) =>
        FirstFrameFeeds(Frame(PTY_DATA, p), rest);
      case Resized(cols, rows) =>
        if cols > 0 && rows > 0 {
          SizeRoundTrip(cols % 0x1_0000, rows % 0x1_0000, []);
          FirstFrameFeeds(ResizeFrame(cols, rows).value, rest);
        } else {
          assert FramesOf(gs) == rest;
        }
    }
  }

  lemma FirstFrameFeeds(f: Frame, rest: seq<Frame>)
    ensures Keystrokes([f] + rest) == FrameKeys(f) + Keystrokes(rest)
    ensures Sizes([f] + rest) == FrameSizes(f) + Sizes(rest)
  {
    assert ([f] + rest)[1..] == rest;
  }

  /** Frames of any other type, and sizes of any other length, do nothing. */
  lemma OtherFramesDoNothing(f: Frame)
    requires (f.kind != 0 && f.kind != 1) || (f.kind == 1 && |f.payload| != 4)
    ensures FrameKeys(f) == [] && FrameSizes(f) == []
  {}

  // ---- Interleavings, one wire write at a time ---------------------------------------------------

  datatype Phase = Idle | Locked | HeaderSent

  /** A goroutine with the frames it will send, in order; `next` is the one it is at. */
  datatype Writer = Writer(frames: seq<Frame>, next: nat, phase: Phase)

  /** `log` is the frames that went out whole, with their writers; `broken` a connection whose write failed. */
  datatype System = System(writers: seq<Writer>, holder: Option<nat>, wire: Bytes, broken: bool, log: seq<(nat, Frame)>)

  datatype Action =
    | Acquire(i: nat)
    | WriteHeader(i: nat, sent: nat)
    | WritePayload(i: nat, sent: nat)

  predicate Holds(s: System, i: nat, phase: Phase) {
    i < |s.writers| && s.holder == Some(i) && s.writers[i].phase == phase && s.writers[i].next < |s.writers[i].frames|
  }

  /** The mutex admits one holder; `sent` says how much of the piece a write got out. */
  predicate Enabled(s: System, a: Action) {
    match a
    case Acquire(i) =>
      i < |s.writers| && s.holder.None? && s.writers[i].phase == Idle && s.writers[i].next < |s.writers[i].frames|
    case WriteHeader(i, sent) => Holds(s, i, Locked) && sent <= HEADER
    case WritePayload(i, sent) => Holds(s, i, HeaderSent) && Current(s, i).Fits() && sent <= |Current(s, i).payload|
  }

  function Current(s: System, i: nat): Frame
    requires i < |s.writers| && s.writers[i].next < |s.writers[i].frames|
  {
    s.writers[i].frames[s.writers[i].next]
  }

  function Release(s: System, i: nat): System
    requires i < |s.writers|
  {
    s.(writers := s.writers[i := s.writers[i].(next := s.writers[i].next + 1, phase := Idle)], holder := None)
  }

  function Next(s: System, a: Action): System
    requires Enabled(s, a)
  {
    match a
    case Acquire(i) => s.(holder := Some(i), writers := s.writers[i := s.writers[i].(phase := Locked)])
    case WriteHeader(i, sent) =>
      var f := Current(s, i);
      if !f.Fits() || s.broken then Release(s, i)
      else if sent < HEADER then Release(s.(wire := s.wire + Header(f)[..sent], broken := true), i)
      else s.(wire := s.wire + Header(f), writers := s.writers[i := s.writers[i].(phase := HeaderSent)])
    case WritePayload(i, sent) =>
      var f := Current(s, i);
      if s.broken then Release(s, i)
      else if sent < |f.payload| then Release(s.(wire := s.wire + f.payload[..sent], broken := true), i)
      else Release(s.(wire := s.wire + f.payload, log := s.log + [(i, f)]), i)
  }

  function Start(queues: seq<seq<Frame>>): System {
    System(seq(|queues|, i requires 0 <= i < |queues| => Writer(queues[i], 0, Idle)), None, [], false, [])
  }

  ghost predicate Run(s: System, actions: seq<Action>, s': System)
    decreases |actions|
  {
    if actions == [] then s' == s
    else Enabled(s, actions[0]) && Run(Next(s, actions[0]), actions[1..], s')
  }

  // ---- The wire is always a merge ------------------------------------------------------------------

  function Frames(log: seq<(nat, Frame)>): seq<Frame> {
    if log == [] then [] else Frames(DropLast(log)) + [Last(log).1]
  }

  /** The frames of one writer in the log, in order. */
  function Sent(log: seq<(nat, Frame)>, i: nat): seq<Frame> {
    if log == [] then []
    else Sent(DropLast(log), i) + if Last(log).0 == i then [Last(log).1] else []
  }

  /** What a writer has tried to send so far. */
  function Attempted(w: Writer): seq<Frame> {
    w.frames[..Min(w.next, |w.frames|)]
  }

  /** A frame over the size bound is refused before anything is written. */
  function Sendable(fs: seq<Frame>): seq<Frame> {
    if fs == [] then [] else Sendable(DropLast(fs)) + if Last(fs).Fits() then [Last(fs)] else []
  }

  /** After the whole frames the wire stops k bytes into f. */
  predicate Torn(wire: Bytes, whole: Bytes, f: Frame, k: nat) {
    f.Fits() && k < |Encode(f)| && wire == whole + Encode(f)[..k]
  }

  /** The whole frames logged, then at most one frame in progress. */
  ghost predicate WireIsALog(s: System) {
    && AllFit(Frames(s.log))
    && var whole := EncodeAll(Frames(s.log));
       if s.broken then exists f: Frame, k: nat :: Torn(s.wire, whole, f, k)
       else if s.holder.Some? && Holds(s, s.holder.value, HeaderSent) then
         Current(s, s.holder.value).Fits() && s.wire == whole + Header(Current(s, s.holder.value))
       else s.wire == whole
  }

  predicate SentInOrder(s: System, i: nat)
    requires i < |s.writers|
  {
    if s.broken then Sent(s.log, i) <= Sendable(Attempted(s.writers[i]))
    else Sent(s.log, i) == Sendable(Attempted(s.writers[i]))
  }

  ghost predicate WritersAreInOrder(s: System) {
    forall i :: 0 <= i < |s.writers| ==>
      && s.writers[i].next <= |s.writers[i].frames|
      && (s.writers[i].phase != Idle <==> s.holder == Some(i))
      && (s.writers[i].phase != Idle ==> s.writers[i].next < |s.writers[i].frames|)
      && SentInOrder(s, i)
  }

  ghost predicate Inv(s: System) {
    WireIsALog(s) && WritersAreInOrder(s)
  }

  lemma {:induction false} EncodeAllAppends(fs: seq<Frame>, f: Frame)
    requires AllFit(fs) && f.Fits()
    ensures AllFit(fs + [f]) && EncodeAll(fs + [f]) == EncodeAll(fs) + Encode(f)
  {
    EncodeAllSplits(fs + [f], |fs|);
    assert (fs + [f])[..|fs|] == fs && (fs + [f])[|fs|..] == [f];
    assert EncodeAll([f]) == Encode(f) + EncodeAll([]) by { assert [f][1..] == []; }
  }

  lemma TornInTheHeader(whole: Bytes, f: Frame, sent: nat)
    requires f.Fits() && sent < HEADER
    ensures Torn(whole + Header(f)[..sent], whole, f, sent)
  {
    assert Header(f)[..sent] == Encode(f)[..sent];
  }

  lemma TornInThePayload(whole: Bytes, f: Frame, sent: nat)
    requires f.Fits() && sent < |f.payload|
    ensures Torn(whole + Header(f) + f.payload[..sent], whole, f, HEADER + sent)
  {
    assert Header(f) + f.payload[..sent] == Encode(f)[..HEADER + sent];
  }

  lemma FrameGoesOut(log: seq<(nat, Frame)>, i: nat, f: Frame)
    requires AllFit(Frames(log)) && f.Fits()
    ensures AllFit(Frames(log + [(i, f)]))
    ensures EncodeAll(Frames(log + [(i, f)])) == EncodeAll(Frames(log)) + Header(f) + f.payload
  {
    assert DropLast(log + [(i, f)]) == log;
    EncodeAllAppends(Frames(log), f);
  }

  lemma StepKeepsTheWire(s: System, a: Action)
    requires Inv(s) && Enabled(s, a)
    ensures WireIsALog(Next(s, a))
  {
    var whole := EncodeAll(Frames(s.log));
    match a
    case Acquire(i) =>
    case WriteHeader(i, sent) =>
      var f := Current(s, i);
      if f.Fits() && !s.broken && sent < HEADER {
        TornInTheHeader(whole, f, sent);
      }
    case WritePayload(i, sent) =>
      var f := Current(s, i);
      if !s.broken {
        if sent < |f.payload| {
          TornInThePayload(whole, f, sent);
        } else {
          FrameGoesOut(s.log, i, f);
        }
      }
  }

  lemma SentAppends(log: seq<(nat, Frame)>, j: nat, f: Frame, i: nat)
    ensures Sent(log + [(j, f)], i) == Sent(log, i) + if i == j then [f] else []
  {
    assert DropLast(log + [(j, f)]) == log;
  }

  lemma AttemptingOneMore(w: Writer)
    requires w.next < |w.frames|
    ensures Sendable(Attempted(w.(next := w.next + 1))) ==
            Sendable(Attempted(w)) + if w.frames[w.next].Fits() then [w.frames[w.next]] else []
  {
    assert DropLast(w.frames[..w.next + 1]) == w.frames[..w.next];
  }

  /** How one step moves the writer it belongs to and the log: it stays at its frame, gives the frame up
      with the connection broken or the frame too large, or gets it out whole. */
  ghost predicate Moves(s: System, s': System, i: nat)
    requires i < |s.writers|
  {
    && |s'.writers| == |s.writers|
    && (forall j :: 0 <= j < |s.writers| && j != i ==> s'.writers[j] == s.writers[j])
    && var w, w' := s.writers[i], s'.writers[i];
       && w.next < |w.frames| && w'.frames == w.frames
       && (s.broken ==> s'.broken)
       && ((w'.next == w.next && s'.log == s.log && s'.broken == s.broken)
           || (w'.next == w.next + 1 && s'.log == s.log && (s'.broken || (!s.broken && !w.frames[w.next].Fits())))
           || (w'.next == w.next + 1 && s'.log == s.log + [(i, w.frames[w.next])]
               && !s'.broken && w.frames[w.next].Fits()))
  }

  lemma StepMoves(s: System, a: Action)
    requires Enabled(s, a)
    ensures Moves(s, Next(s, a), a.i)
  {}

  lemma MovingKeepsOrder(s: System, s': System, i: nat, j: nat)
    requires i < |s.writers| && j < |s.writers| && Moves(s, s', i) && SentInOrder(s, j)
    ensures SentInOrder(s', j)
  {
    var w := s.writers[i];
    SentAppends(s.log, i, w.frames[w.next], j);
    AttemptingOneMore(w);
    assert Attempted(s'.writers[i]) == Attempted(w.(next := s'.writers[i].next));
  }

  lemma StepKeepsTheOrder(s: System, a: Action)
    requires Inv(s) && Enabled(s, a)
    ensures WritersAreInOrder(Next(s, a))
  {
    forall i | 0 <= i < |s.writers|
      ensures SentInOrder(Next(s, a), i)
    {
      StepMoves(s, a);
      MovingKeepsOrder(s, Next(s, a), a.i, i);
    }
  }

  lemma {:induction false} RunKeepsInv(s: System, actions: seq<Action>, s': System)
    requires Inv(s) && Run(s, actions, s')
    ensures Inv(s')
    decreases |actions|
  {
    if actions == [] {
    } else {
      StepKeepsTheWire(s, actions[0]);
      StepKeepsTheOrder(s, actions[0]);
      RunKeepsInv(Next(s, actions[0]), actions[1..], s');
    }
  }

  /** The frame whose header is out and whose payload is empty is already whole. */
  function InProgress(s: System): seq<Frame> {
    if !s.broken && s.holder.Some? && Holds(s, s.holder.value, HeaderSent) && Current(s, s.holder.value).payload == []
    then [Current(s, s.holder.value)] else []
  }

  /** A write that gets out less than it was given. */
  predicate IsShort(s: System, a: Action)
    requires Enabled(s, a)
  {
    match a
    case Acquire(_) => false
    case WriteHeader(i, sent) => Current(s, i).Fits() && sent < HEADER
    case WritePayload(i, sent) => sent < |Current(s, i).payload|
  }

  ghost predicate HasShortWrite(s: System, actions: seq<Action>, s': System)
    requires Run(s, actions, s')
    decreases |actions|
  {
    actions != [] && (IsShort(s, actions[0]) || HasShortWrite(Next(s, actions[0]), actions[1..], s'))
  }

  /** The connection is broken exactly when some write was short. */
  lemma {:induction false} BrokenExactlyByAShortWrite(s: System, actions: seq<Action>, s': System)
    requires Run(s, actions, s')
    ensures s'.broken <==> s.broken || HasShortWrite(s, actions, s')
    decreases |actions|
  {
    if actions == [] {
    } else {
      BrokenExactlyByAShortWrite(Next(s, actions[0]), actions[1..], s');
    }
  }

  ghost predicate LogNamesWriters(s: System) {
    forall k :: 0 <= k < |s.log| ==> s.log[k].0 < |s.writers|
  }

  lemma {:induction false} RunNamesWriters(s: System, actions: seq<Action>, s': System)
    requires LogNamesWriters(s) && Run(s, actions, s')
    ensures LogNamesWriters(s')
    decreases |actions|
  {
    if actions == [] {
    } else {
      StepMoves(s, actions[0]);
      RunNamesWriters(Next(s, actions[0]), actions[1..], s');
    }
  }

  /** At every moment of every interleaving the wire decodes to the log: a merge in which each writer's
      frames are intact and in order, complete up to where it stands unless the connection has broken. */
  lemma WireDecodesToAMerge(queues: seq<seq<Frame>>, actions: seq<Action>, s: System, i: nat)
    requires Run(Start(queues), actions, s) && i < |s.writers|
    ensures DecodeAll(s.wire).0 == Frames(s.log) + InProgress(s) && LogNamesWriters(s)
    ensures Sent(s.log, i) <= Sendable(Attempted(s.writers[i]))
    ensures !s.broken ==> Sent(s.log, i) == Sendable(Attempted(s.writers[i]))
  {
    RunKeepsInv(Start(queues), actions, s);
    RunNamesWriters(Start(queues), actions, s);
    WireDecodes(s);
  }

  lemma WireDecodes(s: System)
    requires WireIsALog(s)
    ensures DecodeAll(s.wire).0 == Frames(s.log) + InProgress(s)
  {
    var fs := Frames(s.log);
    if s.broken {
      var f: Frame, k: nat :| Torn(s.wire, EncodeAll(fs), f, k);
      PartialFrameIsNotDecoded(fs, f, k);
    } else if s.holder.Some? && Holds(s, s.holder.value, HeaderSent) {
      var f := Current(s, s.holder.value);
      if f.payload == [] {
        EncodeAllAppends(fs, f);
        RoundTrip(fs + [f]);
        assert Encode(f) == Header(f);
      } else {
        PartialFrameIsNotDecoded(fs, f, HEADER);
        assert Encode(f)[..HEADER] == Header(f);
      }
    } else {
      RoundTrip(fs);
    }
  }

  lemma {:induction false} WholeFramesOfAll(fs: seq<Frame>, f: Frame, k: nat)
    requires AllFit(fs) && f.Fits() && k < |Encode(f)|
    ensures WholeFrames(fs + [f], |EncodeAll(fs)| + k) == |fs|
  {
    if fs == [] {
    } else {
      WholeFramesOfAll(fs[1..], f, k);
      assert (fs + [f])[1..] == fs[1..] + [f];
    }
  }

  lemma PartialFrameIsNotDecoded(fs: seq<Frame>, f: Frame, k: nat)
    requires AllFit(fs) && f.Fits() && k < |Encode(f)|
    ensures DecodeAll(EncodeAll(fs) + Encode(f)[..k]).0 == fs
  {
    var n := |EncodeAll(fs)| + k;
    assert AllFit(fs + [f]) && n <= |EncodeAll(fs + [f])|
           && EncodeAll(fs + [f])[..n] == EncodeAll(fs) + Encode(f)[..k] by {
      EncodeAllAppends(fs, f);
    }
    WholeFramesOfAll(fs, f, k);
    EveryPrefixDecodesToItsWholeFrames(fs + [f], n);
    assert (fs + [f])[..|fs|] == fs;
  }
}
