/** One forwarded connection, end to end: the lines that open it, the status that answers, and the raw
    pipe it becomes (internal/protocol/forward.go, client/forward.go, client/forwardcmd.go, server/forward.go). */
module Forward {
  import opened Basics
  import opened Text
  import opened Streams

  const STREAM_FORWARD: Bytes := [102, 111, 114, 119, 97, 114, 100] // "forward"
  const SERVICE_DEV: Bytes := [100, 101, 118]                      // "dev"
  const FORWARD_OK: Bytes := [111, 107]                            // "ok"
  const ERROR: Bytes := [101, 114, 114, 111, 114]                  // "error"
  const FORWARD_MAX_ERROR: nat := 512

  // ---- Header and target lines -------------------------------------------------------------

  function StreamHeader(kind: Bytes): Bytes {
    kind + [NEWLINE]
  }

  /** A service name with a line break in it is refused before anything is written. */
  function ForwardTarget(service: Bytes): Option<Bytes> {
    if NEWLINE in service || RETURN in service then None else Some(service + [NEWLINE])
  }

  /** What a reader of such a line makes of it: None when nothing is left after trimming. */
  function LineValue(line: Bytes): Option<Bytes> {
    if TrimSpace(line) == [] then None else Some(TrimSpace(line))
  }

  /** Exactly these chunks are pulled in for a line, and `left` is held behind it. */
  ghost predicate Pulls(buf: Bytes, chunks: seq<Bytes>, left: Bytes) {
    PullLine(buf, chunks).Some? && PullLine(buf, chunks).value.buf == left && PullLine(buf, chunks).value.later == []
  }

  /** ReadStreamHeader and ReadForwardTarget are this same reader. */
  method ReadName(br: BufReader) returns (name: Option<Bytes>)
    modifies br, br.src
    ensures match Cut(old(br.Unread()), NEWLINE)
            case None => name == None && br.Unread() == []
            case Some((before, after)) =>
              && name == LineValue(before + [NEWLINE]) && br.Unread() == after
              && old(br.src.chunks) <= br.src.chunks
              && Pulls(old(br.buf), br.src.chunks[|old(br.src.chunks)|..], br.buf)
  {
    var line, ok := br.ReadLine();
    if !ok {
      return None;
    }
    var trimmed := TrimSpace(line);
    name := if trimmed == [] then None else Some(trimmed);
  }

  lemma NameLine(name: Bytes)
    ensures TrimSpace(name + [NEWLINE]) == TrimSpace(name)
  {
    TrimDropsTrailingRune(name, [NEWLINE]);
  }

  /** A target the writer accepts arrives as itself exactly when it is non-empty and carries no outer white
      space, and always without swallowing a byte of what follows. */
  lemma TargetArrivesExactlyWhenTrimmed(service: Bytes, more: Bytes)
    requires 10 !in service && 13 !in service
    ensures ForwardTarget(service) == Some(service + [10])
    ensures Cut(ForwardTarget(service).value + more, NEWLINE) == Some((service, more))
    ensures LineValue(ForwardTarget(service).value) == Some(service) <==> service != [] && TrimSpace(service) == service
  {
    CutAtFirst(service, NEWLINE, more);
    NameLine(service);
  }

  /** " ssh" is accepted by the writer and read as "ssh"; a lone space is accepted and read as an error. */
  lemma PaddedTargetsChange()
    ensures var padded: Bytes, ssh: Bytes := [SPACE, 115, 115, 104], [115, 115, 104];
            && ForwardTarget(padded).Some? && LineValue(ForwardTarget(padded).value) == Some(ssh)
            && ForwardTarget([SPACE]).Some? && LineValue(ForwardTarget([SPACE]).value) == None
  {
    var padded: Bytes, ssh: Bytes := [SPACE, 115, 115, 104], [115, 115, 104];
    NameLine(padded);
    assert padded[1..] == ssh && TrimLeft(padded) == TrimLeft(ssh) == ssh && TrimRight(ssh) == ssh;
    var space, none: Bytes := [SPACE], [];
    NameLine(space);
    assert space[1..] == none && TrimLeft(space) == TrimLeft(none) == none && TrimRight(none) == none;
  }

  /** The writer refuses exactly the names with a line feed or a carriage return in them. */
  lemma TargetIsRefusedExactly(service: Bytes)
    ensures ForwardTarget(service).None? <==> 10 in service || 13 in service
  {}

  lemma ForwardHeaderArrives(more: Bytes)
    ensures Cut(StreamHeader(STREAM_FORWARD) + more, NEWLINE) == Some((STREAM_FORWARD, more))
    ensures LineValue(StreamHeader(STREAM_FORWARD)) == Some(STREAM_FORWARD)
  {
    CutAtFirst(STREAM_FORWARD, NEWLINE, more);
    NameLine(STREAM_FORWARD);
  }

  // ---- The status line ------------------------------------------------------------------------

  function Flatten(text: Bytes): Bytes {
    seq(|text|, i requires 0 <= i < |text| => if text[i] == NEWLINE then SPACE else text[i])
  }

  function Truncate(text: Bytes): Bytes {
    if |text| > FORWARD_MAX_ERROR then text[..FORWARD_MAX_ERROR] else text
  }

  /** The text of a failure: every line feed a space, every other byte as it was, and at most the first 512. */
  lemma FailureTextIs(text: Bytes)
    ensures var sent := Truncate(Flatten(text));
            && |sent| == Min(|text|, 512)
            && forall i :: 0 <= i < |sent| ==> sent[i] == if text[i] == 10 then 32 else text[i]
  {}

  /** `cause` is the error's text, None for a nil error. */
  function StatusLine(cause: Option<Bytes>): Bytes {
    match cause
    case None => FORWARD_OK + [NEWLINE]
    case Some(text) => ERROR + [SPACE] + Truncate(Flatten(text)) + [NEWLINE]
  }

  function TrimPrefix(s: Bytes, p: Bytes): Bytes {
    if p <= s then s[|p|..] else s
  }

  datatype Status = Success | Failure(text: Bytes) | NoAnswer

  function StatusOfLine(line: Bytes): Status {
    var trimmed := TrimSpace(line);
    if trimmed == FORWARD_OK then Success else Failure(TrimSpace(TrimPrefix(trimmed, ERROR)))
  }

  method WriteForwardStatus(w: Sink, cause: Option<Bytes>) returns (ok: bool)
    modifies w
    ensures ok <==> |StatusLine(cause)| <= old(w.room)
    ensures w.written == old(w.written) + Accepted(StatusLine(cause), old(w.room))
    ensures w.room == RoomAfter(StatusLine(cause), old(w.room))
  {
    if cause.None? {
      ok := w.Write(FORWARD_OK + [NEWLINE]);
      return;
    }
    var msg := Flatten(cause.value);
    if |msg| > FORWARD_MAX_ERROR {
      msg := msg[..FORWARD_MAX_ERROR];
    }
    ok := w.Write(ERROR + [SPACE] + msg + [NEWLINE]);
  }

  method ReadForwardStatus(br: BufReader) returns (s: Status)
    modifies br, br.src
    ensures match Cut(old(br.Unread()), NEWLINE)
            case None => s == NoAnswer && br.Unread() == []
            case Some((before, after)) => s == StatusOfLine(before + [NEWLINE]) && br.Unread() == after
  {
    var line, ok := br.ReadLine();
    if !ok {
      return NoAnswer;
    }
    s := StatusOfLine(line);
  }

  /** Only "ok", white space aside, is success; anything else is a failure with the text after a leading "error". */
  lemma OnlyOkIsSuccess(line: Bytes, text: Bytes)
    ensures StatusOfLine(line) == Success <==> TrimSpace(line) == [111, 107]
    ensures StatusOfLine(line) != NoAnswer
    ensures TrimSpace(line) == ERROR + text ==> StatusOfLine(line) == Failure(TrimSpace(text))
    ensures TrimSpace(line) != [111, 107] && !(ERROR <= TrimSpace(line)) ==>
              StatusOfLine(line) == Failure(TrimSpace(line))
  {
    assert (ERROR + text)[|ERROR|..] == text;
    TrimmedIsTrimmed(line);
  }

  /** The writer emits exactly one line and the reader takes exactly that line, whatever the cause says. */
  lemma StatusIsOneLine(cause: Option<Bytes>, more: Bytes)
    ensures Cut(StatusLine(cause) + more, NEWLINE) == Some((DropLast(StatusLine(cause)), more))
    ensures DropLast(StatusLine(cause)) + [NEWLINE] == StatusLine(cause)
  {
    CutAtFirst(DropLast(StatusLine(cause)), NEWLINE, more);
  }

  /** What a reader should make of a cause. */
  function Told(cause: Option<Bytes>): Status {
    match cause
    case None => Success
    case Some(text) => Failure(TrimSpace(Truncate(Flatten(text))))
  }

  /** Success is read only for a nil cause; a failure carries the flattened, truncated, trimmed text. */
  lemma StatusRoundTrip(cause: Option<Bytes>)
    ensures StatusOfLine(StatusLine(cause)) == Told(cause)
  {
    match cause
    case None =>
      NameLine(FORWARD_OK);
    case Some(text) =>
      var m := Truncate(Flatten(text));
      var x := [SPACE] + m + [NEWLINE];
      assert StatusLine(cause) == ERROR + x;
      TrimRightStops(ERROR, x);
      assert TrimSpace(StatusLine(cause)) == ERROR + TrimRight(x);
      assert TrimPrefix(ERROR + TrimRight(x), ERROR) == TrimRight(x);
      TrimAfterTrimRight(x);
      TrimDropsTrailingRune([SPACE] + m, [NEWLINE]);
      assert TrimLeft([SPACE] + m) == TrimLeft(m) by { assert ([SPACE] + m)[1..] == m; }
  }

  // ---- The agent's side ---------------------------------------------------------------------------

  type Services = map<Bytes, Bytes>

  const DEFAULTS: Services := map[
    [114, 100, 112] := [49, 50, 55, 46, 48, 46, 48, 46, 49, 58, 51, 51, 56, 57], // "rdp": "127.0.0.1:3389"
    [115, 115, 104] := [49, 50, 55, 46, 48, 46, 48, 46, 49, 58, 50, 50]]         // "ssh": "127.0.0.1:22"

  /** The operator's entries win over the defaults, and an empty address withdraws a service. */
  method SetServices(configured: Services) returns (services: Services)
    ensures forall name :: name in services <==>
                             if name in configured then configured[name] != [] else name in DEFAULTS
    ensures forall name :: name in services ==>
                             services[name] == if name in configured then configured[name] else DEFAULTS[name]
  {
    services := DEFAULTS;
    var unread := configured.Keys;
    while unread != {}
      invariant unread <= configured.Keys
      invariant forall name :: name in services <==>
                                 if name in configured && name !in unread then configured[name] != []
                                 else name in DEFAULTS
      invariant forall name :: name in services ==>
                                 services[name] == if name in configured && name !in unread then configured[name]
                                                   else DEFAULTS[name]
      decreases |unread|
    {
      var name :| name in unread;
      if configured[name] == [] {
        services := services - {name};
      } else {
        services := services[name := configured[name]];
      }
      unread := unread - {name};
    }
  }

  datatype Refusal = NotOffered(service: Bytes) | NotAnswering(service: Bytes, addr: Bytes)

  /** What the agent offers, which addresses answer a dial, and how it words a refusal. */
  datatype Agent = Agent(services: Services, answers: Bytes -> bool, wording: Refusal -> Bytes)

  datatype Ending =
    | Unreadable
    | OtherKind(kind: Bytes)
    | Declined(refusal: Refusal)
    | Shell(payload: Bytes)
    | Piped(service: Bytes, addr: Bytes, payload: Bytes)
  {
    /** The status line the operator gets, if any. */
    function Reply(agent: Agent): Bytes {
      if Unreadable? || OtherKind? then [] else StatusLine(Cause(agent))
    }

    function Cause(agent: Agent): Option<Bytes> {
      if Declined? then Some(agent.wording(refusal)) else None
    }
  }

  /** What a forward stream comes to, as a function of the bytes that arrive after its header. */
  function ForwardPlan(arriving: Bytes, agent: Agent): Ending {
    match Cut(arriving, NEWLINE)
    case None => Unreadable
    case Some((before, after)) =>
      match LineValue(before + [NEWLINE])
      case None => Unreadable
      case Some(service) =>
        if service == SERVICE_DEV then Shell(after)
        else if service !in agent.services then Declined(NotOffered(service))
        else if !agent.answers(agent.services[service]) then Declined(NotAnswering(service, agent.services[service]))
        else Piped(service, agent.services[service], after)
  }

  function StreamPlan(arriving: Bytes, agent: Agent): Ending {
    match Cut(arriving, NEWLINE)
    case None => Unreadable
    case Some((before, after)) =>
      match LineValue(before + [NEWLINE])
      case None => Unreadable
      case Some(kind) => if kind == STREAM_FORWARD then ForwardPlan(after, agent) else OtherKind(kind)
  }

  /** Everything the agent writes back on a stream of this ending. */
  function Answer(end: Ending, agent: Agent, local: Bytes): Bytes {
    end.Reply(agent) + if end.Piped? then local else []
  }

  /** `inward` and `outward` say that the copy in that direction went through: it does exactly when the other side
      has room for all of it, and otherwise what there is room for arrives. A status line that does not go
      through ends the session. The embedded shell is handed the raw stream: it sees what the reader had not yet
      pulled in. */
  method HandleForward(br: BufReader, out: Sink, agent: Agent, toLocal: Sink, fromLocal: Wire)
    returns (end: Ending, ghost shellSees: Bytes, inward: bool, outward: bool)
    requires out != toLocal && br.src != fromLocal
    modifies br, br.src, out, toLocal, fromLocal
    ensures end == ForwardPlan(old(br.Unread()), agent)
    ensures out.written == old(out.written) + Accepted(Answer(end, agent, old(fromLocal.rest)), old(out.room))
    ensures var told := end.Piped? && |end.Reply(agent)| <= old(out.room);
            && toLocal.written == old(toLocal.written) + (if told then Accepted(end.payload, old(toLocal.room)) else [])
            && (inward <==> told && |end.payload| <= old(toLocal.room))
            && (outward <==> end.Piped? && |Answer(end, agent, old(fromLocal.rest))| <= old(out.room))
    ensures end.Shell? ==>
              && end.payload == br.buf + shellSees && shellSees == br.src.rest
              && old(br.src.chunks) <= br.src.chunks
              && Pulls(old(br.buf), br.src.chunks[|old(br.src.chunks)|..], br.buf)
  {
    inward, outward, shellSees := false, false, [];
    var service := ReadName(br);
    if service.None? {
      return Unreadable, [], false, false;
    }
    if service.value == SERVICE_DEV {
      end := Shell(br.buf + br.src.rest);
      shellSees := br.src.rest;
      WriteReply(out, end, agent);
      return;
    }
    if service.value !in agent.services {
      end := Declined(NotOffered(service.value));
      WriteReply(out, end, agent);
      return;
    }
    var addr := agent.services[service.value];
    if !agent.answers(addr) {
      end := Declined(NotAnswering(service.value, addr));
      WriteReply(out, end, agent);
      return;
    }
    end := Piped(service.value, addr, br.buf + br.src.rest);
    inward, outward := OpenPipe(br, out, toLocal, fromLocal);
  }

  /** The status of a session that does not become a pipe. */
  method WriteReply(out: Sink, end: Ending, agent: Agent)
    requires end.Shell? || end.Declined?
    modifies out
    ensures forall local :: out.written == old(out.written) + Accepted(Answer(end, agent, local), old(out.room))
  {
    assert end.Reply(agent) + [] == end.Reply(agent);
    var _ := WriteForwardStatus(out, end.Cause(agent));
  }

  /** The status of a session that does, and then the pipe. */
  method OpenPipe(br: BufReader, out: Sink, toLocal: Sink, fromLocal: Wire) returns (inward: bool, outward: bool)
    requires out != toLocal && br.src != fromLocal
    modifies br, br.src, out, toLocal, fromLocal
    ensures var reply, told := StatusLine(None), |StatusLine(None)| <= old(out.room);
            && out.written == old(out.written) + Accepted(reply + old(fromLocal.rest), old(out.room))
            && toLocal.written == old(toLocal.written)
                                   + (if told then Accepted(old(br.Unread()), old(toLocal.room)) else [])
            && (inward <==> told && |old(br.Unread())| <= old(toLocal.room))
            && (outward <==> |reply + old(fromLocal.rest)| <= old(out.room))
  {
    AcceptedTwice(StatusLine(None), fromLocal.rest, out.room);
    var told := WriteForwardStatus(out, None);
    inward, outward := false, false;
    if told {
      inward, outward := PipeStream(br, out, toLocal, fromLocal);
    }
  }

  /** Each direction by itself; how the end of one cuts the other off is module Duplex. */
  method PipeStream(br: BufReader, out: Sink, toLocal: Sink, fromLocal: Wire) returns (inward: bool, outward: bool)
    requires out != toLocal && br.src != fromLocal
    modifies br, br.src, out, toLocal, fromLocal
    ensures inward <==> |old(br.Unread())| <= old(toLocal.room)
    ensures outward <==> |old(fromLocal.rest)| <= old(out.room)
    ensures toLocal.written == old(toLocal.written) + Accepted(old(br.Unread()), old(toLocal.room))
    ensures out.written == old(out.written) + Accepted(old(fromLocal.rest), old(out.room))
  {
    inward := Copy(toLocal, Buffered(br));
    outward := Copy(out, Direct(fromLocal));
  }

  /** handleStream, for forward streams. */
  method HandleStream(stream: Wire, out: Sink, agent: Agent, toLocal: Sink, fromLocal: Wire)
    returns (end: Ending, inward: bool, outward: bool)
    requires out != toLocal && stream != fromLocal
    modifies stream, out, toLocal, fromLocal
    ensures end == StreamPlan(old(stream.rest), agent)
    ensures out.written == old(out.written) + Accepted(Answer(end, agent, old(fromLocal.rest)), old(out.room))
    ensures var told := end.Piped? && |end.Reply(agent)| <= old(out.room);
            && toLocal.written == old(toLocal.written) + (if told then Accepted(end.payload, old(toLocal.room)) else [])
            && (inward <==> told && |end.payload| <= old(toLocal.room))
            && (outward <==> end.Piped? && |Answer(end, agent, old(fromLocal.rest))| <= old(out.room))
    ensures end.Shell? ==>
              && old(stream.chunks) <= stream.chunks
              && forall later :: Concat(later) == stream.rest ==>
                                   ShellInput(stream.chunks[|old(stream.chunks)|..] + later) == Some(stream.rest)
  {
    var br := new BufReader(stream);
    assert br.Unread() == stream.rest;
    ghost var start := stream.chunks;
    inward, outward := false, false;
    var kind := ReadName(br);
    if kind.None? {
      return Unreadable, false, false;
    }
    if kind.value != STREAM_FORWARD {
      return OtherKind(kind.value), false, false;
    }
    ghost var header, buf := stream.chunks[|start|..], br.buf;
    ghost var middle := stream.chunks;
    ghost var shellSees;
    end, shellSees, inward, outward := HandleForward(br, out, agent, toLocal, fromLocal);
    if end.Shell? {
      ghost var target := stream.chunks[|middle|..];
      assert stream.chunks[|start|..] == header + target;
      forall later | Concat(later) == stream.rest
        ensures ShellInput(header + target + later) == Some(stream.rest)
      {
        ShellInputIsWhatIsLeft(header, buf, target, br.buf, later);
      }
    }
  }

  // ---- The embedded shell --------------------------------------------------------------------------------

  /** What the raw stream still yields once header and target have been read, for a given chunking of it. */
  function ShellInput(chunks: seq<Bytes>): Option<Bytes> {
    match PullLine([], chunks)
    case None => None
    case Some(header) =>
      match PullLine(header.buf, header.later)
      case None => None
      case Some(target) => Some(Concat(target.later))
  }

  lemma ShellInputIsWhatIsLeft(header: seq<Bytes>, buf: Bytes, target: seq<Bytes>, left: Bytes, later: seq<Bytes>)
    requires Pulls([], header, buf) && Pulls(buf, target, left)
    ensures ShellInput(header + target + later) == Some(Concat(later))
  {
    PullLineIgnoresLaterChunks([], header, target + later);
    PullLineIgnoresLaterChunks(buf, target, later);
    assert header + target + later == header + (target + later);
    assert [] + (target + later) == target + later && [] + later == later;
  }

  /** A chunk of the stream ends exactly where its opening does. */
  ghost predicate BoundaryAt(chunks: seq<Bytes>, opening: Bytes) {
    exists k :: 0 <= k <= |chunks| && Sofar([], chunks, k) == opening
  }

  lemma SofarSplits(buf: Bytes, chunks: seq<Bytes>, j: nat, k: nat)
    requires j <= k <= |chunks|
    ensures Sofar(buf, chunks, k) == Sofar(buf, chunks, j) + Concat(chunks[j..k])
  {
    assert chunks[..k] == chunks[..j] + chunks[j..k];
    ConcatAppends(chunks[..j], chunks[j..k]);
  }

  lemma FirstLineIsUnique(x: Bytes, a: Bytes, y: Bytes, b: Bytes)
    requires NEWLINE !in x && NEWLINE !in y && x + [NEWLINE] + a == y + [NEWLINE] + b
    ensures x == y && a == b
  {
    CutAtFirst(x, NEWLINE, a);
    CutAtFirst(y, NEWLINE, b);
  }

  lemma NewlineIsReached(prefix: Bytes, more: Bytes, line: Bytes, rest: Bytes)
    requires prefix + more == line + [NEWLINE] + rest && |prefix| > |line|
    ensures NEWLINE in prefix
  {
    assert prefix[|line|] == (prefix + more)[|line|];
    assert (line + [NEWLINE] + rest)[|line|] == NEWLINE;
  }

  /** A line is pulled in by the first chunk that completes it. */
  lemma LineIsPulled(buf: Bytes, chunks: seq<Bytes>, line: Bytes, rest: Bytes) returns (n: nat, p: Pulled)
    requires NEWLINE !in line && buf + Concat(chunks) == line + [NEWLINE] + rest
    ensures n <= |chunks| && PullLine(buf, chunks) == Some(p) && p.later == chunks[n..]
    ensures p.buf + Concat(p.later) == rest && Sofar(buf, chunks, n) == line + [NEWLINE] + p.buf
    ensures forall k :: 0 <= k < n ==> |Sofar(buf, chunks, k)| <= |line|
  {
    assert NEWLINE in buf + Concat(chunks) by { assert (line + [NEWLINE] + rest)[|line|] == NEWLINE; }
    n := PullLineTakesTheFirstLine(buf, chunks);
    p := PullLine(buf, chunks).value;
    SofarSplits(buf, chunks, n, |chunks|);
    assert chunks[..|chunks|] == chunks && chunks[n..|chunks|] == p.later;
    assert p.line == DropLast(p.line) + [NEWLINE];
    assert DropLast(p.line) + [NEWLINE] + (p.buf + Concat(p.later)) == p.line + p.buf + Concat(p.later);
    FirstLineIsUnique(DropLast(p.line), p.buf + Concat(p.later), line, rest);
    forall k | 0 <= k < n
      ensures |Sofar(buf, chunks, k)| <= |line|
    {
      SofarSplits(buf, chunks, k, |chunks|);
      if |Sofar(buf, chunks, k)| > |line| {
        NewlineIsReached(Sofar(buf, chunks, k), Concat(chunks[k..|chunks|]), line, rest);
      }
    }
  }

  /** Reading two lines in a row: the reader stops at the first chunk that completes the second. Returns how
      many chunks it pulled in and what it holds behind the second line. */
  lemma TwoLinesArePulled(chunks: seq<Bytes>, first: Bytes, second: Bytes, payload: Bytes) returns (n: nat, held: Bytes)
    requires NEWLINE !in first && NEWLINE !in second
    requires Concat(chunks) == first + [NEWLINE] + (second + [NEWLINE] + payload)
    ensures n <= |chunks| && ShellInput(chunks) == Some(Concat(chunks[n..]))
    ensures payload == held + Concat(chunks[n..])
    ensures Sofar([], chunks, n) == first + [NEWLINE] + (second + [NEWLINE] + held)
    ensures forall k :: 0 <= k < n ==> |Sofar([], chunks, k)| < |first| + |second| + 2
  {
    assert [] + Concat(chunks) == Concat(chunks);
    var n1, p1 := LineIsPulled([], chunks, first, second + [NEWLINE] + payload);
    var n2, p2 := LineIsPulled(p1.buf, p1.later, second, payload);
    n, held := n1 + n2, p2.buf;
    assert chunks[n1..][n2..] == chunks[n..];
    forall k | n1 <= k <= n
      ensures Sofar([], chunks, k) == first + [NEWLINE] + Sofar(p1.buf, p1.later, k - n1)
    {
      SofarContinues([], chunks, n1, first + [NEWLINE], p1.buf, k);
    }
  }

  lemma SofarContinues(buf: Bytes, chunks: seq<Bytes>, n: nat, line: Bytes, left: Bytes, k: nat)
    requires n <= k <= |chunks| && Sofar(buf, chunks, n) == line + left
    ensures Sofar(buf, chunks, k) == line + Sofar(left, chunks[n..], k - n)
  {
    SofarSplits(buf, chunks, n, k);
    assert chunks[n..k] == chunks[n..][..k - n];
  }

  /** The embedded shell sees the whole payload exactly when the newline of the target line ends the chunk it
      arrived in; otherwise it misses what else that chunk brought. */
  lemma ShellSeesEverythingExactlyWhenTheTargetEndsAChunk(chunks: seq<Bytes>, payload: Bytes) returns (missed: Bytes)
    requires Concat(chunks) == Opening(SERVICE_DEV, payload)
    ensures ShellInput(chunks).Some? && payload == missed + ShellInput(chunks).value
    ensures ShellInput(chunks) == Some(payload) <==> BoundaryAt(chunks, Opening(SERVICE_DEV, []))
  {
    var n;
    assert ForwardTarget(SERVICE_DEV).value + payload == SERVICE_DEV + [NEWLINE] + payload;
    n, missed := TwoLinesArePulled(chunks, STREAM_FORWARD, SERVICE_DEV, payload);
    var opening := Opening(SERVICE_DEV, []);
    assert Sofar([], chunks, n) == opening + missed;
    if missed == [] {
      assert opening + missed == opening && [] + Concat(chunks[n..]) == Concat(chunks[n..]);
    } else {
      assert |payload| == |missed| + |Concat(chunks[n..])|;
      if BoundaryAt(chunks, opening) {
        var k :| 0 <= k <= |chunks| && Sofar([], chunks, k) == opening;
        if n <= k {
          SofarSplits([], chunks, n, k);
        }
        assert false;
      }
    }
  }

  /** A client that sends nothing before it has read the status, as bridge does, loses nothing: the chunks up to
      then hold no more than the opening. */
  lemma WaitingClientLosesNothing(before: seq<Bytes>, after: seq<Bytes>)
    requires Concat(before) == Opening(SERVICE_DEV, [])
    ensures ShellInput(before + after) == Some(Concat(after))
  {
    ConcatAppends(before, after);
    OpeningExtends(SERVICE_DEV, Concat(after));
    assert (before + after)[..|before|] == before;
    assert Sofar([], before + after, |before|) == Opening(SERVICE_DEV, []);
    var _ := ShellSeesEverythingExactlyWhenTheTargetEndsAChunk(before + after, Concat(after));
  }

  /** "dev", newline and the first byte of the session in one chunk: that byte never reaches the shell. */
  lemma EagerClientLosesAByte()
    ensures var chunks: seq<Bytes> := [StreamHeader(STREAM_FORWARD), SERVICE_DEV + [NEWLINE, 88]];
            Concat(chunks) == Opening(SERVICE_DEV, [88]) && ShellInput(chunks) == Some([])
  {
    var chunks: seq<Bytes> := [StreamHeader(STREAM_FORWARD), SERVICE_DEV + [NEWLINE, 88]];
    var second: Bytes := SERVICE_DEV + [NEWLINE, 88];
    assert chunks[1..] == [second] && |[second][1..]| == 0;
    assert Concat([second]) == second + [] == SERVICE_DEV + [NEWLINE] + [88];
    assert Concat(chunks) == StreamHeader(STREAM_FORWARD) + second;
    assert Concat(chunks) == STREAM_FORWARD + [NEWLINE] + (SERVICE_DEV + [NEWLINE] + [88]);
    var n, held := TwoLinesArePulled(chunks, STREAM_FORWARD, SERVICE_DEV, [88]);
    assert |Sofar([], chunks, 0)| == 0;
    assert |Sofar([], chunks, 1)| == 8 by { assert |chunks[..1][1..]| == 0; }
    assert chunks[2..] == [];
  }

  // ---- The relay in between ----------------------------------------------------------------------------

  /** What the agent's stream carries when `data` has come from the operator. */
  function Opening(service: Bytes, data: Bytes): Bytes
    requires ForwardTarget(service).Some?
  {
    StreamHeader(STREAM_FORWARD) + (ForwardTarget(service).value + data)
  }

  /** What the relay sends the agent's stream: a name it refuses leaves the header alone. */
  function Sends(service: Bytes, data: Bytes): Bytes {
    if ForwardTarget(service).Some? then Opening(service, data) else StreamHeader(STREAM_FORWARD)
  }

  /** The two opening lines; `ok` when the stream is ready to become a pipe. */
  method OpenForward(service: Bytes, toAgent: Sink) returns (ok: bool)
    modifies toAgent
    ensures ok <==> ForwardTarget(service).Some? && |Opening(service, [])| <= old(toAgent.room)
    ensures toAgent.written == old(toAgent.written) + Accepted(Sends(service, []), old(toAgent.room))
    ensures toAgent.room == RoomAfter(Sends(service, []), old(toAgent.room))
  {
    AcceptedTwice(StreamHeader(STREAM_FORWARD), service + [NEWLINE], toAgent.room);
    ok := toAgent.Write(StreamHeader(STREAM_FORWARD));
    if NEWLINE in service || RETURN in service {
      return false;
    }
    assert Opening(service, []) == StreamHeader(STREAM_FORWARD) + (service + [NEWLINE]) by {
      assert service + [NEWLINE] + [] == service + [NEWLINE];
    }
    if ok {
      ok := toAgent.Write(service + [NEWLINE]);
    }
  }

  lemma SendsInTwo(service: Bytes, data: Bytes, room: nat)
    ensures ForwardTarget(service).None? ==> Sends(service, data) == Sends(service, [])
    ensures ForwardTarget(service).Some? ==>
              var opening, left := Opening(service, []), RoomAfter(Opening(service, []), room);
              && Sends(service, []) == opening && Sends(service, data) == Opening(service, data)
              && |Opening(service, data)| == |opening| + |data|
              && Accepted(Opening(service, data), room) ==
                 if |opening| <= room then Accepted(opening, room) + Accepted(data, left) else Accepted(opening, room)
  {
    if ForwardTarget(service).Some? {
      OpeningExtends(service, data);
      AcceptedTwice(Opening(service, []), data, room);
    }
  }

  /** The relay interprets nothing: past the opening, each side gets what the other sent, as far as it has room. */
  method RelayForward(service: Bytes, fromOperator: Wire, toAgent: Sink, fromAgent: Wire, toOperator: Sink)
    returns (joined: bool, upward: bool, downward: bool)
    requires fromOperator != fromAgent && toAgent != toOperator
    modifies fromOperator, toAgent, fromAgent, toOperator
    ensures joined <==> ForwardTarget(service).Some? && |Opening(service, [])| <= old(toAgent.room)
    ensures toAgent.written
            == old(toAgent.written) + Accepted(Sends(service, old(fromOperator.rest)), old(toAgent.room))
    ensures toOperator.written == old(toOperator.written)
                                  + (if joined then Accepted(old(fromAgent.rest), old(toOperator.room)) else [])
    ensures upward <==> joined && |Opening(service, old(fromOperator.rest))| <= old(toAgent.room)
    ensures downward <==> joined && |old(fromAgent.rest)| <= old(toOperator.room)
  {
    upward, downward := false, false;
    ghost var start, room, data := toAgent.written, toAgent.room, fromOperator.rest;
    SendsInTwo(service, data, room);
    joined := OpenForward(service, toAgent);
    if joined {
      ghost var opening := Opening(service, []);
      assert toAgent.written == start + Accepted(opening, room) && toAgent.room == RoomAfter(opening, room);
      Associates(start, Accepted(opening, room), Accepted(data, toAgent.room));
      upward := Copy(toAgent, Direct(fromOperator));
      downward := Copy(toOperator, Direct(fromAgent));
    }
  }

  lemma OpeningExtends(service: Bytes, data: Bytes)
    requires ForwardTarget(service).Some?
    ensures Opening(service, data) == Opening(service, []) + data
  {
    assert ForwardTarget(service).value + [] == ForwardTarget(service).value;
  }

  // ---- The operator's side ---------------------------------------------------------------------------

  /** bridge, after the dial: the status line first, then the raw session in both directions. */
  method Bridge(remote: Wire, toRemote: Sink, local: Wire, toClient: Sink)
    returns (s: Status, upward: bool, downward: bool)
    requires remote != local && toRemote != toClient
    modifies remote, toRemote, local, toClient
    ensures match Cut(old(remote.rest), NEWLINE)
            case None => s == NoAnswer && !downward
            case Some((before, after)) =>
              && s == StatusOfLine(before + [NEWLINE])
              && toClient.written == old(toClient.written)
                                     + (if s.Success? then Accepted(after, old(toClient.room)) else [])
              && (downward <==> s.Success? && |after| <= old(toClient.room))
    ensures toRemote.written == old(toRemote.written)
                                + (if s.Success? then Accepted(old(local.rest), old(toRemote.room)) else [])
    ensures upward <==> s.Success? && |old(local.rest)| <= old(toRemote.room)
    ensures !s.Success? ==> toClient.written == old(toClient.written)
  {
    var br := new BufReader(remote);
    assert br.Unread() == remote.rest;
    upward, downward := false, false;
    s := ReadForwardStatus(br);
    if !s.Success? {
      return;
    }
    var session := WithBuffered(br);
    upward, downward := Exchange(toRemote, local, toClient, session);
  }

  method Exchange(toRemote: Sink, local: Wire, toClient: Sink, session: Source) returns (upward: bool, downward: bool)
    requires session.Valid() && local !in session.Footprint() && toRemote != toClient
    requires toRemote !in session.Footprint() && toClient !in session.Footprint()
    modifies toRemote, local, toClient, session.Footprint()
    ensures upward <==> |old(local.rest)| <= old(toRemote.room)
    ensures downward <==> |old(session.Unread())| <= old(toClient.room)
    ensures toClient.written == old(toClient.written) + Accepted(old(session.Unread()), old(toClient.room))
    ensures toRemote.written == old(toRemote.written) + Accepted(old(local.rest), old(toRemote.room))
  {
    upward := Copy(toRemote, Direct(local));
    downward := Copy(toClient, session);
  }

  // ---- End to end ------------------------------------------------------------------------------------

  /** Whatever the operator sends behind the two opening lines reaches the named service, byte for byte,
      and a service withheld, missing or dead is refused with its own reason. */
  lemma OperatorBytesReachTheService(service: Bytes, data: Bytes, agent: Agent)
    requires ForwardTarget(service).Some? && service != [] && TrimSpace(service) == service
    ensures StreamPlan(Opening(service, data), agent) ==
            if service == SERVICE_DEV then Shell(data)
            else if service !in agent.services then Declined(NotOffered(service))
            else if !agent.answers(agent.services[service]) then
              Declined(NotAnswering(service, agent.services[service]))
            else Piped(service, agent.services[service], data)
  {
    ForwardHeaderArrives(ForwardTarget(service).value + data);
    TargetArrivesExactlyWhenTrimmed(service, data);
  }

  /** Any other kind of stream is not taken for a forward, nor is one whose lines do not come, or are blank. */
  lemma OtherStreamsAreNotForwarded(kind: Bytes, more: Bytes, cut: Bytes, agent: Agent)
    requires NEWLINE !in kind && TrimSpace(kind) != STREAM_FORWARD && NEWLINE !in cut
    ensures StreamPlan(kind + [NEWLINE] + more, agent) ==
            if TrimSpace(kind) == [] then Unreadable else OtherKind(TrimSpace(kind))
    ensures StreamPlan(cut, agent) == Unreadable
    ensures StreamPlan(StreamHeader(STREAM_FORWARD) + cut, agent) == Unreadable
    ensures TrimSpace(cut) == [] ==>
              StreamPlan(StreamHeader(STREAM_FORWARD) + (cut + [NEWLINE] + more), agent) == Unreadable
  {
    CutAtFirst(kind, NEWLINE, more);
    NameLine(kind);
    CutIsStable(cut, NEWLINE, []);
    ForwardHeaderArrives(cut);
    ForwardHeaderArrives(cut + [NEWLINE] + more);
    CutAtFirst(cut, NEWLINE, more);
    NameLine(cut);
  }

  /** Relay to agent to service, wherever the relay's copy stops: the service is handed a prefix of what the
      operator sent, all of what the relay passed on. */
  lemma RelayedBytesReachTheService(service: Bytes, data: Bytes, relayed: Bytes, agent: Agent)
    requires ForwardTarget(service).Some? && service != [] && TrimSpace(service) == service
    requires Opening(service, []) <= relayed <= Opening(service, data)
    requires service != SERVICE_DEV && service in agent.services && agent.answers(agent.services[service])
    ensures StreamPlan(relayed, agent).Piped? && StreamPlan(relayed, agent).addr == agent.services[service]
    ensures StreamPlan(relayed, agent).payload <= data
    ensures relayed == Opening(service, StreamPlan(relayed, agent).payload)
  {
    var payload := OpeningSplits(service, data, relayed);
    OperatorBytesReachTheService(service, payload, agent);
  }

  lemma OpeningSplits(service: Bytes, data: Bytes, relayed: Bytes) returns (payload: Bytes)
    requires ForwardTarget(service).Some?
    requires Opening(service, []) <= relayed <= Opening(service, data)
    ensures payload <= data && relayed == Opening(service, payload)
  {
    var opening := Opening(service, []);
    payload := relayed[|opening|..];
    OpeningExtends(service, data);
    OpeningExtends(service, payload);
    PrefixOfASum(opening, data, relayed);
  }

  /** Agent to relay to operator, wherever the relay's copy stops: the operator reads no answer while the status
      line is incomplete, and from then on the right status and a prefix of the service's bytes. */
  lemma ServiceBytesReachTheOperator(end: Ending, agent: Agent, answer: Bytes, relayed: Bytes)
    requires end.Piped? || end.Declined? || end.Shell?
    requires relayed <= end.Reply(agent) + answer
    ensures match Cut(relayed, NEWLINE)
            case None => |relayed| < |end.Reply(agent)|
            case Some((before, after)) =>
              && StatusOfLine(before + [NEWLINE]) == Told(end.Cause(agent))
              && after <= answer && relayed == end.Reply(agent) + after
  {
    var cause := end.Cause(agent);
    StatusRoundTrip(cause);
    StatusHasOneNewline(cause);
    CutOfAReply(StatusLine(cause), DropLast(StatusLine(cause)), answer, relayed);
  }

  lemma StatusHasOneNewline(cause: Option<Bytes>)
    ensures StatusLine(cause) == DropLast(StatusLine(cause)) + [NEWLINE] && NEWLINE !in DropLast(StatusLine(cause))
  {
    match cause
    case None =>
    case Some(text) =>
      assert DropLast(StatusLine(cause)) == ERROR + [SPACE] + Truncate(Flatten(text));
      assert NEWLINE !in Flatten(text);
  }

  lemma CutOfAReply(reply: Bytes, line: Bytes, more: Bytes, got: Bytes)
    requires reply == line + [NEWLINE] && NEWLINE !in line && got <= reply + more
    ensures match Cut(got, NEWLINE)
            case None => |got| < |reply|
            case Some((before, after)) => before + [NEWLINE] == reply && after <= more && got == reply + after
  {
    CutIsStable(got, NEWLINE, []);
    if |got| < |reply| {
      PrefixOfASum(reply, more, got);
      PrefixOfASum(line, [NEWLINE], got);
    } else {
      PrefixOfASum(reply, more, got);
      CutAtFirst(line, NEWLINE, got[|reply|..]);
    }
  }

  /** A whole forwarded connection, cut anywhere on its way up and anywhere on its way down: the service is
      handed a prefix of what the operator sent, the operator a prefix of what the service answered, and a
      refusal arrives with its own reason. */
  lemma ForwardedConnection(service: Bytes, data: Bytes, up: Bytes, answer: Bytes, down: Bytes, agent: Agent)
    requires ForwardTarget(service).Some? && service != [] && TrimSpace(service) == service && service != SERVICE_DEV
    requires Opening(service, []) <= up <= Opening(service, data)
    requires down <= Answer(StreamPlan(up, agent), agent, answer)
    requires Cut(down, NEWLINE).Some?
    ensures var end, (before, after) := StreamPlan(up, agent), Cut(down, NEWLINE).value;
            var s := StatusOfLine(before + [NEWLINE]);
            if service !in agent.services then s == Told(Some(agent.wording(NotOffered(service))))
            else if !agent.answers(agent.services[service]) then
              s == Told(Some(agent.wording(NotAnswering(service, agent.services[service]))))
            else
              && s == Success && end.Piped? && end.addr == agent.services[service]
              && end.payload <= data && (up == Opening(service, data) ==> end.payload == data)
              && after <= answer && (down == Answer(end, agent, answer) ==> after == answer)
  {
    var payload := OpeningSplits(service, data, up);
    OperatorBytesReachTheService(service, payload, agent);
    var end := StreamPlan(up, agent);
    ServiceBytesReachTheOperator(end, agent, if end.Piped? then answer else [], down);
    if up == Opening(service, data) {
      SameTail(service, payload, data);
    }
    if down == end.Reply(agent) + answer {
      var after := Cut(down, NEWLINE).value.1;
      assert |after| == |answer|;
    }
  }

  lemma SameTail(service: Bytes, payload: Bytes, data: Bytes)
    requires ForwardTarget(service).Some? && Opening(service, payload) == Opening(service, data)
    ensures payload == data
  {
    OpeningExtends(service, payload);
    OpeningExtends(service, data);
    assert (Opening(service, []) + payload)[|Opening(service, [])|..] == payload;
    assert (Opening(service, []) + data)[|Opening(service, [])|..] == data;
  }
}
