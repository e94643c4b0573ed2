/** The upgrade of an HTTP connection to the tunnel (client/session.go). */
module Handshake {
  import opened Basics
  import opened Text
  import opened Streams

  predicate Blank(line: Bytes) {
    line == [NEWLINE] || line == [RETURN, NEWLINE]
  }

  /** What follows the blank line that ends an HTTP message head (section 7.8 of RFC 9110), None without one. */
  function AfterHead(arriving: Bytes): Option<Bytes>
    decreases |arriving|
  {
    match Cut(arriving, NEWLINE)
    case None => None
    case Some((before, after)) =>
      CutIsStable(arriving, NEWLINE, []);
      if Blank(before + [NEWLINE]) then Some(after) else AfterHead(after)
  }

  const SWITCHING_PROTOCOLS: Bytes := [49, 48, 49] // "101"

  function SkipSpaces(s: Bytes): Bytes {
    if s != [] && s[0] == SPACE then SkipSpaces(s[1..]) else s
  }

  /** The three characters after the version of a status line; anything else there is malformed. */
  function StatusCode(line: Bytes): Option<Bytes> {
    match Cut(line, SPACE)
    case None => None
    case Some((_, rest)) =>
      var code := match Cut(SkipSpaces(rest), SPACE) case Some((c, _)) => c case None => SkipSpaces(rest);
      if |code| == 3 then Some(code) else None
  }

  function WithoutReturn(line: Bytes): Bytes {
    if line != [] && Last(line) == RETURN then DropLast(line) else line
  }

  /** What the answer to the upgrade request makes of the connection: the tunnel's bytes when it is a 101. */
  function TunnelBehind(arriving: Bytes): Option<Bytes> {
    match Cut(arriving, NEWLINE)
    case None => None
    case Some((statusLine, _)) =>
      if StatusCode(WithoutReturn(statusLine)) == Some(SWITCHING_PROTOCOLS) then AfterHead(arriving) else None
  }

  /** The agent's half; `wellFormed` is whether net/http finds no other fault with the head. */
  method Upgrade(conn: Wire, wellFormed: bool) returns (tunnel: Option<Source>)
    modifies conn
    ensures tunnel.Some? <==> wellFormed && TunnelBehind(old(conn.rest)).Some?
    ensures tunnel.Some? ==> tunnel.value.Valid() && tunnel.value.Unread() == TunnelBehind(old(conn.rest)).value
  {
    var br := new BufReader(conn);
    assert br.Unread() == conn.rest;
    var first, ok := br.ReadLine();
    if !ok {
      return None;
    }
    var code := StatusCode(WithoutReturn(DropLast(first)));
    if !Blank(first) {
      ok := ReadHead(br, br.Unread());
    }
    if !ok || !wellFormed || code != Some(SWITCHING_PROTOCOLS) {
      return None;
    }
    var t := WithBuffered(br);
    tunnel := Some(t);
  }

  /** The header lines through the blank one. */
  method ReadHead(br: BufReader, ghost arriving: Bytes) returns (ok: bool)
    requires br.Unread() == arriving
    modifies br, br.src
    ensures ok <==> AfterHead(arriving).Some?
    ensures ok ==> br.Unread() == AfterHead(arriving).value
  {
    var line: Bytes := [];
    ok := true;
    while ok && !Blank(line)
      invariant if Blank(line) then ok && AfterHead(arriving) == Some(br.Unread())
                else if ok then AfterHead(arriving) == AfterHead(br.Unread())
                else AfterHead(arriving).None?
      decreases |br.Unread()|, ok
    {
      CutIsStable(br.Unread(), NEWLINE, []);
      line, ok := br.ReadLine();
    }
  }

  function HeadLines(lines: seq<Bytes>): Bytes {
    if lines == [] then [RETURN, NEWLINE] else lines[0] + [RETURN, NEWLINE] + HeadLines(lines[1..])
  }

  lemma {:induction false} AfterHeadLines(lines: seq<Bytes>, tunnel: Bytes)
    requires forall i :: 0 <= i < |lines| ==> lines[i] != [] && NEWLINE !in lines[i]
    ensures AfterHead(HeadLines(lines) + tunnel) == Some(tunnel)
  {
    var all := HeadLines(lines) + tunnel;
    if lines == [] {
      CutAtFirst([RETURN], NEWLINE, tunnel);
      assert all == [RETURN] + [NEWLINE] + tunnel;
    } else {
      var rest := HeadLines(lines[1..]) + tunnel;
      CutAtFirst(lines[0] + [RETURN], NEWLINE, rest);
      assert all == lines[0] + [RETURN] + [NEWLINE] + rest;
      assert !Blank(lines[0] + [RETURN] + [NEWLINE]) by { assert |lines[0] + [RETURN] + [NEWLINE]| > 2; }
      AfterHeadLines(lines[1..], tunnel);
    }
  }

  /** "HTTP/1.1 101 Switching Protocols" and the like. */
  function StatusHead(version: Bytes, code: Bytes, reason: Bytes): Bytes {
    version + [SPACE] + (code + [SPACE] + reason)
  }

  lemma StatusHeadSays(version: Bytes, code: Bytes, reason: Bytes)
    requires SPACE !in version && SPACE !in code && |code| == 3
    ensures StatusCode(StatusHead(version, code, reason)) == Some(code)
  {
    CutAtFirst(version, SPACE, code + [SPACE] + reason);
    assert SkipSpaces(code + [SPACE] + reason) == code + [SPACE] + reason;
    CutAtFirst(code, SPACE, reason);
  }

  /** The agent gets a tunnel exactly when the relay answers 101, and every byte pipelined behind the handshake
      belongs to it. */
  lemma TunnelStartsAfterTheHead(version: Bytes, code: Bytes, reason: Bytes, headers: seq<Bytes>, tunnel: Bytes)
    requires SPACE !in version && SPACE !in code && |code| == 3
    requires NEWLINE !in version && NEWLINE !in code && NEWLINE !in reason
    requires forall i :: 0 <= i < |headers| ==> headers[i] != [] && NEWLINE !in headers[i]
    ensures TunnelBehind(HeadLines([StatusHead(version, code, reason)] + headers) + tunnel)
            == if code == SWITCHING_PROTOCOLS then Some(tunnel) else None
  {
    StatusHeadSays(version, code, reason);
    StatusHeadIsALine(version, code, reason);
    TunnelBehindAHead(StatusHead(version, code, reason), code, headers, tunnel);
  }

  lemma StatusHeadIsALine(version: Bytes, code: Bytes, reason: Bytes)
    requires NEWLINE !in version && NEWLINE !in code && NEWLINE !in reason
    ensures StatusHead(version, code, reason) != [] && NEWLINE !in StatusHead(version, code, reason)
  {}

  lemma TunnelBehindAHead(statusLine: Bytes, code: Bytes, headers: seq<Bytes>, tunnel: Bytes)
    requires statusLine != [] && NEWLINE !in statusLine && StatusCode(statusLine) == Some(code)
    requires forall i :: 0 <= i < |headers| ==> headers[i] != [] && NEWLINE !in headers[i]
    ensures TunnelBehind(HeadLines([statusLine] + headers) + tunnel)
            == if code == SWITCHING_PROTOCOLS then Some(tunnel) else None
  {
    AfterHeadLines([statusLine] + headers, tunnel);
    StatusLineComesFirst(statusLine, headers, tunnel);
    TunnelIsBehind(HeadLines([statusLine] + headers) + tunnel, statusLine, code, tunnel);
  }

  lemma TunnelIsBehind(all: Bytes, statusLine: Bytes, code: Bytes, tunnel: Bytes)
    requires Cut(all, NEWLINE).Some? && WithoutReturn(Cut(all, NEWLINE).value.0) == statusLine
    requires StatusCode(statusLine) == Some(code) && AfterHead(all) == Some(tunnel)
    ensures TunnelBehind(all) == if code == SWITCHING_PROTOCOLS then Some(tunnel) else None
  {}

  lemma StatusLineComesFirst(statusLine: Bytes, headers: seq<Bytes>, tunnel: Bytes)
    requires NEWLINE !in statusLine
    ensures Cut(HeadLines([statusLine] + headers) + tunnel, NEWLINE)
            == Some((statusLine + [RETURN], HeadLines(headers) + tunnel))
    ensures WithoutReturn(statusLine + [RETURN]) == statusLine
  {
    var lines, rest := [statusLine] + headers, HeadLines(headers) + tunnel;
    assert lines[1..] == headers;
    assert HeadLines(lines) + tunnel == statusLine + [RETURN] + [NEWLINE] + rest;
    CutAtFirst(statusLine + [RETURN], NEWLINE, rest);
  }

  function Lines(lines: seq<Bytes>): Bytes {
    if lines == [] then [] else lines[0] + [RETURN, NEWLINE] + Lines(lines[1..])
  }

  /** A head without its blank line is no head, however much of it has come. */
  lemma {:induction false} UnfinishedHeadIsNone(lines: seq<Bytes>, cut: Bytes)
    requires forall i :: 0 <= i < |lines| ==> lines[i] != [] && NEWLINE !in lines[i]
    requires NEWLINE !in cut
    ensures AfterHead(Lines(lines) + cut) == None && TunnelBehind(Lines(lines) + cut) == None
  {
    var all := Lines(lines) + cut;
    CutIsStable(cut, NEWLINE, []);
    if lines == [] {
      assert all == cut;
    } else {
      var rest := Lines(lines[1..]) + cut;
      CutAtFirst(lines[0] + [RETURN], NEWLINE, rest);
      assert all == lines[0] + [RETURN] + [NEWLINE] + rest;
      assert !Blank(lines[0] + [RETURN] + [NEWLINE]) by { assert |lines[0] + [RETURN] + [NEWLINE]| > 2; }
      UnfinishedHeadIsNone(lines[1..], cut);
    }
  }

  /** A status line without a space, or with a code that is not three characters, has no code. */
  lemma MalformedStatusHasNoCode(version: Bytes, code: Bytes, reason: Bytes)
    requires SPACE !in version && SPACE !in code && |code| != 3
    ensures StatusCode(version) == None
    ensures code != [] ==> StatusCode(StatusHead(version, code, reason)) == None
  {
    CutIsStable(version, SPACE, []);
    CutAtFirst(version, SPACE, code + [SPACE] + reason);
    if code != [] {
      assert SkipSpaces(code + [SPACE] + reason) == code + [SPACE] + reason;
      CutAtFirst(code, SPACE, reason);
    }
  }

  function BareLines(lines: seq<Bytes>): Bytes {
    if lines == [] then [NEWLINE] else lines[0] + [NEWLINE] + BareLines(lines[1..])
  }

  /** Lines that end in a line feed alone are as good. */
  lemma {:induction false} BareLineFeedsWillDo(lines: seq<Bytes>, tunnel: Bytes)
    requires forall i :: 0 <= i < |lines| ==> lines[i] != [] && NEWLINE !in lines[i] && lines[i] != [RETURN]
    ensures AfterHead(BareLines(lines) + tunnel) == Some(tunnel)
  {
    var all := BareLines(lines) + tunnel;
    if lines == [] {
      CutAtFirst([], NEWLINE, tunnel);
      assert all == [] + [NEWLINE] + tunnel;
    } else {
      var rest := BareLines(lines[1..]) + tunnel;
      CutAtFirst(lines[0], NEWLINE, rest);
      assert all == lines[0] + [NEWLINE] + rest;
      assert !Blank(lines[0] + [NEWLINE]) by {
        assert (lines[0] + [NEWLINE])[..|lines[0]|] == lines[0];
        assert [RETURN, NEWLINE][..1] == [RETURN];
      }
      BareLineFeedsWillDo(lines[1..], tunnel);
    }
  }
}
