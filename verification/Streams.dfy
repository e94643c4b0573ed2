/** Byte streams and the hand-offs between a line reader and the raw connection under it
    (internal/protocol/protocol.go). A stream is what is still to arrive before it ends, for whatever
    reason it ends; how the bytes are cut into reads is left open. */
module Streams {
  import opened Basics
  import opened Text

  /** The receiving half of a connection. */
  class Wire {
    var rest: Bytes

    /** What the reads so far have returned, oldest first. */
    ghost var chunks: seq<Bytes>

    constructor (rest: Bytes)
      ensures this.rest == rest && chunks == []
    {
      this.rest, chunks := rest, [];
    }

    /** Any non-empty piece that fits; nothing only at the end of the stream. */
    method Read(max: nat) returns (chunk: Bytes)
      modifies this
      ensures old(rest) == chunk + rest && |chunk| <= max
      ensures chunk == [] ==> max == 0 || old(rest) == []
      ensures chunks == old(chunks) + [chunk]
    {
      var n: nat :| n <= max && n <= |rest| && (n == 0 ==> max == 0 || rest == []) by {
        assert 0 < max && 0 < |rest| ==> 1 <= max && 1 <= |rest|;
      }
      chunk := rest[..n];
      rest, chunks := rest[n..], chunks + [chunk];
    }
  }

  // ---- How a line is pulled in ------------------------------------------------------------------

  function Concat(chunks: seq<Bytes>): Bytes {
    if chunks == [] then [] else chunks[0] + Concat(chunks[1..])
  }

  /** A line, what the reader holds behind it, and the chunks it did not need. */
  datatype Pulled = Pulled(line: Bytes, buf: Bytes, later: seq<Bytes>)

  /** Whole chunks are pulled in until one brings a newline. */
  function PullLine(buf: Bytes, chunks: seq<Bytes>): Option<Pulled>
    decreases |chunks|
  {
    match Cut(buf, NEWLINE)
    case Some((before, after)) => Some(Pulled(before + [NEWLINE], after, chunks))
    case None => if chunks == [] then None else PullLine(buf + chunks[0], chunks[1..])
  }

  lemma {:induction false} ConcatAppends(chunks: seq<Bytes>, more: seq<Bytes>)
    ensures Concat(chunks + more) == Concat(chunks) + Concat(more)
  {
    if chunks == [] {
      assert chunks + more == more;
    } else {
      ConcatAppends(chunks[1..], more);
      assert (chunks + more)[1..] == chunks[1..] + more;
      Associates(chunks[0], Concat(chunks[1..]), Concat(more));
    }
  }

  lemma {:induction false} PullLineContinues(buf: Bytes, chunks: seq<Bytes>, more: seq<Bytes>)
    requires NEWLINE !in buf + Concat(chunks)
    ensures PullLine(buf, chunks + more) == PullLine(buf + Concat(chunks), more)
    decreases |chunks|
  {
    if chunks == [] {
      assert chunks + more == more && buf + Concat(chunks) == buf;
    } else {
      CutIsStable(buf, NEWLINE, []);
      assert buf + chunks[0] + Concat(chunks[1..]) == buf + Concat(chunks);
      PullLineContinues(buf + chunks[0], chunks[1..], more);
      assert (chunks + more)[1..] == chunks[1..] + more;
    }
  }

  /** Chunks after the one that brings the newline change nothing. */
  lemma {:induction false} PullLineIgnoresLaterChunks(buf: Bytes, chunks: seq<Bytes>, more: seq<Bytes>)
    requires PullLine(buf, chunks).Some?
    ensures var p := PullLine(buf, chunks).value;
            PullLine(buf, chunks + more) == Some(p.(later := p.later + more))
    decreases |chunks|
  {
    if Cut(buf, NEWLINE).Some? {
    } else {
      PullLineIgnoresLaterChunks(buf + chunks[0], chunks[1..], more);
      assert (chunks + more)[1..] == chunks[1..] + more;
    }
  }

  /** What has come in after n chunks. */
  ghost function Sofar(buf: Bytes, chunks: seq<Bytes>, n: nat): Bytes
    requires n <= |chunks|
  {
    buf + Concat(chunks[..n])
  }

  lemma SofarSteps(buf: Bytes, chunks: seq<Bytes>, n: nat)
    requires 0 < n <= |chunks|
    ensures Sofar(buf, chunks, n) == Sofar(buf + chunks[0], chunks[1..], n - 1)
  {
    assert chunks[..n][1..] == chunks[1..][..n - 1];
    assert buf + (chunks[0] + Concat(chunks[1..][..n - 1])) == buf + chunks[0] + Concat(chunks[1..][..n - 1]);
  }

  /** A whole line is taken, nothing behind it is lost, and no fewer chunks would have brought a newline. */
  ghost predicate TakesLine(buf: Bytes, chunks: seq<Bytes>, n: nat, p: Pulled) {
    && n <= |chunks| && p.later == chunks[n..]
    && p.line != [] && Last(p.line) == NEWLINE && NEWLINE !in DropLast(p.line)
    && Sofar(buf, chunks, n) == p.line + p.buf
    && forall k :: 0 <= k < n ==> NEWLINE !in Sofar(buf, chunks, k)
  }

  lemma TakesLineAfterAChunk(buf: Bytes, chunks: seq<Bytes>, n: nat, p: Pulled)
    requires chunks != [] && NEWLINE !in buf && TakesLine(buf + chunks[0], chunks[1..], n, p)
    ensures TakesLine(buf, chunks, n + 1, p)
  {
    assert Sofar(buf, chunks, 0) == buf;
    SofarSteps(buf, chunks, n + 1);
    forall k | 0 <= k < n + 1
      ensures NEWLINE !in Sofar(buf, chunks, k)
    {
      if k > 0 {
        SofarSteps(buf, chunks, k);
      }
    }
  }

  /** A stream with a newline in it yields its first line, for every chunking. Returns how many chunks that took. */
  lemma {:induction false} PullLineTakesTheFirstLine(buf: Bytes, chunks: seq<Bytes>) returns (n: nat)
    requires NEWLINE in buf + Concat(chunks)
    ensures PullLine(buf, chunks).Some? && TakesLine(buf, chunks, n, PullLine(buf, chunks).value)
    decreases |chunks|
  {
    CutIsStable(buf, NEWLINE, []);
    if NEWLINE in buf {
      n := 0;
      assert Sofar(buf, chunks, 0) == buf;
    } else {
      assert buf + chunks[0] + Concat(chunks[1..]) == buf + Concat(chunks);
      n := PullLineTakesTheFirstLine(buf + chunks[0], chunks[1..]);
      TakesLineAfterAChunk(buf, chunks, n, PullLine(buf, chunks).value);
      n := n + 1;
    }
  }

  /** What gets through of `p` on a connection that takes `room` more bytes. */
  function Accepted(p: Bytes, room: nat): Bytes {
    p[..Min(room, |p|)]
  }

  /** What is left of the room. */
  function RoomAfter(p: Bytes, room: nat): nat {
    room - Min(room, |p|)
  }

  /** The sending half of a connection. It takes `room` more bytes before it fails. */
  class Sink {
    var written: Bytes
    var room: nat

    constructor (room: nat)
      ensures written == [] && this.room == room
    {
      written, this.room := [], room;
    }

    /** A write succeeds exactly when it fits; one that does not has sent as much as did. */
    method Write(p: Bytes) returns (ok: bool)
      modifies this
      ensures ok <==> |p| <= old(room)
      ensures written == old(written) + Accepted(p, old(room)) && room == RoomAfter(p, old(room))
    {
      var n := Min(room, |p|);
      written, room := written + p[..n], room - n;
      ok := n == |p|;
    }
  }

  /** Two pieces, the second sent only if the first fits, are one. */
  lemma AcceptedTwice(p: Bytes, q: Bytes, room: nat)
    ensures |p| <= room ==>
              && Accepted(p, room) == p
              && Accepted(p + q, room) == p + Accepted(q, RoomAfter(p, room))
              && RoomAfter(p + q, room) == RoomAfter(q, RoomAfter(p, room))
    ensures |p| > room ==>
              Accepted(p + q, room) == Accepted(p, room) && RoomAfter(p, room) == RoomAfter(p + q, room) == 0
  {
    if |p| > room {
      assert (p + q)[..room] == p[..room];
    }
  }

  /** Everything when it fits, otherwise as much as there is room for, and a prefix in either case. */
  lemma AcceptedIsPrefix(p: Bytes, room: nat)
    ensures Accepted(p, room) <= p && (Accepted(p, room) == p <==> |p| <= room)
    ensures |p| > room ==> |Accepted(p, room)| == room
  {}

  /** bufio.Reader: it may have pulled any amount ahead of what has been asked for. */
  class BufReader {
    const src: Wire
    var buf: Bytes

    ghost function Unread(): Bytes
      reads this, src
    {
      buf + src.rest
    }

    constructor (src: Wire)
      ensures this.src == src && buf == []
    {
      this.src, buf := src, [];
    }

    method Fill() returns (more: bool)
      modifies this, src
      ensures Unread() == old(Unread())
      ensures src.chunks != [] && src.chunks == old(src.chunks) + [Last(src.chunks)]
      ensures buf == old(buf) + Last(src.chunks)
      ensures more <==> |src.rest| < |old(src.rest)|
      ensures !more ==> old(src.rest) == [] && buf == old(buf)
    {
      var chunk := src.Read(4096);
      ghost var before := buf;
      buf := buf + chunk;
      more := chunk != [];
      assert before + (chunk + src.rest) == buf + src.rest;
    }

    /** Reads through the first newline; without one, drains the stream and fails. */
    method ReadLine() returns (line: Bytes, ok: bool)
      modifies this, src
      ensures match Cut(old(Unread()), NEWLINE)
              case Some((before, after)) => ok && line == before + [NEWLINE] && Unread() == after
              case None => !ok && line == old(Unread()) && Unread() == []
      ensures old(src.chunks) <= src.chunks
      ensures ok ==> PullLine(old(buf), src.chunks[|old(src.chunks)|..]) == Some(Pulled(line, buf, []))
    {
      ghost var all, start, pulled: seq<Bytes> := Unread(), buf, [];
      var more := true;
      while NEWLINE !in buf && more
        invariant Unread() == all
        invariant src.chunks == old(src.chunks) + pulled && buf == start + Concat(pulled)
        invariant PullLine(start, pulled) == PullLine(buf, [])
        invariant !more ==> src.rest == []
        decreases |src.rest|, more
      {
        CutIsStable(buf, NEWLINE, []);
        more := Fill();
        ghost var chunk := Last(src.chunks);
        PullLineContinues(start, pulled, [chunk]);
        ConcatAppends(pulled, [chunk]);
        assert Concat([chunk]) == chunk;
        pulled := pulled + [chunk];
      }
      CutIsStable(buf, NEWLINE, src.rest);
      match Cut(buf, NEWLINE)
      case Some((before, after)) =>
        line, ok := before + [NEWLINE], true;
        buf := after;
      case None =>
        assert buf + src.rest == buf;
        line, ok := buf, false;
        buf := [];
    }

    /** One read: from the buffer alone while it holds anything. */
    method Read(max: nat) returns (chunk: Bytes)
      modifies this, src
      ensures old(Unread()) == chunk + Unread() && |chunk| <= max
      ensures chunk == [] ==> max == 0 || old(Unread()) == []
      ensures old(buf) != [] ==> src.rest == old(src.rest) && old(buf) == chunk + buf
    {
      if buf == [] && max > 0 {
        var _ := Fill();
      }
      var n := Min(max, |buf|);
      chunk := buf[..n];
      buf := buf[n..];
      assert chunk + (buf + src.rest) == chunk + buf + src.rest;
    }

    /** io.ReadFull: `n` bytes, or everything that was left. */
    method ReadFull(n: nat) returns (got: Bytes)
      modifies this, src
      ensures old(Unread()) == got + Unread()
      ensures |got| == Min(n, |old(Unread())|)
    {
      got := [];
      ghost var all := Unread();
      var more := true;
      while |got| < n && more
        invariant all == got + Unread() && |got| <= n
        invariant !more ==> Unread() == []
        decreases n - |got|, more
      {
        var chunk := Read(n - |got|);
        Associates(got, chunk, Unread());
        got := got + chunk;
        more := chunk != [];
      }
    }
  }

  /** A connection that first yields what a reader had already pulled off it. */
  class PrefixConn {
    const br: BufReader
    var left: nat

    ghost predicate Valid()
      reads this, br
    {
      left == |br.buf|
    }

    ghost function Unread(): Bytes
      reads this, br, br.src
      requires Valid()
    {
      br.Unread()
    }

    constructor (br: BufReader)
      ensures this.br == br && Valid()
    {
      this.br, left := br, |br.buf|;
    }

    method Read(max: nat) returns (chunk: Bytes)
      requires Valid()
      modifies this, br, br.src
      ensures Valid()
      ensures old(Unread()) == chunk + Unread() && |chunk| <= max
      ensures chunk == [] ==> max == 0 || old(Unread()) == []
    {
      if left > 0 {
        chunk := br.Read(Min(max, left));
        left := left - |chunk|;
      } else {
        chunk := br.src.Read(max);
      }
    }
  }

  /** What bytes can be copied from. */
  datatype Source = Direct(wire: Wire) | Prefixed(conn: PrefixConn) | Buffered(br: BufReader) {
    ghost function Footprint(): set<object> {
      match this
      case Direct(wire) => {wire}
      case Prefixed(conn) => {conn, conn.br, conn.br.src}
      case Buffered(br) => {br, br.src}
    }

    ghost predicate Valid()
      reads Footprint()
    {
      Prefixed? ==> conn.Valid()
    }

    ghost function Unread(): Bytes
      reads Footprint()
      requires Valid()
    {
      match this
      case Direct(wire) => wire.rest
      case Prefixed(conn) => conn.Unread()
      case Buffered(br) => br.Unread()
    }

    method Read(max: nat) returns (chunk: Bytes)
      requires Valid()
      modifies Footprint()
      ensures Valid()
      ensures old(Unread()) == chunk + Unread() && |chunk| <= max
      ensures chunk == [] ==> max == 0 || old(Unread()) == []
    {
      match this
      case Direct(wire) => chunk := wire.Read(max);
      case Prefixed(conn) => chunk := conn.Read(max);
      case Buffered(br) => chunk := br.Read(max);
    }
  }

  /** Nothing is lost at the hand-off: the new connection yields exactly what the reader had not returned. */
  method WithBuffered(br: BufReader) returns (conn: Source)
    ensures conn.Valid() && conn.Unread() == br.Unread()
    ensures conn.Footprint() <= {br, br.src} || (conn.Prefixed? && fresh(conn.conn) && conn.conn.br == br)
  {
    if |br.buf| == 0 {
      return Direct(br.src);
    }
    var p := new PrefixConn(br);
    conn := Prefixed(p);
  }

  lemma PrefixOfASum<T>(p: seq<T>, q: seq<T>, got: seq<T>)
    requires got <= p + q
    ensures |got| <= |p| ==> got <= p
    ensures |got| >= |p| ==> got == p + got[|p|..] && got[|p|..] <= q
  {
    assert got == (p + q)[..|got|];
    if |got| >= |p| {
      assert got[|p|..] == q[..|got| - |p|];
    }
  }

  /** io.Copy. The destination gets all of the source when it has room for it, and otherwise exactly what it has
      room for; which of the two, the result says. */
  method Copy(dst: Sink, src: Source) returns (ok: bool)
    requires src.Valid() && dst !in src.Footprint()
    modifies dst, src.Footprint()
    ensures src.Valid()
    ensures ok <==> |old(src.Unread())| <= old(dst.room)
    ensures dst.written == old(dst.written) + Accepted(old(src.Unread()), old(dst.room))
    ensures dst.room == RoomAfter(old(src.Unread()), old(dst.room))
    ensures ok ==> src.Unread() == []
  {
    ghost var start, room, all := dst.written, dst.room, src.Unread();
    ghost var sent: Bytes := [];
    ok := true;
    var more := true;
    while more && ok
      invariant src.Valid()
      invariant ok ==> sent + src.Unread() == all && |sent| <= room
                       && dst.written == start + sent && dst.room == RoomAfter(sent, room)
      invariant !ok ==> |all| > room && dst.written == start + Accepted(all, room) && dst.room == 0
      invariant !more ==> src.Unread() == []
      decreases |src.Unread()|, more && ok
    {
      ghost var rest := src.Unread();
      var chunk := src.Read(32768);
      more := chunk != [];
      if more {
        ok := dst.Write(chunk);
        OneMoreChunk(start, sent, chunk, src.Unread(), room);
        assert sent + (chunk + src.Unread()) == all;
        sent := sent + chunk;
      }
    }
    assert ok ==> sent == all;
  }

  lemma OneMoreChunk(start: Bytes, sent: Bytes, chunk: Bytes, rest: Bytes, room: nat)
    requires |sent| <= room
    ensures sent + (chunk + rest) == sent + chunk + rest
    ensures var left := RoomAfter(sent, room);
            if |chunk| <= left
            then |sent + chunk| <= room && RoomAfter(chunk, left) == RoomAfter(sent + chunk, room)
                 && start + sent + Accepted(chunk, left) == start + (sent + chunk)
            else |sent + (chunk + rest)| > room && RoomAfter(chunk, left) == 0
                 && start + sent + Accepted(chunk, left) == start + Accepted(sent + (chunk + rest), room)
  {
    AcceptedTwice(sent, chunk + rest, room);
    AcceptedTwice(chunk, rest, RoomAfter(sent, room));
  }

  // ---- Counting ---------------------------------------------------------------------------------

  const TWO_TO_64: int := 0x1_0000_0000_0000_0000

  /** Counts what crosses it in each direction, in 64-bit counters. */
  class CountingConn {
    const inner: Source
    const out: Sink
    var bytesIn: nat
    var bytesOut: nat

    ghost predicate Valid()
      reads this, inner.Footprint()
    {
      && inner.Valid() && this !in inner.Footprint() && out !in inner.Footprint()
      && bytesIn < TWO_TO_64 && bytesOut < TWO_TO_64
    }

    constructor (inner: Source, out: Sink)
      requires inner.Valid() && out !in inner.Footprint()
      ensures Valid() && this.inner == inner && this.out == out && bytesIn == 0 && bytesOut == 0
    {
      this.inner, this.out, bytesIn, bytesOut := inner, out, 0, 0;
    }

    method Read(max: nat) returns (chunk: Bytes)
      requires Valid()
      modifies this`bytesIn, inner.Footprint()
      ensures Valid()
      ensures old(inner.Unread()) == chunk + inner.Unread() && |chunk| <= max
      ensures chunk == [] ==> max == 0 || old(inner.Unread()) == []
      ensures bytesIn == (old(bytesIn) + |chunk|) % TWO_TO_64
    {
      chunk := inner.Read(max);
      bytesIn := (bytesIn + |chunk|) % TWO_TO_64;
    }

    /** Counts what was sent, not what was asked to be sent. */
    method Write(p: Bytes) returns (ok: bool)
      requires Valid()
      modifies this`bytesOut, out
      ensures Valid()
      ensures ok <==> |p| <= old(out.room)
      ensures out.written == old(out.written) + Accepted(p, old(out.room)) && out.room == RoomAfter(p, old(out.room))
      ensures bytesOut == (old(bytesOut) + |out.written| - |old(out.written)|) % TWO_TO_64
    {
      var before := |out.written|;
      ok := out.Write(p);
      bytesOut := (bytesOut + |out.written| - before) % TWO_TO_64;
    }
  }
}
