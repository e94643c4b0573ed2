/** Terminal frames on the wire: one type byte, a big-endian length, the payload (internal/protocol/pty.go,
    client/pty.go). */
module PtyFrames {
  import opened Basics
  import opened Streams

  const PTY_DATA: byte := 0
  const PTY_RESIZE: byte := 1
  const MAX_PTY_FRAME: nat := 0x10_0000
  const LENGTH_WIDTH: nat := 4
  const HEADER: nat := 1 + LENGTH_WIDTH

  datatype Frame = Frame(kind: byte, payload: Bytes) {
    predicate Fits() {
      |payload| <= MAX_PTY_FRAME
    }
  }

  function Number(b: byte): int {
    b
  }

  /** encoding/binary's BigEndian, at any width. */
  function BigEndian(n: nat, width: nat): (b: Bytes)
    ensures |b| == width
  {
    if width == 0 then [] else BigEndian(n / 0x100, width - 1) + [n % 0x100]
  }

  function BigEndianValue(b: Bytes): nat {
    if b == [] then 0 else BigEndianValue(DropLast(b)) * 0x100 + Number(Last(b))
  }

  function Span(width: nat): nat {
    if width == 0 then 1 else Span(width - 1) * 0x100
  }

  lemma {:induction false} BigEndianRoundTrip(n: nat, width: nat)
    requires n < Span(width)
    ensures BigEndianValue(BigEndian(n, width)) == n
  {
    if width == 0 {
    } else {
      BigEndianRoundTrip(n / 0x100, width - 1);
      assert DropLast(BigEndian(n, width)) == BigEndian(n / 0x100, width - 1);
    }
  }

  lemma LengthRoundTrip(n: nat)
    requires n <= MAX_PTY_FRAME
    ensures BigEndianValue(BigEndian(n, LENGTH_WIDTH)) == n
  {
    assert Span(1) == 0x100 && Span(2) == 0x1_0000 && Span(3) == 0x100_0000 && Span(4) == 0x1_0000_0000;
    BigEndianRoundTrip(n, LENGTH_WIDTH);
  }

  function Header(f: Frame): Bytes
    requires f.Fits()
  {
    [f.kind] + BigEndian(|f.payload|, LENGTH_WIDTH)
  }

  function Encode(f: Frame): Bytes
    requires f.Fits()
  {
    Header(f) + f.payload
  }

  predicate AllFit(fs: seq<Frame>) {
    forall i :: 0 <= i < |fs| ==> fs[i].Fits()
  }

  function EncodeAll(fs: seq<Frame>): Bytes
    requires AllFit(fs)
  {
    if fs == [] then [] else Encode(fs[0]) + EncodeAll(fs[1..])
  }

  /** io.EOF, io.ErrUnexpectedEOF, and the refusal of a length over the bound. */
  datatype ReadError = EndOfStream | UnexpectedEnd | TooLarge

  datatype Decoded = Got(frame: Frame, rest: Bytes) | Fail(error: ReadError)

  function Decode(s: Bytes): Decoded {
    if s == [] then Fail(EndOfStream)
    else if |s| < HEADER then Fail(UnexpectedEnd)
    else
      var n := BigEndianValue(s[1..HEADER]);
      if n > MAX_PTY_FRAME then Fail(TooLarge)
      else if n == 0 then Got(Frame(s[0], []), s[HEADER..])
      else if |s| == HEADER then Fail(EndOfStream)
      else if |s| < HEADER + n then Fail(UnexpectedEnd)
      else Got(Frame(s[0], s[HEADER..HEADER + n]), s[HEADER + n..])
  }

  lemma DecodeShortens(s: Bytes)
    ensures Decode(s).Got? ==> |Decode(s).rest| < |s|
  {}

  function DecodeAll(s: Bytes): (seq<Frame>, ReadError)
    decreases |s|
  {
    DecodeShortens(s);
    match Decode(s)
    case Fail(error) => ([], error)
    case Got(f, rest) =>
      var (fs, error) := DecodeAll(rest);
      ([f] + fs, error)
  }

  // ---- The code as it stands ------------------------------------------------------------------

  method WritePTYFrame(w: Sink, f: Frame) returns (ok: bool)
    modifies w
    ensures ok <==> f.Fits() && |Encode(f)| <= old(w.room)
    ensures w.written == old(w.written) + (if f.Fits() then Accepted(Encode(f), old(w.room)) else [])
    ensures w.room == if f.Fits() then RoomAfter(Encode(f), old(w.room)) else old(w.room)
  {
    if |f.payload| > MAX_PTY_FRAME {
      return false;
    }
    AcceptedTwice(Header(f), f.payload, w.room);
    ok := w.Write(Header(f));
    if ok {
      ok := w.Write(f.payload);
    }
  }

  method ReadPTYFrame(br: BufReader) returns (f: Frame, error: ReadError, ok: bool)
    modifies br, br.src
    ensures match Decode(old(br.Unread()))
            case Got(frame, rest) => ok && f == frame && br.Unread() == rest
            case Fail(e) => !ok && error == e
  {
    ghost var all := br.Unread();
    f, error, ok := Frame(0, []), EndOfStream, false;
    var hdr := br.ReadFull(HEADER);
    if |hdr| < HEADER {
      error := if hdr == [] then EndOfStream else UnexpectedEnd;
      return;
    }
    assert hdr[1..] == all[1..HEADER] && br.Unread() == all[HEADER..];
    var n := BigEndianValue(hdr[1..]);
    if n > MAX_PTY_FRAME {
      error := TooLarge;
      return;
    }
    if n == 0 {
      f, ok := Frame(hdr[0], []), true;
      return;
    }
    var payload := br.ReadFull(n);
    if |payload| < n {
      error := if payload == [] then EndOfStream else UnexpectedEnd;
      return;
    }
    f, ok := Frame(hdr[0], payload), true;
  }

  // ---- What is on the wire -----------------------------------------------------------------------

  /** A frame is its type, its length in four bytes, most significant first, and its payload. */
  lemma FrameLayout(f: Frame)
    requires f.Fits()
    ensures var s, n := Encode(f), |f.payload|;
            && |s| == 5 + n && s[0] == f.kind && s[5..] == f.payload
            && Number(s[1]) * 0x100_0000 + Number(s[2]) * 0x1_0000 + Number(s[3]) * 0x100 + Number(s[4]) == n
  {
    var n := |f.payload|;
    var b := BigEndian(n, LENGTH_WIDTH);
    LengthRoundTrip(n);
    assert Encode(f)[1..5] == b && Encode(f)[5..] == f.payload;
    FourBytes(b[0], b[1], b[2], b[3]);
    assert b == [b[0], b[1], b[2], b[3]];
  }

  lemma FourBytes(a: byte, b: byte, c: byte, d: byte)
    ensures BigEndianValue([a, b, c, d])
            == Number(a) * 0x100_0000 + Number(b) * 0x1_0000 + Number(c) * 0x100 + Number(d)
  {
    OneMoreByte([], a);
    OneMoreByte([a], b);
    OneMoreByte([a, b], c);
    OneMoreByte([a, b, c], d);
    assert [] + [a] == [a] && [a] + [b] == [a, b] && [a, b] + [c] == [a, b, c] && [a, b, c] + [d] == [a, b, c, d];
  }

  lemma OneMoreByte(front: Bytes, b: byte)
    ensures BigEndianValue(front + [b]) == BigEndianValue(front) * 0x100 + Number(b)
  {
    assert DropLast(front + [b]) == front;
  }

  /** A length over 2^20 is refused, whatever follows it; one up to that is not. */
  lemma OversizedIsRefused(kind: byte, n: nat, rest: Bytes)
    requires n < 0x1_0000_0000
    ensures Decode([kind] + BigEndian(n, 4) + rest) == Fail(TooLarge) <==> n > 0x10_0000
  {
    var s := [kind] + BigEndian(n, 4) + rest;
    assert Span(1) == 0x100 && Span(2) == 0x1_0000 && Span(3) == 0x100_0000 && Span(4) == 0x1_0000_0000;
    BigEndianRoundTrip(n, 4);
    assert s[1..HEADER] == BigEndian(n, 4);
  }

  // ---- The code is prefix-safe -------------------------------------------------------------------

  lemma DecodeEncoded(f: Frame, rest: Bytes)
    requires f.Fits()
    ensures Decode(Encode(f) + rest) == Got(f, rest)
  {
    var s := Encode(f) + rest;
    LengthRoundTrip(|f.payload|);
    assert s[1..HEADER] == BigEndian(|f.payload|, LENGTH_WIDTH);
    assert s[HEADER..HEADER + |f.payload|] == f.payload && s[HEADER + |f.payload|..] == rest;
  }

  lemma DecodeCut(f: Frame, k: nat)
    requires f.Fits() && k < |Encode(f)|
    ensures Decode(Encode(f)[..k]) == Fail(CutError(k))
  {
    LengthRoundTrip(|f.payload|);
    if k >= HEADER {
      assert Encode(f)[..k][1..HEADER] == BigEndian(|f.payload|, LENGTH_WIDTH);
    }
  }

  lemma DecodeAllEncoded(f: Frame, rest: Bytes)
    requires f.Fits()
    ensures DecodeAll(Encode(f) + rest) == ([f] + DecodeAll(rest).0, DecodeAll(rest).1)
  {
    DecodeEncoded(f, rest);
  }

  lemma DecodeAllCut(f: Frame, k: nat)
    requires f.Fits() && k < |Encode(f)|
    ensures DecodeAll(Encode(f)[..k]) == ([], CutError(k))
  {
    DecodeCut(f, k);
  }

  /** How many of the frames lie wholly within the first `k` bytes of their encoding. */
  function WholeFrames(fs: seq<Frame>, k: nat): (m: nat)
    requires AllFit(fs)
    ensures m <= |fs|
  {
    if fs == [] || k < |Encode(fs[0])| then 0 else 1 + WholeFrames(fs[1..], k - |Encode(fs[0])|)
  }

  lemma {:induction false} WholeFramesAreCounted(fs: seq<Frame>, k: nat)
    requires AllFit(fs)
    requires k <= |EncodeAll(fs)|
    ensures var m := WholeFrames(fs, k);
            && |EncodeAll(fs[..m])| <= k
            && (m < |fs| ==> k < |EncodeAll(fs[..m])| + |Encode(fs[m])|)
            && (k == |EncodeAll(fs)| ==> m == |fs|)
  {
    if fs != [] && k >= |Encode(fs[0])| {
      var m := WholeFrames(fs[1..], k - |Encode(fs[0])|);
      WholeFramesAreCounted(fs[1..], k - |Encode(fs[0])|);
      assert fs[..m + 1][0] == fs[0] && fs[..m + 1][1..] == fs[1..][..m];
    } else {
      assert fs[..0] == [];
    }
  }

  /** How a read ends when the stream stops `cut` bytes into a frame: cleanly at the start of the frame and
      also right after its header. */
  function CutError(cut: int): ReadError {
    if cut == 0 || cut == HEADER then EndOfStream else UnexpectedEnd
  }

  /** Decoding `s` yields `whole` and then the error for what is left over. */
  predicate DecodesTo(s: Bytes, whole: seq<Frame>)
    requires AllFit(whole)
  {
    DecodeAll(s) == (whole, CutError(|s| - |EncodeAll(whole)|))
  }

  lemma EncodeAllCons(f: Frame, fs: seq<Frame>)
    requires f.Fits() && AllFit(fs)
    ensures EncodeAll([f] + fs) == Encode(f) + EncodeAll(fs)
  {
    assert ([f] + fs)[1..] == fs;
  }

  lemma PrefixPastFirst(first: Bytes, rest: Bytes, k: nat)
    requires |first| <= k <= |first| + |rest|
    ensures (first + rest)[..k] == first + rest[..k - |first|]
  {}

  lemma DecodesOneMore(f: Frame, rest: Bytes, whole: seq<Frame>)
    requires f.Fits() && AllFit(whole) && DecodesTo(rest, whole)
    ensures DecodesTo(Encode(f) + rest, [f] + whole)
  {
    DecodeAllEncoded(f, rest);
    EncodeAllCons(f, whole);
  }

  /** Decoding any prefix of an encoded list yields exactly the frames that are whole in it, then an error:
      a clean end of stream only when what is cut off starts at a frame or right after a header. */
  lemma {:induction false} EveryPrefixDecodesToItsWholeFrames(fs: seq<Frame>, k: nat)
    requires AllFit(fs)
    requires k <= |EncodeAll(fs)|
    ensures DecodesTo(EncodeAll(fs)[..k], fs[..WholeFrames(fs, k)])
  {
    if fs == [] {
    } else {
      var first, others := Encode(fs[0]), EncodeAll(fs[1..]);
      if k < |first| {
        assert (first + others)[..k] == first[..k];
        DecodeAllCut(fs[0], k);
        assert fs[..0] == [];
      } else {
        var m := WholeFrames(fs[1..], k - |first|);
        EveryPrefixDecodesToItsWholeFrames(fs[1..], k - |first|);
        PrefixPastFirst(first, others, k);
        DecodesOneMore(fs[0], others[..k - |first|], fs[1..][..m]);
        assert fs[..m + 1] == [fs[0]] + fs[1..][..m];
      }
    }
  }

  /** In particular the whole encoding decodes to the whole list. */
  lemma RoundTrip(fs: seq<Frame>)
    requires AllFit(fs)
    ensures DecodeAll(EncodeAll(fs)) == (fs, EndOfStream)
  {
    var all := EncodeAll(fs);
    EveryPrefixDecodesToItsWholeFrames(fs, |all|);
    WholeFramesAreCounted(fs, |all|);
    assert all[..|all|] == all && fs[..|fs|] == fs;
  }

  lemma {:induction false} EncodeAllSplits(fs: seq<Frame>, m: nat)
    requires m <= |fs| && AllFit(fs)
    ensures EncodeAll(fs) == EncodeAll(fs[..m]) + EncodeAll(fs[m..])
  {
    if m == 0 {
      assert fs[..0] == [] && fs[0..] == fs;
    } else {
      EncodeAllSplits(fs[1..], m - 1);
      assert fs[..m] == [fs[0]] + fs[1..][..m - 1] && fs[1..][m - 1..] == fs[m..];
      Associates(Encode(fs[0]), EncodeAll(fs[1..][..m - 1]), EncodeAll(fs[m..]));
    }
  }

  // ---- Window sizes --------------------------------------------------------------------------------

  function PTYResizePayload(cols: int, rows: int): Bytes
    requires 0 <= cols < 0x1_0000 && 0 <= rows < 0x1_0000
  {
    [cols / 0x100, cols % 0x100, rows / 0x100, rows % 0x100]
  }

  function PTYSize(payload: Bytes): Option<(int, int)> {
    if |payload| != 4 then None
    else Some((Number(payload[0]) * 0x100 + Number(payload[1]), Number(payload[2]) * 0x100 + Number(payload[3])))
  }

  /** Every size survives the wire, and every payload of four bytes is the encoding of the size read from it. */
  lemma SizeRoundTrip(cols: int, rows: int, payload: Bytes)
    requires 0 <= cols < 0x1_0000 && 0 <= rows < 0x1_0000
    ensures PTYSize(PTYResizePayload(cols, rows)) == Some((cols, rows))
    ensures PTYSize(payload).Some? ==>
              var (c, r) := PTYSize(payload).value;
              0 <= c < 0x1_0000 && 0 <= r < 0x1_0000 && PTYResizePayload(c, r) == payload
  {}

  /** Columns, then rows, each most significant byte first. */
  lemma SizeLayout(cols: int, rows: int)
    requires 0 <= cols < 0x1_0000 && 0 <= rows < 0x1_0000
    ensures var p := PTYResizePayload(cols, rows);
            Number(p[0]) * 0x100 + Number(p[1]) == cols && Number(p[2]) * 0x100 + Number(p[3]) == rows
  {}

  // ---- The agent's terminal --------------------------------------------------------------------------

  /** What a frame does to a terminal: the keystrokes it feeds and the size it sets. */
  function FrameKeys(f: Frame): Bytes {
    if f.kind == PTY_DATA then f.payload else []
  }

  function FrameSizes(f: Frame): seq<(int, int)> {
    if f.kind == PTY_RESIZE && PTYSize(f.payload).Some? then [PTYSize(f.payload).value] else []
  }

  function Keystrokes(fs: seq<Frame>): Bytes {
    if fs == [] then [] else FrameKeys(fs[0]) + Keystrokes(fs[1..])
  }

  function Sizes(fs: seq<Frame>): seq<(int, int)> {
    if fs == [] then [] else FrameSizes(fs[0]) + Sizes(fs[1..])
  }

  class Term {
    const input: Sink
    var sizes: seq<(int, int)>

    constructor (input: Sink)
      ensures this.input == input && sizes == []
    {
      this.input, sizes := input, [];
    }

    /** One turn of handlePTY's loop; it fails only when the terminal no longer takes input. */
    method Apply(f: Frame) returns (ok: bool)
      modifies this, input
      ensures ok <==> |FrameKeys(f)| <= old(input.room)
      ensures input.written == old(input.written) + Accepted(FrameKeys(f), old(input.room))
      ensures input.room == RoomAfter(FrameKeys(f), old(input.room)) && sizes == old(sizes) + FrameSizes(f)
    {
      ok := true;
      if f.kind == PTY_DATA {
        ok := input.Write(f.payload);
      } else if f.kind == PTY_RESIZE {
        var size := PTYSize(f.payload);
        if size.Some? {
          sizes := sizes + [size.value];
        }
      }
    }
  }

  /** The sizes of the frames up to the first whose keystrokes no longer fit. */
  function SizesWithin(fs: seq<Frame>, room: nat): seq<(int, int)> {
    if fs == [] || |FrameKeys(fs[0])| > room then []
    else FrameSizes(fs[0]) + SizesWithin(fs[1..], RoomAfter(FrameKeys(fs[0]), room))
  }

  lemma {:induction false} SizesFit(fs: seq<Frame>, room: nat)
    requires |Keystrokes(fs)| <= room
    ensures SizesWithin(fs, room) == Sizes(fs)
  {
    if fs == [] {
    } else {
      SizesFit(fs[1..], RoomAfter(FrameKeys(fs[0]), room));
    }
  }

  /** What a whole stream does to a terminal. */
  function StreamKeys(s: Bytes): Bytes {
    Keystrokes(DecodeAll(s).0)
  }

  function StreamSizes(s: Bytes, room: nat): seq<(int, int)> {
    SizesWithin(DecodeAll(s).0, room)
  }

  lemma StreamSteps(s: Bytes, room: nat)
    ensures match Decode(s)
            case Fail(_) => StreamKeys(s) == [] && StreamSizes(s, room) == []
            case Got(f, rest) =>
              && |rest| < |s|
              && StreamKeys(s) == FrameKeys(f) + StreamKeys(rest)
              && StreamSizes(s, room) == if |FrameKeys(f)| > room then []
                                         else FrameSizes(f) + StreamSizes(rest, RoomAfter(FrameKeys(f), room))
  {
    DecodeShortens(s);
    if Decode(s).Got? {
      assert DecodeAll(s).0[1..] == DecodeAll(Decode(s).rest).0;
    }
  }

  /** One turn of the loop: `more` until the stream ends or the terminal takes no more. */
  method Turn(br: BufReader, term: Term) returns (more: bool, clean: bool)
    modifies br, br.src, term, term.input
    ensures match Decode(old(br.Unread()))
            case Fail(_) =>
              && !more && clean && term.input.written == old(term.input.written)
              && term.input.room == old(term.input.room) && term.sizes == old(term.sizes)
            case Got(f, rest) =>
              && br.Unread() == rest && more == clean && (clean <==> |FrameKeys(f)| <= old(term.input.room))
              && term.input.written == old(term.input.written) + Accepted(FrameKeys(f), old(term.input.room))
              && term.input.room == RoomAfter(FrameKeys(f), old(term.input.room))
              && term.sizes == old(term.sizes) + FrameSizes(f)
  {
    var f, _, ok := ReadPTYFrame(br);
    if !ok {
      return false, true;
    }
    clean := term.Apply(f);
    more := clean;
  }

  /** handlePTY's loop. The terminal is fed exactly the data payloads of the frames that arrive whole, in order,
      as far as it takes input, and every well-formed size before it stops; an unknown frame or a malformed size
      changes nothing. It ends cleanly exactly when the terminal takes them all. */
  method HandlePTY(br: BufReader, term: Term) returns (clean: bool)
    modifies br, br.src, term, term.input
    ensures clean <==> |StreamKeys(old(br.Unread()))| <= old(term.input.room)
    ensures term.input.written == old(term.input.written) + Accepted(StreamKeys(old(br.Unread())), old(term.input.room))
    ensures term.sizes == old(term.sizes) + StreamSizes(old(br.Unread()), old(term.input.room))
  {
    ghost var keys, sizes, room := term.input.written, term.sizes, term.input.room;
    ghost var allKeys, allSizes := StreamKeys(br.Unread()), StreamSizes(br.Unread(), room);
    ghost var fed: Bytes := [];
    var more := true;
    clean := true;
    while more
      invariant more ==> clean && fed + StreamKeys(br.Unread()) == allKeys && |fed| <= room
      invariant more ==> term.input.written == keys + fed && term.input.room == RoomAfter(fed, room)
      invariant more ==> term.sizes + StreamSizes(br.Unread(), term.input.room) == sizes + allSizes
      invariant !more ==> (clean <==> |allKeys| <= room)
      invariant !more ==> term.input.written == keys + Accepted(allKeys, room) && term.sizes == sizes + allSizes
      decreases if more then |br.Unread()| + 1 else 0
    {
      ghost var pending, left, before := br.Unread(), term.input.room, term.sizes;
      StreamSteps(pending, left);
      more, clean := Turn(br, term);
      match Decode(pending)
      case Fail(_) =>
        assert fed == allKeys;
      case Got(f, rest) =>
        OneMoreChunk(keys, fed, FrameKeys(f), StreamKeys(rest), room);
        Associates(before, FrameSizes(f), StreamSizes(rest, term.input.room));
        fed := fed + FrameKeys(f);
    }
  }

  /** End to end: however the operator's frames are cut in transit, the terminal is fed the keystrokes and
      given the sizes of exactly the frames that arrived whole. */
  lemma TerminalGetsTheWholeFrames(fs: seq<Frame>, k: nat)
    requires AllFit(fs)
    requires k <= |EncodeAll(fs)|
    ensures StreamKeys(EncodeAll(fs)[..k]) == Keystrokes(fs[..WholeFrames(fs, k)])
    ensures forall room :: StreamSizes(EncodeAll(fs)[..k], room) == SizesWithin(fs[..WholeFrames(fs, k)], room)
    ensures k == |EncodeAll(fs)| ==> StreamKeys(EncodeAll(fs)) == Keystrokes(fs)
  {
    EveryPrefixDecodesToItsWholeFrames(fs, k);
    RoundTrip(fs);
  }
}
