/** Go's strings.TrimSpace on UTF-8 bytes, and strings.Cut. */
module Text {
  import opened Basics

  // Unicode White_Space, by the length of its UTF-8 form.

  predicate Space1(b: byte) {
    9 <= b <= 13 || b == 32
  }

  predicate Space2(b: byte, c: byte) {
    b == 0xC2 && (c == 0x85 || c == 0xA0)
  }

  predicate Space3(b: byte, c: byte, d: byte) {
    || (b == 0xE1 && c == 0x9A && d == 0x80)
    || (b == 0xE2 && c == 0x80 && (0x80 <= d <= 0x8A || d == 0xA8 || d == 0xA9 || d == 0xAF))
    || (b == 0xE2 && c == 0x81 && d == 0x9F)
    || (b == 0xE3 && c == 0x80 && d == 0x80)
  }

  /** The length of the white-space rune that starts `s`, 0 when there is none. */
  function LeadingSpace(s: Bytes): (n: nat)
    ensures n <= |s|
  {
    if |s| >= 1 && Space1(s[0]) then 1
    else if |s| >= 2 && Space2(s[0], s[1]) then 2
    else if |s| >= 3 && Space3(s[0], s[1], s[2]) then 3
    else 0
  }

  /** The length of the white-space rune that ends `s`, 0 when there is none. */
  function TrailingSpace(s: Bytes): (n: nat)
    ensures n <= |s|
  {
    var m := |s|;
    if m >= 1 && Space1(s[m - 1]) then 1
    else if m >= 2 && Space2(s[m - 2], s[m - 1]) then 2
    else if m >= 3 && Space3(s[m - 3], s[m - 2], s[m - 1]) then 3
    else 0
  }

  function TrimLeft(s: Bytes): Bytes
    decreases |s|
  {
    if LeadingSpace(s) == 0 then s else TrimLeft(s[LeadingSpace(s)..])
  }

  function TrimRight(s: Bytes): Bytes
    decreases |s|
  {
    if TrailingSpace(s) == 0 then s else TrimRight(s[..|s| - TrailingSpace(s)])
  }

  function TrimSpace(s: Bytes): Bytes {
    TrimRight(TrimLeft(s))
  }

  // ---- How trimming composes -------------------------------------------------------

  /** One white-space rune. */
  predicate SpaceRune(sp: Bytes) {
    sp != [] && LeadingSpace(sp) == |sp|
  }

  /** Unicode's White_Space, by code point. */
  predicate WhiteSpace(cp: int) {
    || 9 <= cp <= 13 || cp == 0x20 || cp == 0x85 || cp == 0xA0 || cp == 0x1680 || 0x2000 <= cp <= 0x200A
    || cp == 0x2028 || cp == 0x2029 || cp == 0x202F || cp == 0x205F || cp == 0x3000
  }

  /** The UTF-8 form of a code point of the basic plane. */
  function Utf8(cp: int): Bytes
    requires 0 <= cp < 0x1_0000
  {
    if cp < 0x80 then [cp]
    else if cp < 0x800 then [0xC0 + cp / 0x40, 0x80 + cp % 0x40]
    else [0xE0 + cp / 0x1000, 0x80 + cp / 0x40 % 0x40, 0x80 + cp % 0x40]
  }

  /** What is trimmed is White_Space in UTF-8, and all of it. */
  lemma SpaceRunesAreWhiteSpace(sp: Bytes)
    ensures SpaceRune(sp) <==> exists cp :: 0 <= cp < 0x1_0000 && WhiteSpace(cp) && sp == Utf8(cp)
  {
    if cp :| 0 <= cp < 0x1_0000 && WhiteSpace(cp) && sp == Utf8(cp) {
      WhiteSpaceIsSpaceRune(cp);
    }
    if SpaceRune(sp) {
      var cp := CodePointOf(sp);
      assert sp == Utf8(cp);
    }
  }

  lemma WhiteSpaceIsSpaceRune(cp: int)
    requires 0 <= cp < 0x1_0000 && WhiteSpace(cp)
    ensures SpaceRune(Utf8(cp))
  {}

  lemma CodePointOf(sp: Bytes) returns (cp: int)
    requires SpaceRune(sp)
    ensures 0 <= cp < 0x1_0000 && WhiteSpace(cp) && sp == Utf8(cp)
  {
    var a: int := sp[0];
    if |sp| == 1 {
      cp := a;
    } else {
      var b: int := sp[1];
      if |sp| == 2 {
        cp := (a - 0xC0) * 0x40 + (b - 0x80);
      } else {
        var c: int := sp[2];
        cp := (a - 0xE0) * 0x1000 + (b - 0x80) * 0x40 + (c - 0x80);
      }
    }
  }

  lemma LeadingSpaceIsPrefix(s: Bytes, more: Bytes)
    ensures LeadingSpace(s) > 0 ==> LeadingSpace(s + more) == LeadingSpace(s)
    ensures SpaceRune(more) && s != [] ==> LeadingSpace(s + more) == LeadingSpace(s)
  {}

  lemma TrailingRune(y: Bytes, sp: Bytes)
    requires SpaceRune(sp)
    ensures TrailingSpace(y + sp) == |sp| && (y + sp)[..|y|] == y
  {}

  lemma TrailingSpaceIsRune(s: Bytes)
    requires TrailingSpace(s) > 0
    ensures SpaceRune(s[|s| - TrailingSpace(s)..])
  {}

  /** A white-space rune at the end never changes what is left after trimming. */
  lemma {:induction false} TrimDropsTrailingRune(y: Bytes, sp: Bytes)
    requires SpaceRune(sp)
    ensures TrimSpace(y + sp) == TrimSpace(y)
    decreases |y|
  {
    var s := y + sp;
    var n := LeadingSpace(y);
    if y == [] {
      assert s == sp && sp[|sp|..] == [];
      assert TrimLeft(sp) == TrimLeft([]);
    } else if n > 0 {
      LeadingSpaceIsPrefix(y, sp);
      assert s[n..] == y[n..] + sp;
      TrimDropsTrailingRune(y[n..], sp);
    } else {
      LeadingSpaceIsPrefix(y, sp);
      TrailingRune(y, sp);
    }
  }

  lemma {:induction false} TrimAfterTrimRight(s: Bytes)
    ensures TrimSpace(TrimRight(s)) == TrimSpace(s)
    decreases |s|
  {
    var n := TrailingSpace(s);
    if n == 0 {
    } else {
      TrimAfterTrimRight(s[..|s| - n]);
      assert s == s[..|s| - n] + s[|s| - n..];
      TrailingSpaceIsRune(s);
      TrimDropsTrailingRune(s[..|s| - n], s[|s| - n..]);
    }
  }

  lemma {:induction false} TrimRightIsPrefix(s: Bytes)
    ensures TrimRight(s) <= s && TrailingSpace(TrimRight(s)) == 0
    decreases |s|
  {
    if TrailingSpace(s) == 0 {
    } else {
      TrimRightIsPrefix(s[..|s| - TrailingSpace(s)]);
    }
  }

  lemma {:induction false} TrimLeftIsDone(s: Bytes)
    ensures LeadingSpace(TrimLeft(s)) == 0
    decreases |s|
  {
    if LeadingSpace(s) == 0 {
    } else {
      TrimLeftIsDone(s[LeadingSpace(s)..]);
    }
  }

  /** Trimmed text has no white space at either end, so trimming it again changes nothing. */
  lemma TrimmedIsTrimmed(s: Bytes)
    ensures LeadingSpace(TrimSpace(s)) == 0 && TrailingSpace(TrimSpace(s)) == 0
    ensures TrimSpace(TrimSpace(s)) == TrimSpace(s)
  {
    var t := TrimLeft(s);
    TrimLeftIsDone(s);
    TrimRightIsPrefix(t);
    assert t == TrimRight(t) + t[|TrimRight(t)|..];
    LeadingSpaceIsPrefix(TrimRight(t), t[|TrimRight(t)|..]);
  }

  /** One white-space rune after another. */
  predicate AllSpace(s: Bytes)
    decreases |s|
  {
    s == [] || (LeadingSpace(s) > 0 && AllSpace(s[LeadingSpace(s)..]))
  }

  lemma {:induction false} TrimLeftTakesSpace(s: Bytes) returns (lead: Bytes)
    ensures AllSpace(lead) && s == lead + TrimLeft(s)
    decreases |s|
  {
    var n := LeadingSpace(s);
    if n == 0 {
      lead := [];
    } else {
      var rest := TrimLeftTakesSpace(s[n..]);
      LeadingSpaceIsRune(s);
      SpaceFirst(s[..n], rest);
      lead := s[..n] + rest;
      assert s == s[..n] + s[n..];
      Associates(s[..n], rest, TrimLeft(s[n..]));
    }
  }

  lemma LeadingSpaceIsRune(s: Bytes)
    requires LeadingSpace(s) > 0
    ensures SpaceRune(s[..LeadingSpace(s)])
  {}

  lemma SpaceFirst(rune: Bytes, rest: Bytes)
    requires SpaceRune(rune) && AllSpace(rest)
    ensures AllSpace(rune + rest)
  {
    LeadingSpaceIsPrefix(rune, rest);
    assert (rune + rest)[|rune|..] == rest;
  }

  lemma {:induction false} SpaceLast(rest: Bytes, rune: Bytes)
    requires SpaceRune(rune) && AllSpace(rest)
    ensures AllSpace(rest + rune)
    decreases |rest|
  {
    if rest == [] {
      assert rest + rune == rune && rune[|rune|..] == [];
    } else {
      var n := LeadingSpace(rest);
      SpaceLast(rest[n..], rune);
      LeadingSpaceIsPrefix(rest, rune);
      assert (rest + rune)[n..] == rest[n..] + rune;
    }
  }

  lemma {:induction false} TrimRightTakesSpace(s: Bytes) returns (trail: Bytes)
    ensures AllSpace(trail) && s == TrimRight(s) + trail
    decreases |s|
  {
    var n := TrailingSpace(s);
    if n == 0 {
      trail := [];
    } else {
      var front, rune := s[..|s| - n], s[|s| - n..];
      var rest := TrimRightTakesSpace(front);
      TrailingSpaceIsRune(s);
      SpaceLast(rest, rune);
      trail := rest + rune;
      assert s == front + rune;
      Associates(TrimRight(front), rest, rune);
    }
  }

  /** Trimming takes white space off both ends and nothing else, and leaves none there. */
  lemma TrimTakesExactlyTheOuterSpace(s: Bytes) returns (lead: Bytes, trail: Bytes)
    ensures AllSpace(lead) && AllSpace(trail) && s == lead + TrimSpace(s) + trail
    ensures LeadingSpace(TrimSpace(s)) == 0 && TrailingSpace(TrimSpace(s)) == 0
  {
    lead := TrimLeftTakesSpace(s);
    trail := TrimRightTakesSpace(TrimLeft(s));
    Associates(lead, TrimSpace(s), trail);
    TrimmedIsTrimmed(s);
  }

  /** Trimming on the right stops at an ASCII character that is not white space. */
  lemma {:induction false} TrimRightStops(p: Bytes, x: Bytes)
    requires p != [] && 33 <= Last(p) < 0x80
    ensures TrimRight(p + x) == p + TrimRight(x)
    decreases |x|
  {
    var s, n := p + x, TrailingSpace(x);
    assert TrailingSpace(s) == n;
    if n == 0 {
    } else {
      TrimRightStops(p, x[..|x| - n]);
      assert s[..|s| - n] == p + x[..|x| - n];
    }
  }

  /** Splits at the first separator, as strings.Cut does. */
  function Cut(text: Bytes, sep: byte): Option<(Bytes, Bytes)> {
    if text == [] then None
    else if text[0] == sep then Some(([], text[1..]))
    else
      match Cut(text[1..], sep)
      case None => None
      case Some((before, after)) => Some(([text[0]] + before, after))
  }

  lemma {:induction false} CutAtFirst(before: Bytes, sep: byte, after: Bytes)
    requires sep !in before
    ensures Cut(before + [sep] + after, sep) == Some((before, after))
  {
    var text := before + [sep] + after;
    if before == [] {
      assert text[1..] == after;
    } else {
      CutAtFirst(before[1..], sep, after);
      assert text[1..] == before[1..] + [sep] + after;
      assert before == [before[0]] + before[1..];
    }
  }

  /** What follows cannot move the first separator. */
  lemma {:induction false} CutIsStable(text: Bytes, sep: byte, more: Bytes)
    ensures Cut(text, sep).Some? <==> sep in text
    ensures sep in text ==>
              var (before, after) := Cut(text, sep).value;
              && text == before + [sep] + after && sep !in before
              && Cut(text + more, sep) == Some((before, after + more))
  {
    if text == [] {
    } else {
      assert (text + more)[0] == text[0] && (text + more)[1..] == text[1..] + more;
      if text[0] != sep {
        CutIsStable(text[1..], sep, more);
        assert text == [text[0]] + text[1..];
      }
    }
  }
}
