/** The two base64 forms on the wire (sections 4 and 5 of RFC 4648), decoded the way Go does: line
    breaks are skipped and the unused low bits of a final group are ignored. */
module Base64 {
  import opened Basics

  datatype Encoding = Std | RawUrl

  type Sextet = v: int | 0 <= v < 64

  const PAD: byte := 61

  // ---- Eight bits to six and back -------------------------------------------

  function Split(bs: Bytes): seq<Sextet> {
    if bs == [] then []
    else if |bs| == 1 then [bs[0] / 4, bs[0] % 4 * 16]
    else if |bs| == 2 then [bs[0] / 4, bs[0] % 4 * 16 + bs[1] / 16, bs[1] % 16 * 4]
    else [bs[0] / 4, bs[0] % 4 * 16 + bs[1] / 16, bs[1] % 16 * 4 + bs[2] / 64, bs[2] % 64] + Split(bs[3..])
  }

  function Byte0(v0: Sextet, v1: Sextet): byte {
    var x: int, y: int := v0, v1;
    x * 4 + y / 16
  }

  function Byte1(v1: Sextet, v2: Sextet): byte {
    var x: int, y: int := v1, v2;
    x % 16 * 16 + y / 4
  }

  function Byte2(v2: Sextet, v3: Sextet): byte {
    var x: int, y: int := v2, v3;
    x % 4 * 64 + y
  }

  function Join(vs: seq<Sextet>): Option<Bytes> {
    if vs == [] then Some([])
    else if |vs| == 1 then None
    else if |vs| == 2 then Some([Byte0(vs[0], vs[1])])
    else if |vs| == 3 then Some([Byte0(vs[0], vs[1]), Byte1(vs[1], vs[2])])
    else
      match Join(vs[4..])
      case None => None
      case Some(rest) => Some([Byte0(vs[0], vs[1]), Byte1(vs[1], vs[2]), Byte2(vs[2], vs[3])] + rest)
  }

  lemma BitsReassemble(a: byte, b: byte, c: byte)
    ensures Byte0(a / 4, a % 4 * 16 + b / 16) == a
    ensures Byte1(a % 4 * 16 + b / 16, b % 16 * 4 + c / 64) == b
    ensures Byte2(b % 16 * 4 + c / 64, c % 64) == c
  {}

  lemma JoinSplitShort(bs: Bytes)
    requires |bs| <= 2
    ensures Join(Split(bs)) == Some(bs) && |Split(bs)| % 4 != 1
  {
    if |bs| == 1 {
      BitsReassemble(bs[0], 0, 0);
      assert bs == [bs[0]];
    } else if |bs| == 2 {
      BitsReassemble(bs[0], bs[1], 0);
      assert bs == [bs[0], bs[1]];
    }
  }

  lemma {:induction false} JoinSplit(bs: Bytes)
    ensures Join(Split(bs)) == Some(bs) && |Split(bs)| % 4 != 1
  {
    if |bs| <= 2 {
      JoinSplitShort(bs);
    } else {
      JoinSplit(bs[3..]);
      SplitTakesGroups(bs);
      JoinOfGroup(Split(bs), bs[3..]);
      BitsReassemble(bs[0], bs[1], bs[2]);
      assert bs == [bs[0], bs[1], bs[2]] + bs[3..];
    }
  }

  lemma SplitTakesGroups(bs: Bytes)
    requires |bs| > 2
    ensures var vs := Split(bs);
            && |vs| >= 4 && vs[4..] == Split(bs[3..])
            && vs[0] == bs[0] / 4 && vs[1] == bs[0] % 4 * 16 + bs[1] / 16
            && vs[2] == bs[1] % 16 * 4 + bs[2] / 64 && vs[3] == bs[2] % 64
  {}

  lemma JoinOfGroup(vs: seq<Sextet>, rest: Bytes)
    requires |vs| >= 4 && Join(vs[4..]) == Some(rest)
    ensures Join(vs) == Some([Byte0(vs[0], vs[1]), Byte1(vs[1], vs[2]), Byte2(vs[2], vs[3])] + rest)
  {}

  // ---- Six bits to symbols and back ------------------------------------------

  function Symbol(v: Sextet, e: Encoding): byte {
    if v < 26 then 65 + v
    else if v < 52 then 71 + v
    else if v < 62 then v - 4
    else if v == 62 then (if e.Std? then 43 else 45)
    else (if e.Std? then 47 else 95)
  }

  function Value(b: byte, e: Encoding): Option<Sextet> {
    if 65 <= b <= 90 then Some(b - 65)
    else if 97 <= b <= 122 then Some(b - 71)
    else if 48 <= b <= 57 then Some(b + 4)
    else if b == Symbol(62, e) then Some(62)
    else if b == Symbol(63, e) then Some(63)
    else None
  }

  lemma ValueOfSymbol(v: Sextet, e: Encoding)
    ensures Value(Symbol(v, e), e) == Some(v)
    ensures Symbol(v, e) !in {DOT, COLON, PAD, 10, 13}
  {}

  // The alphabets of sections 4 and 5.

  const UPPER: string := "ABCDEFGHIJKLMNOPQRSTUVWXYZ"
  const LOWER: string := "abcdefghijklmnopqrstuvwxyz"
  const DIGITS: string := "0123456789"

  function Alphabet(e: Encoding): (letters: string)
    ensures |letters| == 64
  {
    UPPER + LOWER + DIGITS + if e.Std? then "+/" else "-_"
  }

  lemma SymbolIsLetter(v: Sextet, e: Encoding)
    ensures Symbol(v, e) == Alphabet(e)[v] as int
  {
    if v < 26 {
      UpperInOrder(v);
    } else if v < 52 {
      LowerInOrder(v - 26);
    } else if v < 62 {
      DigitsInOrder(v - 52);
    }
  }

  lemma ValueInvertsSymbol(v: Sextet, b: byte, e: Encoding)
    ensures Value(b, e) == Some(v) <==> b == Symbol(v, e)
  {}

  /** Each sextet is written as its letter, and a byte is read as the sextet whose letter it is. */
  lemma SymbolsAreLetters(v: Sextet, b: byte, e: Encoding)
    ensures Symbol(v, e) == Alphabet(e)[v] as int
    ensures Value(b, e) == Some(v) <==> b == Alphabet(e)[v] as int
  {
    SymbolIsLetter(v, e);
    ValueInvertsSymbol(v, b, e);
  }

  lemma UpperInOrder(i: nat)
    requires i < 26
    ensures UPPER[i] as int == 65 + i
  {}

  lemma LowerInOrder(i: nat)
    requires i < 26
    ensures LOWER[i] as int == 97 + i
  {}

  lemma DigitsInOrder(i: nat)
    requires i < 10
    ensures DIGITS[i] as int == 48 + i
  {}

  function Symbols(vs: seq<Sextet>, e: Encoding): Bytes {
    if vs == [] then [] else [Symbol(vs[0], e)] + Symbols(vs[1..], e)
  }

  function Values(s: Bytes, e: Encoding): Option<seq<Sextet>> {
    if s == [] then Some([])
    else
      match (Value(s[0], e), Values(s[1..], e))
      case (Some(v), Some(rest)) => Some([v] + rest)
      case _ => None
  }

  /** Encoded text never holds a separator or a line break. */
  predicate Plain(text: Bytes) {
    forall i :: 0 <= i < |text| ==> text[i] !in {DOT, COLON, 10, 13}
  }

  lemma {:induction false} ValuesOfSymbols(vs: seq<Sextet>, e: Encoding)
    ensures Values(Symbols(vs, e), e) == Some(vs) && |Symbols(vs, e)| == |vs|
    ensures Plain(Symbols(vs, e)) && PAD !in Symbols(vs, e)
  {
    if vs == [] {
    } else {
      ValueOfSymbol(vs[0], e);
      ValuesOfSymbols(vs[1..], e);
      assert Symbols(vs, e)[1..] == Symbols(vs[1..], e) && vs == [vs[0]] + vs[1..];
    }
  }

  // ---- Padding and line breaks -----------------------------------------------

  function Padding(symbols: nat, e: Encoding): Bytes {
    if e.RawUrl? || symbols % 4 == 0 then [] else if symbols % 4 == 3 then [PAD] else [PAD, PAD]
  }

  function Encode(bs: Bytes, e: Encoding): Bytes {
    Symbols(Split(bs), e) + Padding(|Split(bs)|, e)
  }

  function WithoutLineBreaks(text: Bytes): Bytes {
    if text == [] then []
    else (if text[0] == 10 || text[0] == 13 then [] else [text[0]]) + WithoutLineBreaks(text[1..])
  }

  /** Padded text comes in whole groups of four; at most two pads end the last one. */
  function Unpad(s: Bytes, e: Encoding): Option<Bytes> {
    if e.RawUrl? then Some(s)
    else if |s| % 4 != 0 then None
    else if s == [] || Last(s) != PAD then Some(s)
    else if s[|s| - 2] != PAD then Some(DropLast(s))
    else Some(s[..|s| - 2])
  }

  function Decode(text: Bytes, e: Encoding): Option<Bytes> {
    match Unpad(WithoutLineBreaks(text), e)
    case None => None
    case Some(body) =>
      match Values(body, e)
      case None => None
      case Some(vs) => Join(vs)
  }

  lemma {:induction false} NoLineBreaks(text: Bytes)
    requires 10 !in text && 13 !in text
    ensures WithoutLineBreaks(text) == text
  {
    if text == [] {
    } else {
      NoLineBreaks(text[1..]);
    }
  }

  /** A line break anywhere in a text makes no difference. */
  lemma {:induction false} LineBreakIsSkipped(before: Bytes, b: byte, after: Bytes)
    requires b == 10 || b == 13
    ensures WithoutLineBreaks(before + [b] + after) == WithoutLineBreaks(before + after)
  {
    if before == [] {
      assert before + [b] + after == [b] + after && ([b] + after)[1..] == after && before + after == after;
    } else {
      LineBreakIsSkipped(before[1..], b, after);
      assert (before + [b] + after)[1..] == before[1..] + [b] + after;
      assert (before + after)[1..] == before[1..] + after;
    }
  }

  lemma UnpadPadded(body: Bytes, e: Encoding)
    requires PAD !in body && |body| % 4 != 1
    ensures Unpad(body + Padding(|body|, e), e) == Some(body)
  {
    var s := body + Padding(|body|, e);
    if e.Std? && s != [] {
      assert |s| % 4 == 0 && |body| > 0;
      assert |body| % 4 == 0 ==> s == body && Last(s) in body;
      assert |body| % 4 == 2 ==> s[..|s| - 2] == body;
      assert |body| % 4 == 3 ==> DropLast(s) == body && s[|s| - 2] == Last(body) && Last(body) in body;
    } else {
      assert s == body;
    }
  }

  lemma EncodedIsPlain(bs: Bytes, e: Encoding)
    ensures Plain(Encode(bs, e)) && 10 !in Encode(bs, e) && 13 !in Encode(bs, e)
  {
    ValuesOfSymbols(Split(bs), e);
  }

  lemma RoundTrip(bs: Bytes, e: Encoding)
    ensures Decode(Encode(bs, e), e) == Some(bs) && Plain(Encode(bs, e))
  {
    var vs := Split(bs);
    JoinSplit(bs);
    ValuesOfSymbols(vs, e);
    EncodedIsPlain(bs, e);
    NoLineBreaks(Encode(bs, e));
    UnpadPadded(Symbols(vs, e), e);
  }

  // ---- What the digits mean --------------------------------------------------

  function Pow(base: nat, n: nat): nat {
    if n == 0 then 1 else base * Pow(base, n - 1)
  }

  /** Sextets read as one number, most significant first; bytes likewise. */
  function Number64(vs: seq<Sextet>): nat {
    if vs == [] then 0
    else
      var low: int := Last(vs);
      Number64(DropLast(vs)) * 64 + low
  }

  function Number256(bs: Bytes): nat {
    if bs == [] then 0
    else
      var low: int := Last(bs);
      Number256(DropLast(bs)) * 256 + low
  }

  /** How many values the bits of n sextets beyond the last whole byte can take. */
  function Excess(n: nat): nat {
    if n % 4 == 2 then 16 else if n % 4 == 3 then 4 else 1
  }

  lemma {:induction false} Number64Appends(a: seq<Sextet>, b: seq<Sextet>)
    ensures Number64(a + b) == Number64(a) * Pow(64, |b|) + Number64(b)
    decreases |b|
  {
    if b == [] {
      assert a + b == a;
    } else {
      Number64Appends(a, DropLast(b));
      assert DropLast(a + b) == a + DropLast(b);
      assert Number64(a) * Pow(64, |b| - 1) * 64 == Number64(a) * Pow(64, |b|);
    }
  }

  lemma {:induction false} Number256Appends(a: Bytes, b: Bytes)
    ensures Number256(a + b) == Number256(a) * Pow(256, |b|) + Number256(b)
    decreases |b|
  {
    if b == [] {
      assert a + b == a;
    } else {
      Number256Appends(a, DropLast(b));
      assert DropLast(a + b) == a + DropLast(b);
      assert Number256(a) * Pow(256, |b| - 1) * 256 == Number256(a) * Pow(256, |b|);
    }
  }

  lemma FourSextets(n: nat)
    ensures Pow(64, n + 4) == 0x100_0000 * Pow(64, n)
  {
    assert Pow(64, n + 2) == 64 * Pow(64, n + 1) == 64 * (64 * Pow(64, n));
    assert Pow(64, n + 4) == 64 * Pow(64, n + 3) == 64 * (64 * Pow(64, n + 2));
  }

  lemma ThreeBytes(n: nat)
    ensures Pow(256, n + 3) == 0x100_0000 * Pow(256, n)
  {
    assert Pow(256, n + 3) == 256 * Pow(256, n + 2) == 256 * (256 * Pow(256, n + 1));
  }

  lemma {:induction false} PowersMatch(n: nat)
    requires n % 4 != 1
    ensures Pow(64, n) == Excess(n) * Pow(256, 3 * n / 4)
    decreases n
  {
    if n < 4 {
      assert Pow(64, 2) == 64 * Pow(64, 1) && Pow(256, 2) == 256 * Pow(256, 1);
    } else {
      PowersMatch(n - 4);
      FourSextets(n - 4);
      ThreeBytes(3 * (n - 4) / 4);
      OneMoreGroup(n - 4);
      Exchange(0x100_0000, Excess(n), Pow(256, 3 * (n - 4) / 4));
    }
  }

  lemma Exchange(a: int, b: int, c: int)
    ensures a * (b * c) == b * (a * c)
  {}

  lemma GroupBits(x: int, y: int, z: int, w: int)
    requires 0 <= x < 64 && 0 <= y < 64 && 0 <= z < 64 && 0 <= w < 64
    ensures Number(Byte0(x, y)) * 0x1_0000 + Number(Byte1(y, z)) * 0x100 + Number(Byte2(z, w))
            == x * 0x4_0000 + y * 0x1000 + z * 0x40 + w
  {}

  lemma TripleBits(x: int, y: int, z: int)
    requires 0 <= x < 64 && 0 <= y < 64 && 0 <= z < 64
    ensures (Number(Byte0(x, y)) * 0x100 + Number(Byte1(y, z))) * 4 <= x * 0x1000 + y * 0x40 + z
    ensures x * 0x1000 + y * 0x40 + z < (Number(Byte0(x, y)) * 0x100 + Number(Byte1(y, z)) + 1) * 4
  {}

  lemma PairBits(x: int, y: int)
    requires 0 <= x < 64 && 0 <= y < 64
    ensures Number(Byte0(x, y)) * 16 <= x * 0x40 + y < (Number(Byte0(x, y)) + 1) * 16
  {}

  function Number(b: byte): int {
    b
  }

  function Digit(v: Sextet): int {
    v
  }

  lemma Number64Of(front: seq<Sextet>, v: Sextet)
    ensures Number64(front + [v]) == Number64(front) * 64 + Digit(v)
  {
    assert DropLast(front + [v]) == front;
  }

  lemma Number64OfTwo(x: Sextet, y: Sextet)
    ensures Number64([x, y]) == Digit(x) * 0x40 + Digit(y)
  {
    Number64Of([], x);
    assert [] + [x] == [x];
    Number64Of([x], y);
    assert [x] + [y] == [x, y];
  }

  lemma Number64OfThree(x: Sextet, y: Sextet, z: Sextet)
    ensures Number64([x, y, z]) == Digit(x) * 0x1000 + Digit(y) * 0x40 + Digit(z)
  {
    Number64OfTwo(x, y);
    Number64Of([x, y], z);
    assert [x, y] + [z] == [x, y, z];
  }

  lemma Number64OfFour(x: Sextet, y: Sextet, z: Sextet, w: Sextet)
    ensures Number64([x, y, z, w]) == Digit(x) * 0x4_0000 + Digit(y) * 0x1000 + Digit(z) * 0x40 + Digit(w)
  {
    Number64OfThree(x, y, z);
    Number64Of([x, y, z], w);
    assert [x, y, z] + [w] == [x, y, z, w];
  }

  lemma Number256Of(front: Bytes, b: byte)
    ensures Number256(front + [b]) == Number256(front) * 0x100 + Number(b)
  {
    assert DropLast(front + [b]) == front;
  }

  lemma Number256OfTwo(a: byte, b: byte)
    ensures Number256([a]) == Number(a) && Number256([a, b]) == Number(a) * 0x100 + Number(b)
  {
    Number256Of([], a);
    assert [] + [a] == [a];
    Number256Of([a], b);
    assert [a] + [b] == [a, b];
  }

  lemma Number256OfThree(a: byte, b: byte, c: byte)
    ensures Number256([a, b, c]) == Number(a) * 0x1_0000 + Number(b) * 0x100 + Number(c)
  {
    Number256OfTwo(a, b);
    Number256Of([a, b], c);
    assert [a, b] + [c] == [a, b, c];
  }

  lemma GroupNumber(x: Sextet, y: Sextet, z: Sextet, w: Sextet)
    ensures Number64([x, y, z, w]) == Number256([Byte0(x, y), Byte1(y, z), Byte2(z, w)])
  {
    Number64OfFour(x, y, z, w);
    Number256OfThree(Byte0(x, y), Byte1(y, z), Byte2(z, w));
    GroupBits(x, y, z, w);
  }

  lemma JoinTakesGroups(vs: seq<Sextet>, bs: Bytes)
    requires |vs| >= 4 && Join(vs) == Some(bs)
    ensures |bs| >= 3 && Join(vs[4..]) == Some(bs[3..])
    ensures bs[..3] == [Byte0(vs[0], vs[1]), Byte1(vs[1], vs[2]), Byte2(vs[2], vs[3])]
    ensures vs[..4] == [vs[0], vs[1], vs[2], vs[3]]
  {
    var first, rest := [Byte0(vs[0], vs[1]), Byte1(vs[1], vs[2]), Byte2(vs[2], vs[3])], Join(vs[4..]);
    assert bs == first + rest.value;
    DropsFirst(first, rest.value);
  }

  lemma DropsFirst<T>(first: seq<T>, rest: seq<T>)
    ensures (first + rest)[|first|..] == rest && (first + rest)[..|first|] == first
  {}

  ghost predicate IsPositional(vs: seq<Sextet>, bs: Bytes) {
    && |bs| == 3 * |vs| / 4
    && Number256(bs) * Excess(|vs|) <= Number64(vs) < (Number256(bs) + 1) * Excess(|vs|)
  }

  lemma {:induction false} JoinIsDefined(vs: seq<Sextet>)
    ensures Join(vs).Some? <==> |vs| % 4 != 1
    decreases |vs|
  {
    if |vs| < 4 {
    } else {
      JoinIsDefined(vs[4..]);
    }
  }

  /** Decoded bytes are the number the sextets spell, without the excess bits: with the length, this is all
      there is to know about them. */
  lemma {:induction false} JoinIsPositional(vs: seq<Sextet>, bs: Bytes)
    requires Join(vs) == Some(bs)
    ensures IsPositional(vs, bs)
    decreases |vs|
  {
    JoinIsDefined(vs);
    if |vs| < 4 {
      ShortJoinIsPositional(vs, bs);
    } else {
      JoinTakesGroups(vs, bs);
      JoinIsPositional(vs[4..], bs[3..]);
      assert |vs[4..]| % 4 != 1;
      FirstGroupIsPositional(vs, bs);
    }
  }

  lemma FirstGroupIsPositional(vs: seq<Sextet>, bs: Bytes)
    requires |vs| >= 4 && |bs| >= 3 && |vs[4..]| % 4 != 1 && IsPositional(vs[4..], bs[3..])
    requires bs[..3] == [Byte0(vs[0], vs[1]), Byte1(vs[1], vs[2]), Byte2(vs[2], vs[3])]
    ensures IsPositional(vs, bs)
  {
    GroupNumber(vs[0], vs[1], vs[2], vs[3]);
    assert vs[..4] == [vs[0], vs[1], vs[2], vs[3]];
    assert vs == vs[..4] + vs[4..] && bs == bs[..3] + bs[3..];
    GroupsArePositional(vs[..4], vs[4..], bs[..3], bs[3..]);
  }

  lemma OneMoreGroup(n: nat)
    ensures Excess(4 + n) == Excess(n) && 3 * (4 + n) / 4 == 3 + 3 * n / 4
  {}

  lemma GroupsArePositional(group: seq<Sextet>, rest: seq<Sextet>, first: Bytes, others: Bytes)
    requires |group| == 4 && |first| == 3 && Number64(group) == Number256(first)
    requires |rest| % 4 != 1 && IsPositional(rest, others)
    ensures IsPositional(group + rest, first + others)
  {
    Number64Appends(group, rest);
    Number256Appends(first, others);
    PowersMatch(|rest|);
    OneMoreGroup(|rest|);
    Places(Number256(first), Excess(|rest|), Pow(256, |others|), Number64(rest), Number256(others));
  }

  lemma ShortJoinIsPositional(vs: seq<Sextet>, bs: Bytes)
    requires |vs| < 4 && Join(vs) == Some(bs)
    ensures |vs| != 1 && IsPositional(vs, bs)
  {
    if |vs| == 2 {
      Number64OfTwo(vs[0], vs[1]);
      Number256OfTwo(bs[0], bs[0]);
      PairBits(vs[0], vs[1]);
      assert vs == [vs[0], vs[1]] && bs == [bs[0]];
    } else if |vs| == 3 {
      Number64OfThree(vs[0], vs[1], vs[2]);
      Number256OfTwo(bs[0], bs[1]);
      TripleBits(vs[0], vs[1], vs[2]);
      assert vs == [vs[0], vs[1], vs[2]] && bs == [bs[0], bs[1]];
    }
  }

  /** Two byte strings that fit the same sextets are the same. */
  lemma {:induction false} NumbersDetermineBytes(a: Bytes, b: Bytes)
    requires |a| == |b| && Number256(a) == Number256(b)
    ensures a == b
  {
    if a == [] {
    } else {
      NumbersDetermineBytes(DropLast(a), DropLast(b));
      assert a == DropLast(a) + [Last(a)] && b == DropLast(b) + [Last(b)];
    }
  }

  lemma Places(high: int, excess: int, place: int, low64: int, low256: int)
    requires low256 * excess <= low64 < (low256 + 1) * excess
    ensures (high * place + low256) * excess <= high * (excess * place) + low64
    ensures high * (excess * place) + low64 < (high * place + low256 + 1) * excess
  {
    assert (high * place) * excess == high * (excess * place);
    assert (high * place + low256) * excess == (high * place) * excess + low256 * excess;
    assert (high * place + low256 + 1) * excess == (high * place) * excess + (low256 + 1) * excess;
  }

  /** Encoding spells exactly the number of the bytes, the excess bits being zero. */
  lemma {:induction false} SplitIsPositional(bs: Bytes)
    ensures |Split(bs)| % 4 != 1 && IsPositional(Split(bs), bs)
    ensures Number64(Split(bs)) == Number256(bs) * Excess(|Split(bs)|)
  {
    JoinSplit(bs);
    JoinIsPositional(Split(bs), bs);
    if |bs| <= 2 {
      ShortSplitIsPositional(bs);
    } else {
      var vs := Split(bs);
      SplitIsPositional(bs[3..]);
      SplitTakesGroups(bs);
      BitsReassemble(bs[0], bs[1], bs[2]);
      GroupNumber(vs[0], vs[1], vs[2], vs[3]);
      assert vs[..4] == [vs[0], vs[1], vs[2], vs[3]] && bs[..3] == [bs[0], bs[1], bs[2]];
      GroupsAreExact(vs[..4], vs[4..], bs[..3], bs[3..]);
      assert vs == vs[..4] + vs[4..] && bs == bs[..3] + bs[3..];
    }
  }

  lemma GroupsAreExact(group: seq<Sextet>, rest: seq<Sextet>, first: Bytes, others: Bytes)
    requires |group| == 4 && |first| == 3 && Number64(group) == Number256(first)
    requires |rest| % 4 != 1 && |others| == 3 * |rest| / 4 && Number64(rest) == Number256(others) * Excess(|rest|)
    ensures Number64(group + rest) == Number256(first + others) * Excess(|group + rest|)
  {
    Number64Appends(group, rest);
    Number256Appends(first, others);
    PowersMatch(|rest|);
    OneMoreGroup(|rest|);
    Distribute(Number256(first), Excess(|rest|), Pow(256, |others|), Number256(others));
  }

  lemma Distribute(high: int, excess: int, place: int, low: int)
    ensures high * (excess * place) + low * excess == (high * place + low) * excess
  {}

  lemma ShortSplitIsPositional(bs: Bytes)
    requires |bs| <= 2
    ensures Number64(Split(bs)) == Number256(bs) * Excess(|Split(bs)|)
  {
    var vs := Split(bs);
    if |bs| == 1 {
      Number64OfTwo(vs[0], vs[1]);
      Number256OfTwo(bs[0], bs[0]);
      assert bs == [bs[0]];
    } else if |bs| == 2 {
      Number64OfThree(vs[0], vs[1], vs[2]);
      Number256OfTwo(bs[0], bs[1]);
      assert bs == [bs[0], bs[1]];
    }
  }

  // ---- What decodes ----------------------------------------------------------

  /** The text of the sextets: their letters, then the padding. */
  ghost predicate Spells(text: Bytes, vs: seq<Sextet>, e: Encoding) {
    && |text| == |vs| + |Padding(|vs|, e)|
    && text[|vs|..] == Padding(|vs|, e)
    && forall i :: 0 <= i < |vs| ==> text[i] == Alphabet(e)[vs[i]] as int
  }

  lemma {:induction false} SymbolsSpell(vs: seq<Sextet>, e: Encoding)
    ensures |Symbols(vs, e)| == |vs|
    ensures forall i :: 0 <= i < |vs| ==> Symbols(vs, e)[i] == Alphabet(e)[vs[i]] as int
  {
    if vs == [] {
    } else {
      SymbolIsLetter(vs[0], e);
      SymbolsSpell(vs[1..], e);
    }
  }

  lemma SpelledIsSymbols(text: Bytes, vs: seq<Sextet>, e: Encoding)
    ensures Spells(text, vs, e) <==> text == Symbols(vs, e) + Padding(|vs|, e)
  {
    SymbolsSpell(vs, e);
    if Spells(text, vs, e) {
      SameFront(text, Symbols(vs, e), Padding(|vs|, e));
    }
  }

  lemma SameFront(text: Bytes, front: Bytes, back: Bytes)
    requires |text| == |front| + |back| && text[|front|..] == back
    requires forall i :: 0 <= i < |front| ==> text[i] == front[i]
    ensures text == front + back
  {
    assert text[..|front|] == front;
    assert text == text[..|front|] + text[|front|..];
  }

  lemma {:induction false} ValuesAreOfSymbols(s: Bytes, vs: seq<Sextet>, e: Encoding)
    requires Values(s, e) == Some(vs)
    ensures s == Symbols(vs, e)
  {
    if s == [] {
    } else {
      ValueInvertsSymbol(vs[0], s[0], e);
      ValuesAreOfSymbols(s[1..], vs[1..], e);
    }
  }

  lemma UnpadTakesPadding(s: Bytes, body: Bytes, e: Encoding)
    requires Unpad(s, e) == Some(body) && |body| % 4 != 1 && PAD !in body
    ensures s == body + Padding(|body|, e)
  {
    if e.Std? && s != [] && Last(s) == PAD {
      assert s == DropLast(s) + [PAD];
      if s[|s| - 2] == PAD {
        assert s == s[..|s| - 2] + [PAD, PAD];
      }
    }
  }

  lemma PositionalIsUnique(vs: seq<Sextet>, a: Bytes, b: Bytes)
    requires IsPositional(vs, a) && IsPositional(vs, b)
    ensures a == b
  {
    SameQuotient(Number256(a), Number256(b), Excess(|vs|), Number64(vs));
    NumbersDetermineBytes(a, b);
  }

  lemma SameQuotient(x: int, y: int, n: int, m: int)
    requires 0 < n && x * n <= m < (x + 1) * n && y * n <= m < (y + 1) * n
    ensures x == y
  {
  }

  /** A text decodes exactly when, line breaks aside, it is the letters of some sextets, not one too many, with
      their padding; and it decodes to the bytes of the number they spell. */
  lemma DecodesExactlySpelledText(text: Bytes, e: Encoding, bs: Bytes)
    ensures Decode(text, e) == Some(bs)
            <==> exists vs :: Spells(WithoutLineBreaks(text), vs, e) && |vs| % 4 != 1 && IsPositional(vs, bs)
  {
    var s := WithoutLineBreaks(text);
    if Decode(text, e) == Some(bs) {
      var body := Unpad(s, e).value;
      var vs := Values(body, e).value;
      JoinIsDefined(vs);
      JoinIsPositional(vs, bs);
      ValuesAreOfSymbols(body, vs, e);
      ValuesOfSymbols(vs, e);
      UnpadTakesPadding(s, body, e);
      SpelledIsSymbols(s, vs, e);
    }
    if vs :| Spells(s, vs, e) && |vs| % 4 != 1 && IsPositional(vs, bs) {
      SpelledIsSymbols(s, vs, e);
      ValuesOfSymbols(vs, e);
      UnpadPadded(Symbols(vs, e), e);
      JoinIsDefined(vs);
      JoinIsPositional(vs, Join(vs).value);
      PositionalIsUnique(vs, bs, Join(vs).value);
    }
  }

  /** Padded text fills its last group of four with at most two pads; unpadded text has none. */
  lemma PaddingFillsTheGroup(n: nat)
    requires n % 4 != 1
    ensures (n + |Padding(n, Std)|) % 4 == 0 && Padding(n, Std) in {[], [61], [61, 61]} && Padding(n, RawUrl) == []
  {}

  /** The encoding of bytes is the letters and padding of exactly that number. */
  lemma EncodingSpellsTheBytes(bs: Bytes, e: Encoding)
    ensures Spells(Encode(bs, e), Split(bs), e)
    ensures Number64(Split(bs)) == Number256(bs) * Excess(|Split(bs)|) && |bs| == 3 * |Split(bs)| / 4
  {
    SpelledIsSymbols(Encode(bs, e), Split(bs), e);
    SplitIsPositional(bs);
  }
}
