/**
 UTF-8 as Node's Buffer knows it: section 3 of RFC 3629, with U+FFFD for a
 surrogate without its partner when encoding, and for every longest piece that
 cannot be continued when decoding.
 */
module Utf8 {
  import opened JsText

  type Byte = n: int | 0 <= n < 0x100
  type Bytes = seq<Byte>

  const REPLACEMENT: Unit := 0xFFFD

  predicate IsHigh(u: Unit) {
    0xD800 <= u <= 0xDBFF
  }

  predicate IsLow(u: Unit) {
    0xDC00 <= u <= 0xDFFF
  }

  // ------------------------------------------------------------- decoding

  predicate Continues(b: Byte) {
    0x80 <= b <= 0xBF
  }

  function Payload(b: Byte): int {
    var value: int := b;
    value - 0x80
  }

  /** How long a character with this first byte is; zero if none has it. */
  function Need(lead: Byte): nat {
    if lead < 0x80 then 1
    else if 0xC2 <= lead <= 0xDF then 2
    else if 0xE0 <= lead <= 0xEF then 3
    else if 0xF0 <= lead <= 0xF4 then 4
    else 0
  }

  /** A second byte: no overlong form, no surrogate, nothing above U+10FFFF. */
  predicate Follows(lead: Byte, b: Byte) {
    Continues(b)
    && (lead == 0xE0 ==> b >= 0xA0) && (lead == 0xED ==> b <= 0x9F)
    && (lead == 0xF0 ==> b >= 0x90) && (lead == 0xF4 ==> b <= 0x8F)
  }

  /** The length of the first piece: a character, or the longest start of one,
      or one byte that starts none. */
  function PieceLength(s: Bytes): (n: nat)
    requires |s| > 0
    ensures 1 <= n <= |s| && n <= 4 && (n > 1 ==> n <= Need(s[0]))
    ensures forall k :: 1 <= k < n ==> Continues(s[k])
  {
    var need := Need(s[0]);
    if need <= 1 || |s| == 1 || !Follows(s[0], s[1]) then 1
    else if need == 2 || |s| == 2 || !Continues(s[2]) then 2
    else if need == 3 || |s| == 3 || !Continues(s[3]) then 3
    else 4
  }

  predicate IsWhole(piece: Bytes) {
    |piece| > 0 && |piece| == Need(piece[0])
  }

  /** The units of one piece. */
  function Units(piece: Bytes): (t: Text)
    requires |piece| > 0 && PieceLength(piece) == |piece|
    ensures 1 <= |t| <= 2 && (|t| == 2 ==> |piece| == 4 && IsHigh(t[0]))
    ensures !IsWhole(piece) ==> |t| == 1 && t[0] == REPLACEMENT
  {
    var lead: int := piece[0];
    if !IsWhole(piece) then [REPLACEMENT]
    else if |piece| == 1 then [piece[0]]
    else if |piece| == 2 then [(lead - 0xC0) * 0x40 + Payload(piece[1])]
    else if |piece| == 3 then [(lead - 0xE0) * 0x1000 + Payload(piece[1]) * 0x40 + Payload(piece[2])]
    else
      [0xD800 + (lead - 0xF0) * 0x100 + Payload(piece[1]) * 4 + Payload(piece[2]) / 0x10 - 0x40,
       0xDC00 + Payload(piece[2]) % 0x10 * 0x40 + Payload(piece[3])]
  }

  lemma PieceAlone(s: Bytes, k: nat)
    requires |s| > 0 && PieceLength(s) <= k <= |s|
    ensures PieceLength(s[..k]) == PieceLength(s)
  {
  }

  /** `buffer.toString()`. */
  function Decoded(s: Bytes): Text
    decreases |s|
  {
    if |s| == 0 then []
    else
      var n := PieceLength(s);
      PieceAlone(s, n);
      Units(s[..n]) + Decoded(s[n..])
  }

  // ----------------------------------------------------------------- cuts

  /** No piece of the bytes goes across position `k`. */
  predicate IsBoundary(s: Bytes, k: nat)
    requires k <= |s|
    decreases |s|
  {
    k == 0 || (PieceLength(s) <= k && IsBoundary(s[PieceLength(s)..], k - PieceLength(s)))
  }

  /** The first piece of two parts that does not go across the cut. */
  lemma FirstPiece(a: Bytes, b: Bytes)
    requires |a| > 0 && PieceLength(a + b) <= |a|
    ensures var n := PieceLength(a + b);
            && PieceLength(a) == n && (a + b)[..n] == a[..n] && (a + b)[n..] == a[n..] + b
  {
    assert (a + b)[..|a|] == a;
    PieceAlone(a + b, |a|);
  }

  lemma {:induction false} DecodedStep(s: Bytes)
    requires |s| > 0
    ensures PieceLength(s[..PieceLength(s)]) == PieceLength(s)
    ensures Decoded(s) == Units(s[..PieceLength(s)]) + Decoded(s[PieceLength(s)..])
  {
    PieceAlone(s, PieceLength(s));
  }

  lemma Assoc<T>(a: seq<T>, b: seq<T>, c: seq<T>)
    ensures (a + b) + c == a + (b + c)
  {
  }

  lemma {:induction false} FirstPieceDecodes(a: Bytes, b: Bytes)
    requires |a| > 0 && PieceLength(a + b) <= |a|
    ensures var n := PieceLength(a + b);
            && PieceLength(a) == n && PieceLength(a[..n]) == n
            && Decoded(a) == Units(a[..n]) + Decoded(a[n..])
            && Decoded(a + b) == Units(a[..n]) + Decoded(a[n..] + b)
  {
    FirstPiece(a, b);
    DecodedStep(a + b);
    DecodedStep(a);
  }

  lemma {:induction false} BoundaryTail(a: Bytes, b: Bytes)
    requires |a| > 0 && PieceLength(a + b) <= |a|
    ensures IsBoundary(a + b, |a|) <==> IsBoundary(a[PieceLength(a + b)..] + b, |a| - PieceLength(a + b))
  {
    FirstPiece(a, b);
  }

  lemma JoinAfter<T>(head: seq<T>, first: seq<T>, second: seq<T>, both: seq<T>, tail: seq<T>, whole: seq<T>)
    requires first == head + tail && whole == head + both && both == tail + second
    ensures whole == first + second
  {
    Assoc(head, tail, second);
  }

  /** Parts that are cut at a boundary are decoded on their own. */
  lemma {:induction false} BoundarySplits(a: Bytes, b: Bytes)
    requires IsBoundary(a + b, |a|)
    ensures Decoded(a + b) == Decoded(a) + Decoded(b)
    decreases |a|
  {
    if |a| == 0 {
      assert a + b == b;
    } else {
      var n := PieceLength(a + b);
      FirstPieceDecodes(a, b);
      BoundaryTail(a, b);
      BoundarySplits(a[n..], b);
      JoinAfter(Units(a[..n]), Decoded(a), Decoded(b), Decoded(a[n..] + b), Decoded(a[n..]), Decoded(a + b));
    }
  }

  lemma {:induction false} StrayByte(s: Bytes)
    requires |s| > 0 && Continues(s[0])
    ensures Decoded(s) == [REPLACEMENT] + Decoded(s[1..])
  {
    DecodedStep(s);
    assert PieceLength(s) == 1 && !IsWhole(s[..1]);
    assert Units(s[..1]) == [REPLACEMENT];
  }

  /** Bytes that continue a character start none: each decodes to one U+FFFD. */
  lemma {:induction false} StrayBytes(s: Bytes, m: nat)
    requires m <= |s| && forall k :: 0 <= k < m ==> Continues(s[k])
    ensures |Decoded(s)| == m + |Decoded(s[m..])|
    decreases m
  {
    if m == 0 {
      assert s[0..] == s;
    } else {
      StrayByte(s);
      StrayBytes(s[1..], m - 1);
      assert s[1..][m - 1..] == s[m..];
    }
  }

  /** Decoding the parts gives more units, or another unit in the first part. */
  predicate Garbles(parts: Text, whole: Text, first: Text) {
    || |parts| > |whole|
    || (|parts| == |whole| && exists k :: 0 <= k < |first| && k < |whole| && k < |parts| && first[k] != whole[k])
  }

  /** The piece that goes across the cut. */
  lemma {:induction false} PieceIsCut(a: Bytes, b: Bytes)
    requires 0 < |a| < PieceLength(a + b)
    ensures Garbles(Decoded(a) + Decoded(b), Decoded(a + b), Decoded(a))
  {
    var s, n := a + b, PieceLength(a + b);
    var rest := n - |a|;
    assert s[..|a|] == a;
    assert PieceLength(a) == |a| && !IsWhole(a);
    DecodedStep(a);
    assert a[..|a|] == a && |a[|a|..]| == 0;
    assert Decoded(a) == Units(a) && |Decoded(a)| == 1 && Decoded(a)[0] == REPLACEMENT;
    forall k | 0 <= k < rest
      ensures Continues(b[k])
    {
      assert b[k] == s[|a| + k];
    }
    StrayBytes(b, rest);
    assert b[rest..] == s[n..];
    DecodedStep(s);
    assert Decoded(s)[0] == Units(s[..n])[0];
  }

  lemma {:induction false} InsideGarbles(a: Bytes, b: Bytes)
    requires !IsBoundary(a + b, |a|)
    ensures Garbles(Decoded(a) + Decoded(b), Decoded(a + b), Decoded(a))
    decreases |a|
  {
    var n := PieceLength(a + b);
    if |a| < n {
      PieceIsCut(a, b);
    } else {
      FirstPiece(a, b);
      FirstPieceDecodes(a, b);
      InsideGarbles(a[n..], b);
      GarblesAfter(Units(a[..n]), Decoded(a[n..]), Decoded(b), Decoded(a[n..] + b));
    }
  }

  lemma GarblesAfter(head: Text, first: Text, second: Text, whole: Text)
    requires Garbles(first + second, whole, first)
    ensures Garbles((head + first) + second, head + whole, head + first)
  {
    if |first + second| == |whole| {
      var k :| 0 <= k < |first| && k < |whole| && first[k] != whole[k];
      assert (head + first)[|head| + k] == first[k] && (head + whole)[|head| + k] == whole[k];
    }
  }

  /** Two parts decode to the text of the whole exactly when no character, and
      no start of one, goes across the cut. */
  lemma CutIsHarmlessIff(a: Bytes, b: Bytes)
    ensures |a| <= |a + b|
    ensures Decoded(a) + Decoded(b) == Decoded(a + b) <==> IsBoundary(a + b, |a|)
    ensures |Decoded(a)| + |Decoded(b)| >= |Decoded(a + b)|
  {
    if IsBoundary(a + b, |a|) {
      BoundarySplits(a, b);
    } else {
      InsideGarbles(a, b);
      var parts := Decoded(a) + Decoded(b);
      if |parts| == |Decoded(a + b)| {
        var k :| 0 <= k < |Decoded(a)| && k < |parts| && Decoded(a)[k] != Decoded(a + b)[k];
        assert parts[k] == Decoded(a)[k];
      }
    }
  }

  // --------------------------------------------------------------- chunks

  function Concat(chunks: seq<Bytes>): Bytes {
    if |chunks| == 0 then [] else chunks[0] + Concat(chunks[1..])
  }

  /** What arrives when every chunk is decoded alone. */
  function DecodedEach(chunks: seq<Bytes>): (texts: seq<Text>)
    ensures |texts| == |chunks|
    ensures forall k :: 0 <= k < |chunks| ==> texts[k] == Decoded(chunks[k])
  {
    if |chunks| == 0 then [] else [Decoded(chunks[0])] + DecodedEach(chunks[1..])
  }

  function Joined(texts: seq<Text>): Text {
    if |texts| == 0 then [] else texts[0] + Joined(texts[1..])
  }

  /** No cut between chunks goes through a character, or a start of one. */
  predicate CutAtBoundaries(chunks: seq<Bytes>) {
    |chunks| > 0 ==> IsBoundary(Concat(chunks), |chunks[0]|) && CutAtBoundaries(chunks[1..])
  }

  lemma {:induction false} ChunksAreNotShorter(chunks: seq<Bytes>)
    ensures |Joined(DecodedEach(chunks))| >= |Decoded(Concat(chunks))|
    decreases |chunks|
  {
    if |chunks| > 0 {
      ChunksAreNotShorter(chunks[1..]);
      CutIsHarmlessIff(chunks[0], Concat(chunks[1..]));
      assert DecodedEach(chunks)[1..] == DecodedEach(chunks[1..]);
    }
  }

  /** The text that arrives depends only on the bytes exactly when no cut goes
      through a character. */
  lemma {:induction false} ChunksDecodeIff(chunks: seq<Bytes>)
    ensures Joined(DecodedEach(chunks)) == Decoded(Concat(chunks)) <==> CutAtBoundaries(chunks)
    decreases |chunks|
  {
    if |chunks| > 0 {
      var a, b := chunks[0], Concat(chunks[1..]);
      var rest := Joined(DecodedEach(chunks[1..]));
      assert DecodedEach(chunks)[1..] == DecodedEach(chunks[1..]);
      ChunksDecodeIff(chunks[1..]);
      if IsBoundary(a + b, |a|) {
        BoundarySplits(a, b);
        SameHead(Decoded(a), rest, Decoded(b));
      } else {
        ChunksAreNotShorter(chunks[1..]);
        InsideGarbles(a, b);
        GarbledStaysGarbled(Decoded(a), Decoded(b), rest, Decoded(a + b));
      }
    }
  }

  lemma SameHead(head: Text, t: Text, u: Text)
    ensures head + t == head + u <==> t == u
  {
    assert (head + t)[|head|..] == t && (head + u)[|head|..] == u;
  }

  lemma GarbledStaysGarbled(first: Text, second: Text, longer: Text, whole: Text)
    requires Garbles(first + second, whole, first) && |longer| >= |second|
    ensures first + longer != whole
  {
    if |first + longer| == |whole| {
      var k :| 0 <= k < |first| && k < |whole| && first[k] != whole[k];
      assert (first + longer)[k] == first[k];
    }
  }

  // ------------------------------------------------------------- encoding

  function CharLength(t: Text): (n: nat)
    requires |t| > 0
    ensures 1 <= n <= |t|
  {
    if |t| >= 2 && IsHigh(t[0]) && IsLow(t[1]) then 2 else 1
  }

  /** One unit that is no surrogate, or a pair of them. */
  predicate IsChar(c: Text) {
    || (|c| == 1 && !IsHigh(c[0]) && !IsLow(c[0]))
    || (|c| == 2 && IsHigh(c[0]) && IsLow(c[1]))
  }

  /** The first character of a text; U+FFFD for a lone surrogate. */
  function FirstChar(t: Text): (c: Text)
    requires |t| > 0
    ensures IsChar(c) && |c| == CharLength(t)
  {
    if CharLength(t) == 2 then t[..2]
    else if IsHigh(t[0]) || IsLow(t[0]) then [REPLACEMENT]
    else [t[0]]
  }

  function EncodedChar(c: Text): (s: Bytes)
    requires IsChar(c)
    ensures 1 <= |s| <= 4
  {
    var u: int := c[0];
    if |c| == 2 then
      var h, l: int := u - 0xD800 + 0x40, c[1] - 0xDC00;
      [0xF0 + h / 0x100, 0x80 + h / 4 % 0x40, 0x80 + h % 4 * 0x10 + l / 0x40, 0x80 + l % 0x40]
    else if u < 0x80 then [u]
    else if u < 0x800 then [0xC0 + u / 0x40, 0x80 + u % 0x40]
    else [0xE0 + u / 0x1000, 0x80 + u / 0x40 % 0x40, 0x80 + u % 0x40]
  }

  /** `Buffer.from(text)`, and what a hash or a socket makes of a text. */
  function Encoded(t: Text): Bytes {
    if |t| == 0 then [] else EncodedChar(FirstChar(t)) + Encoded(t[CharLength(t)..])
  }

  /** The text with U+FFFD for every lone surrogate. */
  function Repaired(t: Text): (r: Text)
    ensures |r| == |t|
  {
    if |t| == 0 then [] else FirstChar(t) + Repaired(t[CharLength(t)..])
  }

  /** No surrogate stands alone. */
  predicate WellFormed(t: Text) {
    |t| > 0 ==> FirstChar(t) == t[..CharLength(t)] && WellFormed(t[CharLength(t)..])
  }

  // ---------------------------------------------------------------- scalars

  /** The table of section 3 of RFC 3629: how a code point is written. */
  predicate Writes(s: Bytes, v: int) {
    && (forall k :: 1 <= k < |s| ==> 0x80 <= s[k] < 0xC0)
    && match |s|
       case 1 => 0 <= v < 0x80 && s[0] == v
       case 2 =>
         0x80 <= v < 0x800 && 0xC0 <= s[0] < 0xE0 && v == (s[0] - 0xC0) * 0x40 + Payload(s[1])
       case 3 =>
         && 0x800 <= v < 0x1_0000 && !(0xD800 <= v <= 0xDFFF) && 0xE0 <= s[0] < 0xF0
         && v == (s[0] - 0xE0) * 0x1000 + Payload(s[1]) * 0x40 + Payload(s[2])
       case 4 =>
         && 0x1_0000 <= v <= 0x10_FFFF && 0xF0 <= s[0] < 0xF8
         && v == (s[0] - 0xF0) * 0x4_0000 + Payload(s[1]) * 0x1000 + Payload(s[2]) * 0x40 + Payload(s[3])
       case _ => false
  }

  /** The code point of a unit, or of a surrogate pair. */
  function CodePoint(c: Text): int
    requires 1 <= |c| <= 2
  {
    var first: int := c[0];
    if |c| == 1 then first
    else
      var second: int := c[1];
      0x1_0000 + (first - 0xD800) * 0x400 + (second - 0xDC00)
  }

  /** What the bytes of a piece add up to. */
  function Sum(s: Bytes): int {
    match |s|
    case 1 => s[0]
    case 2 => (s[0] - 0xC0) * 0x40 + Payload(s[1])
    case 3 => (s[0] - 0xE0) * 0x1000 + Payload(s[1]) * 0x40 + Payload(s[2])
    case 4 => (s[0] - 0xF0) * 0x4_0000 + Payload(s[1]) * 0x1000 + Payload(s[2]) * 0x40 + Payload(s[3])
    case _ => 0
  }

  /** A piece is a character exactly when its bytes write a code point, in the
      shortest form, that is no surrogate; it decodes to that code point. */
  lemma WholeIff(s: Bytes)
    requires |s| > 0
    ensures PieceLength(s) == |s| && IsWhole(s) <==> Writes(s, Sum(s))
    ensures PieceLength(s) == |s| && IsWhole(s) ==> CodePoint(Units(s)) == Sum(s)
  {
  }

  lemma PairIsPiece(c: Text, rest: Bytes)
    requires IsChar(c) && |c| == 2
    ensures PieceLength(EncodedChar(c) + rest) == |EncodedChar(c)| && IsWhole(EncodedChar(c))
    ensures !Continues(EncodedChar(c)[0])
  {
  }

  lemma EncodedCharIsPiece(c: Text, rest: Bytes)
    requires IsChar(c)
    ensures PieceLength(EncodedChar(c) + rest) == |EncodedChar(c)| && IsWhole(EncodedChar(c))
    ensures !Continues(EncodedChar(c)[0])
  {
    if |c| == 2 {
      PairIsPiece(c, rest);
    }
  }

  lemma EncodedCharAlone(c: Text)
    requires IsChar(c)
    ensures PieceLength(EncodedChar(c)) == |EncodedChar(c)| && IsWhole(EncodedChar(c))
  {
    EncodedCharIsPiece(c, []);
    assert EncodedChar(c) + [] == EncodedChar(c);
  }

  lemma HighDigits(h: int)
    requires 0 <= h
    ensures h / 0x100 * 0x100 + h / 4 % 0x40 * 4 + h % 4 == h
  {
    assert h / 4 / 0x40 == h / 0x100;
  }

  lemma MiddleDigits(high: int, low: int)
    requires 0 <= low < 0x10
    ensures (high * 0x10 + low) / 0x10 == high && (high * 0x10 + low) % 0x10 == low
  {
  }

  lemma PairDigits(h: int, l: int)
    requires 0x40 <= h < 0x440 && 0 <= l < 0x400
    ensures h / 0x100 * 0x100 + h / 4 % 0x40 * 4 + (h % 4 * 0x10 + l / 0x40) / 0x10 == h
    ensures (h % 4 * 0x10 + l / 0x40) % 0x10 * 0x40 + l % 0x40 == l
  {
    HighDigits(h);
    MiddleDigits(h % 4, l / 0x40);
  }

  lemma UnitDigits(u: int)
    requires 0 <= u < 0x1_0000
    ensures u / 0x40 * 0x40 + u % 0x40 == u
    ensures u / 0x1000 * 0x1000 + u / 0x40 % 0x40 * 0x40 + u % 0x40 == u
  {
  }

  lemma EncodedCharDecodes(c: Text)
    requires IsChar(c)
    ensures PieceLength(EncodedChar(c)) == |EncodedChar(c)| && Units(EncodedChar(c)) == c
  {
    EncodedCharAlone(c);
    var u: int := c[0];
    var s := EncodedChar(c);
    if |c| == 2 {
      var h, l: int := u - 0xD800 + 0x40, c[1] - 0xDC00;
      PairDigits(h, l);
      assert Payload(s[1]) == h / 4 % 0x40 && Payload(s[3]) == l % 0x40;
      assert Payload(s[2]) == h % 4 * 0x10 + l / 0x40;
      assert Units(s)[0] == c[0] && Units(s)[1] == c[1];
    } else {
      UnitDigits(u);
      assert Units(s)[0] == c[0];
    }
  }

  /** A character is encoded as the table writes its code point. */
  lemma EncodingWrites(c: Text)
    requires IsChar(c)
    ensures Writes(EncodedChar(c), CodePoint(c))
  {
    EncodedCharAlone(c);
    EncodedCharDecodes(c);
    WholeIff(EncodedChar(c));
  }

  lemma {:induction false} EncodedStep(t: Text)
    requires |t| > 0
    ensures var s, n := Encoded(t), |EncodedChar(FirstChar(t))|;
            && n <= |s| && PieceLength(s) == n
            && s[..n] == EncodedChar(FirstChar(t)) && s[n..] == Encoded(t[CharLength(t)..])
  {
    EncodedCharIsPiece(FirstChar(t), Encoded(t[CharLength(t)..]));
  }

  /** Decoding gives the encoded text back, with lone surrogates replaced. */
  lemma {:induction false} DecodingInvertsEncoding(t: Text)
    ensures Decoded(Encoded(t)) == Repaired(t)
    decreases |t|
  {
    if |t| > 0 {
      EncodedStep(t);
      EncodedCharDecodes(FirstChar(t));
      DecodedStep(Encoded(t));
      DecodingInvertsEncoding(t[CharLength(t)..]);
    }
  }

  lemma {:induction false} WellFormedIsRepaired(t: Text)
    requires WellFormed(t)
    ensures Repaired(t) == t
    decreases |t|
  {
    if |t| > 0 {
      WellFormedIsRepaired(t[CharLength(t)..]);
      assert t == t[..CharLength(t)] + t[CharLength(t)..];
    }
  }

  lemma FirstCharStays(c: Text, rest: Text)
    requires IsChar(c)
    ensures CharLength(c + rest) == |c| && FirstChar(c + rest) == c && (c + rest)[|c|..] == rest
  {
  }

  lemma {:induction false} EncodedRepaired(t: Text)
    ensures Encoded(Repaired(t)) == Encoded(t)
    decreases |t|
  {
    if |t| > 0 {
      EncodedRepaired(t[CharLength(t)..]);
      FirstCharStays(FirstChar(t), Repaired(t[CharLength(t)..]));
    }
  }

  /** Two texts have the same bytes exactly when they differ in nothing but
      lone surrogates. */
  lemma EncodingIdentifies(t: Text, u: Text)
    ensures Encoded(t) == Encoded(u) <==> Repaired(t) == Repaired(u)
  {
    DecodingInvertsEncoding(t);
    DecodingInvertsEncoding(u);
    EncodedRepaired(t);
    EncodedRepaired(u);
  }

  lemma {:induction false} BoundaryStep(s: Bytes, n: nat, k: nat)
    requires |s| > 0 && k <= |s| && PieceLength(s) == n
    ensures IsBoundary(s, k) <==> k == 0 || (n <= k && IsBoundary(s[n..], k - n))
  {
  }

  /** In encoded text the boundaries are the positions before a byte that does
      not continue a character, and the end. */
  lemma {:induction false} BoundaryOfEncoded(t: Text, k: nat)
    requires k <= |Encoded(t)|
    ensures IsBoundary(Encoded(t), k) <==> k == |Encoded(t)| || !Continues(Encoded(t)[k])
    decreases |t|
  {
    if |t| > 0 {
      EncodedStep(t);
      EncodedCharIsPiece(FirstChar(t), []);
      var s, n := Encoded(t), |EncodedChar(FirstChar(t))|;
      BoundaryStep(s, n, k);
      if k < n {
        assert s[..n][k] == s[k];
      } else {
        BoundaryOfEncoded(t[CharLength(t)..], k - n);
        assert k < |s| ==> s[n..][k - n] == s[k];
      }
    }
  }

  lemma FirstOfJoined(t: Text, u: Text)
    requires |t| > 0 && FirstChar(t) == t[..CharLength(t)]
    ensures CharLength(t + u) == CharLength(t) && FirstChar(t + u) == FirstChar(t)
    ensures (t + u)[..CharLength(t)] == t[..CharLength(t)] && (t + u)[CharLength(t)..] == t[CharLength(t)..] + u
  {
  }

  lemma {:induction false} WellFormedJoins(t: Text, u: Text)
    requires WellFormed(t) && WellFormed(u)
    ensures WellFormed(t + u)
    decreases |t|
  {
    if |t| == 0 {
      assert t + u == u;
    } else {
      WellFormedJoins(t[CharLength(t)..], u);
      FirstOfJoined(t, u);
    }
  }

  lemma {:induction false} EncodedUnfolds(t: Text)
    requires |t| > 0
    ensures Encoded(t) == EncodedChar(FirstChar(t)) + Encoded(t[CharLength(t)..])
  {
  }

  lemma {:induction false} EncodedJoins(t: Text, u: Text)
    requires WellFormed(t)
    ensures Encoded(t + u) == Encoded(t) + Encoded(u)
    decreases |t|
  {
    if |t| == 0 {
      assert t + u == u;
    } else {
      var rest := t[CharLength(t)..];
      EncodedJoins(rest, u);
      FirstOfJoined(t, u);
      EncodedUnfolds(t);
      EncodedUnfolds(t + u);
      JoinAfter(EncodedChar(FirstChar(t)), Encoded(t), Encoded(u), Encoded(rest + u), Encoded(rest), Encoded(t + u));
    }
  }

  lemma {:induction false} CharThenBytes(c: Text, bytes: Bytes)
    requires IsChar(c)
    ensures Decoded(EncodedChar(c) + bytes) == c + Decoded(bytes)
  {
    EncodedCharIsPiece(c, bytes);
    EncodedCharDecodes(c);
    DecodedStep(EncodedChar(c) + bytes);
    assert (EncodedChar(c) + bytes)[..|EncodedChar(c)|] == EncodedChar(c);
    assert (EncodedChar(c) + bytes)[|EncodedChar(c)|..] == bytes;
  }

  lemma {:induction false} DecodedAfter(c: Text, head: Bytes, rest: Text, tail: Bytes, s: Bytes, t: Text, bytes: Bytes)
    requires t == c + rest && bytes == head + tail
    requires Decoded(head + (tail + s)) == c + Decoded(tail + s) && Decoded(tail + s) == rest + Decoded(s)
    ensures Decoded(bytes + s) == t + Decoded(s)
  {
    Assoc(head, tail, s);
    Assoc(c, rest, Decoded(s));
  }

  lemma {:induction false} FirstThenBytes(t: Text, s: Bytes)
    requires |t| > 0 && FirstChar(t) == t[..CharLength(t)]
    requires var rest := t[CharLength(t)..]; Decoded(Encoded(rest) + s) == rest + Decoded(s)
    ensures Decoded(Encoded(t) + s) == t + Decoded(s)
  {
    var c, rest := FirstChar(t), t[CharLength(t)..];
    EncodedUnfolds(t);
    CharThenBytes(c, Encoded(rest) + s);
    assert t == c + rest;
    DecodedAfter(c, EncodedChar(c), rest, Encoded(rest), s, t, Encoded(t));
  }

  /** Encoded text before other bytes is decoded on its own. */
  lemma {:induction false} EncodedThenBytes(t: Text, s: Bytes)
    requires WellFormed(t)
    ensures Decoded(Encoded(t) + s) == t + Decoded(s)
    decreases |t|
  {
    if |t| == 0 {
      assert Encoded(t) + s == s && t + Decoded(s) == Decoded(s);
    } else {
      EncodedThenBytes(t[CharLength(t)..], s);
      FirstThenBytes(t, s);
    }
  }

  /** Encoded text that is cut at boundaries arrives as it was. */
  lemma EncodedArrives(t: Text, chunks: seq<Bytes>)
    requires WellFormed(t) && Concat(chunks) == Encoded(t) && CutAtBoundaries(chunks)
    ensures Joined(DecodedEach(chunks)) == t
  {
    WellFormedIsRepaired(t);
    DecodingInvertsEncoding(t);
    ChunksDecodeIff(chunks);
  }

  // ---------------------------------------------------------------- ASCII

  /** A unit below 0x80 stands for the byte of its own, and only for that. */
  lemma PieceHas(piece: Bytes, u: Unit)
    requires |piece| > 0 && PieceLength(piece) == |piece| && u < 0x80
    ensures u in Units(piece) <==> u in piece
    ensures |piece| > 1 ==> u !in piece
  {
    if |piece| > 1 {
      forall k | 0 <= k < |piece|
        ensures piece[k] >= 0x80
      {
        assert k > 0 ==> Continues(piece[k]);
      }
      assert forall k :: 0 <= k < |Units(piece)| ==> Units(piece)[k] >= 0x80;
    }
  }

  lemma {:induction false} DecodedHas(s: Bytes, u: Unit)
    requires u < 0x80
    ensures u in Decoded(s) <==> u in s
    decreases |s|
  {
    if |s| > 0 {
      var n := PieceLength(s);
      DecodedStep(s);
      PieceHas(s[..n], u);
      DecodedHas(s[n..], u);
      assert s == s[..n] + s[n..];
    }
  }

  lemma EncodedHas(t: Text, u: Unit)
    requires WellFormed(t) && u < 0x80
    ensures u in Encoded(t) <==> u in t
  {
    WellFormedIsRepaired(t);
    DecodingInvertsEncoding(t);
    DecodedHas(Encoded(t), u);
  }

  lemma {:induction false} AsciiIsBoundary(s: Bytes, k: nat)
    requires k < |s| && s[k] < 0x80
    ensures IsBoundary(s, k)
    decreases |s|
  {
    if k > 0 {
      var n := PieceLength(s);
      assert !Continues(s[k]) && n <= k;
      assert s[n..][k - n] == s[k];
      AsciiIsBoundary(s[n..], k - n);
    }
  }

  lemma {:induction false} DecodedOfByte(u: Byte)
    requires u < 0x80
    ensures Decoded([u]) == [u]
  {
    DecodedStep([u]);
    assert [u][..1] == [u] && |[u][1..]| == 0;
  }

  /** A last byte below 0x80 is decoded to itself, whatever stands before. */
  lemma {:induction false} DecodedLast(s: Bytes, u: Byte)
    requires u < 0x80
    ensures Decoded(s + [u]) == Decoded(s) + [u]
  {
    AsciiIsBoundary(s + [u], |s|);
    BoundarySplits(s, [u]);
    DecodedOfByte(u);
  }

  lemma {:induction false} NothingDecodes(chunks: seq<Bytes>)
    requires |Concat(chunks)| == 0
    ensures |Joined(DecodedEach(chunks))| == 0
    decreases |chunks|
  {
    if |chunks| > 0 {
      assert |chunks[0]| == 0 && |Concat(chunks[1..])| == 0;
      NothingDecodes(chunks[1..]);
      assert DecodedEach(chunks)[1..] == DecodedEach(chunks[1..]);
    }
  }

  lemma TailOf(head: Bytes, rest: Bytes, body: Bytes, u: Byte)
    requires head + rest == body + [u] && |rest| > 0
    ensures |head| <= |body| && head == body[..|head|] && rest == body[|head|..] + [u]
  {
    assert (head + rest)[..|head|] == head && (head + rest)[|head|..] == rest;
    assert (body + [u])[..|head|] == body[..|head|] && (body + [u])[|head|..] == body[|head|..] + [u];
  }

  /** Chunks of bytes that hold a byte below 0x80 only at their end arrive as a
      text that holds it only at its end, however they are cut. */
  lemma {:induction false} ChunksEnd(chunks: seq<Bytes>, body: Bytes, u: Byte) returns (t: Text)
    requires u < 0x80 && u !in body && Concat(chunks) == body + [u]
    ensures Joined(DecodedEach(chunks)) == t + [u] && u !in t
    decreases |chunks|
  {
    var head, rest := chunks[0], chunks[1..];
    assert DecodedEach(chunks)[1..] == DecodedEach(rest);
    if |Concat(rest)| == 0 {
      NothingDecodes(rest);
      assert head == body + [u];
      DecodedLast(body, u);
      DecodedHas(body, u);
      t := Decoded(body);
    } else {
      TailOf(head, Concat(rest), body, u);
      var tail := ChunksEnd(rest, body[|head|..], u);
      DecodedHas(head, u);
      t := Decoded(head) + tail;
      Assoc(Decoded(head), tail, [u]);
    }
  }

  /** A letter of two bytes that is cut in two arrives as two U+FFFD. */
  lemma SplitLetter(before: Text, letter: Unit, after: Text) returns (a: Bytes, b: Bytes)
    requires WellFormed(before) && WellFormed(after) && 0x80 <= letter < 0x800
    ensures a + b == Encoded(before + [letter] + after)
    ensures Decoded(a) == before + [REPLACEMENT] && Decoded(b) == [REPLACEMENT] + after
  {
    var bytes := EncodedChar([letter]);
    var lead, tail := [bytes[0]], [bytes[1]];
    assert bytes == lead + tail;
    a, b := Encoded(before) + lead, tail + Encoded(after);
    FirstCharStays([letter], after);
    EncodedJoins(before, [letter] + after);
    Assoc(before, [letter], after);
    Assoc(lead, tail, Encoded(after));
    Assoc(Encoded(before), lead, tail + Encoded(after));
    EncodedThenBytes(before, lead);
    LoneByte(lead);
    StrayByte(b);
    assert b[1..] == Encoded(after);
    WellFormedIsRepaired(after);
    DecodingInvertsEncoding(after);
  }

  lemma {:induction false} LoneByte(s: Bytes)
    requires |s| == 1 && Need(s[0]) != 1
    ensures Decoded(s) == [REPLACEMENT]
  {
    DecodedStep(s);
    assert s[..1] == s && |s[1..]| == 0;
  }
}
