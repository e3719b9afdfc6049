/**
 UTF-8 byte windows, apps/api/utils/text_window.py.

 Well-formed text is that of sections 3 and 4 of RFC 3629: no overlong form, no surrogate, nothing
 beyond U+10FFFF.
 */
module TextWindow {
  import opened Wrappers

  type Byte = bv8

  type CodePoint = bv32

  // ---------------------------------------------------------------------------
  // RFC 3629
  // ---------------------------------------------------------------------------

  predicate Tail(b: Byte) { 0x80 <= b <= 0xBF }

  /** The second byte a three- or four-byte form allows after its first. */
  predicate Second(first: Byte, b: Byte) {
    if first == 0xE0 then 0xA0 <= b <= 0xBF
    else if first == 0xED then 0x80 <= b <= 0x9F
    else if first == 0xF0 then 0x90 <= b <= 0xBF
    else if first == 0xF4 then 0x80 <= b <= 0x8F
    else Tail(b)
  }

  /** The width of the well-formed character that starts the data, or 0. */
  function FirstWidth(data: seq<Byte>): (w: nat)
    ensures w <= 4 && w <= |data|
  {
    if data == [] then 0
    else
      var b := data[0];
      if b <= 0x7F then 1
      else if 0xC2 <= b <= 0xDF then if |data| >= 2 && Tail(data[1]) then 2 else 0
      else if 0xE0 <= b <= 0xEF then
        if |data| >= 3 && Second(b, data[1]) && Tail(data[2]) then 3 else 0
      else if 0xF0 <= b <= 0xF4 then
        if |data| >= 4 && Second(b, data[1]) && Tail(data[2]) && Tail(data[3]) then 4 else 0
      else 0
  }

  function Low(b: Byte): CodePoint { (b & 0x3F) as CodePoint }

  /** The code point of one character's bytes. */
  function Point(c: seq<Byte>): CodePoint
    requires 1 <= |c| <= 4
  {
    if |c| == 1 then c[0] as CodePoint
    else if |c| == 2 then ((c[0] & 0x1F) as CodePoint << 6) | Low(c[1])
    else if |c| == 3 then ((c[0] & 0x0F) as CodePoint << 12) | (Low(c[1]) << 6) | Low(c[2])
    else ((c[0] & 0x07) as CodePoint << 18) | (Low(c[1]) << 12) | (Low(c[2]) << 6) | Low(c[3])
  }

  function FirstPoint(data: seq<Byte>): CodePoint
    requires FirstWidth(data) > 0
  {
    Point(data[..FirstWidth(data)])
  }

  /** The characters of well-formed data, or None. */
  function Decode(data: seq<Byte>): Option<seq<CodePoint>>
    decreases |data|
  {
    if data == [] then Some([])
    else if FirstWidth(data) == 0 then None
    else
      match Decode(data[FirstWidth(data)..])
      case None => None
      case Some(rest) => Some([FirstPoint(data)] + rest)
  }

  predicate WellFormed(data: seq<Byte>) {
    Decode(data).Some?
  }

  // ---------------------------------------------------------------------------
  // Writing characters
  // ---------------------------------------------------------------------------

  /** The characters of section 3 of RFC 3629: nothing beyond U+10FFFF and no surrogate. */
  predicate Scalar(c: CodePoint) {
    c <= 0x10FFFF && !(0xD800 <= c <= 0xDFFF)
  }

  /** A following byte: the mark 10 and six bits. */
  function Digit(c: CodePoint): Byte { (0x80 | (c & 0x3F)) as Byte }

  /** The bytes of one character: the shortest of the four forms that has room for it. */
  function Encode(c: CodePoint): (bytes: seq<Byte>)
    requires Scalar(c)
    ensures 1 <= |bytes| <= 4
  {
    if c < 0x80 then [c as Byte]
    else if c < 0x800 then [(0xC0 | (c >> 6)) as Byte, Digit(c)]
    else if c < 0x10000 then [(0xE0 | (c >> 12)) as Byte, Digit(c >> 6), Digit(c)]
    else [(0xF0 | (c >> 18)) as Byte, Digit(c >> 12), Digit(c >> 6), Digit(c)]
  }

  predicate Scalars(text: seq<CodePoint>) {
    forall i :: 0 <= i < |text| ==> Scalar(text[i])
  }

  function EncodeAll(text: seq<CodePoint>): seq<Byte>
    requires Scalars(text)
  {
    if text == [] then [] else Encode(text[0]) + EncodeAll(text[1..])
  }

  /** Two to four groups of bits side by side come apart again, and how large the number is shows in the first two. */
  lemma TwoGroups(a: CodePoint, b: CodePoint)
    requires a <= 0x1F && b <= 0x3F
    ensures var c := (a << 6) | b;
            && c >> 6 == a && c & 0x3F == b
            && c < 0x800 && (c < 0x80 <==> a < 2)
  {
  }

  lemma ThreeGroups(a: CodePoint, b: CodePoint, d: CodePoint)
    requires a <= 0x0F && b <= 0x3F && d <= 0x3F
    ensures var c := (a << 12) | (b << 6) | d;
            && c >> 12 == a && (c >> 6) & 0x3F == b && c & 0x3F == d
            && c < 0x10000 && (c < 0x800 <==> a == 0 && b < 0x20)
            && (0xD800 <= c <= 0xDFFF <==> a == 0x0D && b >= 0x20)
  {
  }

  lemma FourGroups(a: CodePoint, b: CodePoint, d: CodePoint, e: CodePoint)
    requires a <= 0x07 && b <= 0x3F && d <= 0x3F && e <= 0x3F
    ensures var c := (a << 18) | (b << 12) | (d << 6) | e;
            && c >> 18 == a && (c >> 12) & 0x3F == b && (c >> 6) & 0x3F == d && c & 0x3F == e
            && (c < 0x10000 <==> a == 0 && b < 0x10)
            && (c <= 0x10FFFF <==> a < 4 || (a == 4 && b < 0x10))
  {
  }

  /** A following byte is its six bits again. */
  lemma TailIsDigit(b: Byte, c: CodePoint)
    requires Tail(b) && c & 0x3F == Low(b)
    ensures Digit(c) == b
  {
  }

  lemma LowIsSmall(b: Byte)
    ensures Low(b) <= 0x3F
  {
  }

  lemma LeadIsMarked(a: Byte)
    ensures 0xC0 <= a <= 0xDF ==> (0xC0 | ((a & 0x1F) as CodePoint)) as Byte == a
    ensures 0xE0 <= a <= 0xEF ==> (0xE0 | ((a & 0x0F) as CodePoint)) as Byte == a
    ensures 0xF0 <= a <= 0xF7 ==> (0xF0 | ((a & 0x07) as CodePoint)) as Byte == a
    ensures (a & 0x1F) as CodePoint <= 0x1F && (a & 0x0F) as CodePoint <= 0x0F && (a & 0x07) as CodePoint <= 0x07
  {
  }

  /** What the second byte may be is what keeps the number from being too small, too large or a surrogate. */
  lemma SecondBounds(a: Byte, b: Byte)
    requires Second(a, b)
    ensures Tail(b) && Low(b) <= 0x3F
    ensures a == 0xE0 ==> Low(b) >= 0x20
    ensures a == 0xED ==> Low(b) < 0x20
    ensures a == 0xF0 ==> Low(b) >= 0x10
    ensures a == 0xF4 ==> Low(b) < 0x10
  {
  }

  lemma OneByte(a: Byte)
    requires a <= 0x7F
    ensures var c := Point([a]); Scalar(c) && Encode(c) == [a]
  {
  }

  lemma TwoBytes(a: Byte, b: Byte)
    requires 0xC2 <= a <= 0xDF && Tail(b)
    ensures var c := Point([a, b]); Scalar(c) && Encode(c) == [a, b]
  {
    hide Digit, Low, Tail;
    var c := Point([a, b]);
    LowIsSmall(b);
    TwoGroups((a & 0x1F) as CodePoint, Low(b));
    TailIsDigit(b, c);
    LeadIsMarked(a);
  }

  lemma ThreeBytes(a: Byte, b: Byte, d: Byte)
    requires 0xE0 <= a <= 0xEF && Second(a, b) && Tail(d)
    ensures var c := Point([a, b, d]); Scalar(c) && Encode(c) == [a, b, d]
  {
    hide Digit, Low, Tail, Second;
    var c := Point([a, b, d]);
    SecondBounds(a, b);
    LowIsSmall(d);
    ThreeGroups((a & 0x0F) as CodePoint, Low(b), Low(d));
    TailIsDigit(d, c);
    TailIsDigit(b, c >> 6);
    LeadIsMarked(a);
  }

  lemma FourIsLarge(a: Byte, b: Byte)
    requires 0xF0 <= a <= 0xF4 && Second(a, b)
    ensures var top := (a & 0x07) as CodePoint;
            !(top == 0 && Low(b) < 0x10) && (top < 4 || (top == 4 && Low(b) < 0x10))
  {
  }

  lemma PointOfFour(a: Byte, b: Byte, d: Byte, e: Byte)
    ensures Point([a, b, d, e]) == ((a & 0x07) as CodePoint << 18) | (Low(b) << 12) | (Low(d) << 6) | Low(e)
  {
    hide Low;
  }

  /** A four-byte character is large enough, not too large, and comes apart into its bytes' bits. */
  lemma FourPoint(a: Byte, b: Byte, d: Byte, e: Byte)
    requires 0xF0 <= a <= 0xF4 && Second(a, b)
    ensures var c := Point([a, b, d, e]);
            && 0x10000 <= c <= 0x10FFFF && c >> 18 == (a & 0x07) as CodePoint
            && (c >> 12) & 0x3F == Low(b) && (c >> 6) & 0x3F == Low(d) && c & 0x3F == Low(e)
  {
    hide Low, Second, Point;
    LowIsSmall(b);
    LowIsSmall(d);
    LowIsSmall(e);
    LeadIsMarked(a);
    FourIsLarge(a, b);
    PointOfFour(a, b, d, e);
    var top, second, third, fourth := (a & 0x07) as CodePoint, Low(b), Low(d), Low(e);
    FourGroups(top, second, third, fourth);
  }

  lemma EncodeFour(c: CodePoint)
    requires 0x10000 <= c <= 0x10FFFF
    ensures Encode(c) == [(0xF0 | (c >> 18)) as Byte, Digit(c >> 12), Digit(c >> 6), Digit(c)]
  {
    hide Digit;
  }

  lemma FourDigits(a: Byte, b: Byte, d: Byte, e: Byte, c: CodePoint)
    requires 0xF0 <= a <= 0xF4 && Tail(b) && Tail(d) && Tail(e)
    requires 0x10000 <= c <= 0x10FFFF && c >> 18 == (a & 0x07) as CodePoint
    requires (c >> 12) & 0x3F == Low(b) && (c >> 6) & 0x3F == Low(d) && c & 0x3F == Low(e)
    ensures Encode(c) == [a, b, d, e]
  {
    hide Digit, Low, Tail, Encode;
    EncodeFour(c);
    TailIsDigit(e, c);
    TailIsDigit(d, c >> 6);
    TailIsDigit(b, c >> 12);
    LeadIsMarked(a);
  }

  lemma FourBytes(a: Byte, b: Byte, d: Byte, e: Byte)
    requires 0xF0 <= a <= 0xF4 && Second(a, b) && Tail(d) && Tail(e)
    ensures var c := Point([a, b, d, e]); Scalar(c) && Encode(c) == [a, b, d, e]
  {
    hide Point, Low, Tail, Second, Encode;
    SecondBounds(a, b);
    FourPoint(a, b, d, e);
    FourDigits(a, b, d, e, Point([a, b, d, e]));
  }

  /** The first character of well-formed data is written as its bytes. */
  lemma FirstEncodes(data: seq<Byte>)
    requires FirstWidth(data) > 0
    ensures Scalar(FirstPoint(data)) && Encode(FirstPoint(data)) == data[..FirstWidth(data)]
  {
    hide Encode, Scalar, Tail, Second, Point;
    var c := data[..FirstWidth(data)];
    match |c| {
      case 1 => OneByte(data[0]);
      case 2 => TwoBytes(data[0], data[1]);
      case 3 => ThreeBytes(data[0], data[1], data[2]);
      case 4 => FourBytes(data[0], data[1], data[2], data[3]);
    }
    assert c == match |c|
                case 1 => [data[0]]
                case 2 => [data[0], data[1]]
                case 3 => [data[0], data[1], data[2]]
                case _ => [data[0], data[1], data[2], data[3]];
  }

  lemma EncodeMore(c: CodePoint, rest: seq<CodePoint>)
    requires Scalar(c) && Scalars(rest)
    ensures Scalars([c] + rest) && EncodeAll([c] + rest) == Encode(c) + EncodeAll(rest)
  {
    hide Encode, Scalar;
    assert ([c] + rest)[1..] == rest;
  }

  lemma SplitsAt(data: seq<Byte>, w: nat)
    requires w <= |data|
    ensures data == data[..w] + data[w..]
  {
  }

  lemma FirstAndRestEncode(data: seq<Byte>)
    requires FirstWidth(data) > 0 && WellFormed(data[FirstWidth(data)..])
    requires var rest := data[FirstWidth(data)..]; Scalars(Decode(rest).value) && EncodeAll(Decode(rest).value) == rest
    ensures var text := [FirstPoint(data)] + Decode(data[FirstWidth(data)..]).value;
            Scalars(text) && EncodeAll(text) == data
  {
    hide Encode, EncodeAll, Scalar, Scalars, FirstWidth, FirstPoint, Decode;
    FirstEncodes(data);
    EncodeMore(FirstPoint(data), Decode(data[FirstWidth(data)..]).value);
    SplitsAt(data, FirstWidth(data));
  }

  lemma DecodeStep(data: seq<Byte>)
    requires data != []
    ensures WellFormed(data) <==> FirstWidth(data) > 0 && WellFormed(data[FirstWidth(data)..])
    ensures WellFormed(data) ==> Decode(data).value == [FirstPoint(data)] + Decode(data[FirstWidth(data)..]).value
  {
    hide FirstPoint, FirstWidth;
  }

  /** What is read from well-formed data are characters, and written they are the data again. */
  lemma {:induction false} DecodedEncodes(data: seq<Byte>)
    requires WellFormed(data)
    ensures Scalars(Decode(data).value) && EncodeAll(Decode(data).value) == data
    decreases |data|
  {
    if data != [] {
      hide Encode, EncodeAll, Scalar, Scalars, FirstWidth, FirstPoint, Decode;
      DecodeStep(data);
      DecodedEncodes(data[FirstWidth(data)..]);
      FirstAndRestEncode(data);
    }
  }

  // ---------------------------------------------------------------------------
  // Reading what was written
  // ---------------------------------------------------------------------------

  lemma DigitIsTail(c: CodePoint)
    ensures Tail(Digit(c)) && Low(Digit(c)) == c & 0x3F
  {
  }

  lemma TwoRead(c: CodePoint)
    requires 0x80 <= c < 0x800
    ensures var lead := (0xC0 | (c >> 6)) as Byte; 0xC2 <= lead <= 0xDF && (lead & 0x1F) as CodePoint == c >> 6
    ensures c == ((c >> 6) << 6) | (c & 0x3F)
  {
  }

  lemma ThreeRead(c: CodePoint)
    requires 0x800 <= c < 0x10000 && !(0xD800 <= c <= 0xDFFF)
    ensures var lead := (0xE0 | (c >> 12)) as Byte;
            && 0xE0 <= lead <= 0xEF && (lead & 0x0F) as CodePoint == c >> 12
            && Second(lead, Digit(c >> 6))
    ensures c == ((c >> 12) << 12) | (((c >> 6) & 0x3F) << 6) | (c & 0x3F)
  {
  }

  lemma FourRead(c: CodePoint)
    requires 0x10000 <= c <= 0x10FFFF
    ensures var lead := (0xF0 | (c >> 18)) as Byte;
            && 0xF0 <= lead <= 0xF4 && (lead & 0x07) as CodePoint == c >> 18
            && Second(lead, Digit(c >> 12))
    ensures c == ((c >> 18) << 18) | (((c >> 12) & 0x3F) << 12) | (((c >> 6) & 0x3F) << 6) | (c & 0x3F)
  {
  }

  lemma OneEncoded(c: CodePoint)
    requires c < 0x80
    ensures FirstWidth(Encode(c)) == |Encode(c)| && Point(Encode(c)) == c
  {
    assert c as Byte as CodePoint == c;
  }

  lemma TwoEncoded(c: CodePoint)
    requires 0x80 <= c < 0x800
    ensures FirstWidth(Encode(c)) == |Encode(c)| && Point(Encode(c)) == c
  {
    hide Digit, Tail, Low, Second;
    TwoRead(c);
    DigitIsTail(c);
  }

  lemma EncodeThree(c: CodePoint)
    requires 0x800 <= c < 0x10000 && !(0xD800 <= c <= 0xDFFF)
    ensures Encode(c) == [(0xE0 | (c >> 12)) as Byte, Digit(c >> 6), Digit(c)]
  {
    hide Digit;
  }

  lemma PointOfThree(a: Byte, b: Byte, d: Byte)
    ensures Point([a, b, d]) == ((a & 0x0F) as CodePoint << 12) | (Low(b) << 6) | Low(d)
  {
    hide Low;
  }

  lemma ThreeEncoded(c: CodePoint)
    requires 0x800 <= c < 0x10000 && !(0xD800 <= c <= 0xDFFF)
    ensures FirstWidth(Encode(c)) == |Encode(c)| && Point(Encode(c)) == c
  {
    hide Digit, Tail, Low, Second, Encode, Point;
    var a, b, d := (0xE0 | (c >> 12)) as Byte, Digit(c >> 6), Digit(c);
    EncodeThree(c);
    ThreeRead(c);
    DigitIsTail(c);
    DigitIsTail(c >> 6);
    PointOfThree(a, b, d);
  }

  lemma WidthOfFour(a: Byte, b: Byte, d: Byte, e: Byte)
    requires 0xF0 <= a <= 0xF4 && Second(a, b) && Tail(d) && Tail(e)
    ensures FirstWidth([a, b, d, e]) == 4
  {
    hide Second, Tail;
  }

  lemma FourPointIs(a: Byte, b: Byte, d: Byte, e: Byte, c: CodePoint)
    requires (a & 0x07) as CodePoint == c >> 18 && Low(b) == (c >> 12) & 0x3F
    requires Low(d) == (c >> 6) & 0x3F && Low(e) == c & 0x3F && c <= 0x10FFFF
    ensures Point([a, b, d, e]) == c
  {
    hide Low, Point;
    PointOfFour(a, b, d, e);
  }

  lemma FourEncoded(c: CodePoint)
    requires 0x10000 <= c <= 0x10FFFF
    ensures FirstWidth(Encode(c)) == |Encode(c)| && Point(Encode(c)) == c
  {
    hide Digit, Tail, Low, Second, Encode, Point, FirstWidth;
    var a, b, d, e := (0xF0 | (c >> 18)) as Byte, Digit(c >> 12), Digit(c >> 6), Digit(c);
    EncodeFour(c);
    FourRead(c);
    DigitIsTail(c);
    DigitIsTail(c >> 6);
    DigitIsTail(c >> 12);
    WidthOfFour(a, b, d, e);
    FourPointIs(a, b, d, e, c);
  }

  /** A character's bytes are read as that character. */
  lemma CharacterComesBack(c: CodePoint)
    requires Scalar(c)
    ensures FirstWidth(Encode(c)) == |Encode(c)| && Point(Encode(c)) == c
  {
    hide Point;
    if c < 0x80 {
      OneEncoded(c);
    } else {
      hide FirstWidth, Encode;
      if c < 0x800 {
        TwoEncoded(c);
      } else if c < 0x10000 {
        ThreeEncoded(c);
      } else {
        FourEncoded(c);
      }
    }
  }

  /** And nothing that follows them changes that. */
  lemma WidthWithMore(c: seq<Byte>, more: seq<Byte>)
    requires c != [] && FirstWidth(c) == |c|
    ensures FirstWidth(c + more) == |c|
  {
    hide Tail, Second;
    assert forall i :: 0 <= i < |c| ==> (c + more)[i] == c[i];
  }

  /** Any characters written are well-formed data, read as those characters. */
  lemma {:induction false} TextComesBack(text: seq<CodePoint>)
    requires Scalars(text)
    ensures Decode(EncodeAll(text)) == Some(text)
  {
    if text != [] {
      var c, rest := Encode(text[0]), EncodeAll(text[1..]);
      TextComesBack(text[1..]);
      CharacterComesBack(text[0]);
      WidthWithMore(c, rest);
      assert (c + rest)[..|c|] == c && (c + rest)[|c|..] == rest;
      DecodeStep(c + rest);
      hide Encode, FirstWidth, Point, Decode, Scalar;
      assert EncodeAll(text) == c + rest;
      assert [text[0]] + text[1..] == text;
    }
  }

  /** So the well-formed data are exactly the texts of characters written. */
  lemma WellFormedIffWritten(data: seq<Byte>)
    ensures WellFormed(data) <==> exists text :: Scalars(text) && EncodeAll(text) == data
  {
    hide EncodeAll, Decode, Scalars;
    if WellFormed(data) {
      DecodedEncodes(data);
    }
    if text :| Scalars(text) && EncodeAll(text) == data {
      TextComesBack(text);
    }
  }

  // ---------------------------------------------------------------------------
  // The source's functions
  // ---------------------------------------------------------------------------

  datatype Error =
    | NegativeOffset
    | OffsetBeyondEnd(total: nat)
    | NotABoundary
    | NoBytesAllowed
    | TooSmall(width: nat)
    | DecodeError

  datatype Window = Window(content: seq<CodePoint>, offset: nat, end: nat, total: nat)

  predicate IsBoundary(data: seq<Byte>, index: nat)
    requires index <= |data|
  {
    index == 0 || index == |data| || data[index] & 0xC0 != 0x80
  }

  /** The last boundary at or before an index, but no further back than a bound. */
  function PreviousBoundary(data: seq<Byte>, index: nat, bound: nat): (b: nat)
    requires bound <= index <= |data|
    ensures bound <= b <= index
    ensures b == bound || IsBoundary(data, b)
    ensures forall i :: b < i <= index ==> !IsBoundary(data, i)
  {
    if index > bound && !IsBoundary(data, index) then PreviousBoundary(data, index - 1, bound) else index
  }

  method StepBack(data: seq<Byte>, index: nat, bound: nat) returns (b: nat)
    requires bound <= index <= |data|
    ensures b == PreviousBoundary(data, index, bound)
  {
    b := index;
    while b > bound && !IsBoundary(data, b)
      invariant bound <= b <= index
      invariant PreviousBoundary(data, b, bound) == PreviousBoundary(data, index, bound)
    {
      b := b - 1;
    }
  }

  /** The mask test: a byte is a continuation byte exactly when it may follow in a character. */
  lemma ContinuationIsTail(b: Byte)
    ensures b & 0xC0 == 0x80 <==> Tail(b)
  {
  }

  lemma BoundaryBytes(data: seq<Byte>)
    ensures forall i :: 0 <= i <= |data| ==>
              (IsBoundary(data, i) <==> i == 0 || i == |data| || !(0x80 <= data[i] <= 0xBF))
  {
    forall i | 0 <= i < |data|
      ensures data[i] & 0xC0 == 0x80 <==> 0x80 <= data[i] <= 0xBF
    {
      ContinuationIsTail(data[i]);
    }
  }

  function NextWidth(first: Byte): nat {
    if first < 0x80 then 1
    else if first & 0xE0 == 0xC0 then 2
    else if first & 0xF0 == 0xE0 then 3
    else if first & 0xF8 == 0xF0 then 4
    else 1
  }

  /** The width a first byte announces, also one that starts no well-formed character. */
  lemma NextWidthIs(first: Byte)
    ensures NextWidth(first) ==
            if 0xC0 <= first <= 0xDF then 2
            else if 0xE0 <= first <= 0xEF then 3
            else if 0xF0 <= first <= 0xF7 then 4
            else 1
  {
  }

  /** The answer to one read. */
  function Read(data: seq<Byte>, offset: int, maxBytes: int): Result<Window, Error> {
    if offset < 0 then Failure(NegativeOffset)
    else if offset > |data| then Failure(OffsetBeyondEnd(|data|))
    else if !IsBoundary(data, offset) then Failure(NotABoundary)
    else if maxBytes < 1 then Failure(NoBytesAllowed)
    else
      var limit := if offset + maxBytes <= |data| then offset + maxBytes else |data|;
      var end := PreviousBoundary(data, limit, offset);
      if end == offset && offset < |data| then Failure(TooSmall(NextWidth(data[offset])))
      else
        match Decode(data[offset..end])
        case None => Failure(DecodeError)
        case Some(content) => Success(Window(content, offset, end, |data|))
  }

  method Utf8Window(data: seq<Byte>, offset: int, maxBytes: int) returns (result: Result<Window, Error>)
    ensures result == Read(data, offset, maxBytes)
    // Which refusal, if any.
    ensures result == Failure(NegativeOffset) <==> offset < 0
    ensures result == Failure(OffsetBeyondEnd(|data|)) <==> offset > |data|
    ensures result == Failure(NotABoundary) <==> 0 < offset < |data| && 0x80 <= data[offset] <= 0xBF
    ensures result == Failure(NoBytesAllowed) <==>
              && 0 <= offset <= |data| && maxBytes < 1
              && (offset == 0 || offset == |data| || !(0x80 <= data[offset] <= 0xBF))
    // Whatever the bytes, a window ends at the last place within the size where no character goes on.
    ensures result.Success? ==>
              && result.value.offset == offset && result.value.total == |data|
              && result.value.end <= offset + maxBytes
              && (result.value.end == |data| || !(0x80 <= data[result.value.end] <= 0xBF))
              && forall i :: result.value.end < i <= offset + maxBytes && i < |data| ==> 0x80 <= data[i] <= 0xBF
    // The characters of a window, written again, are its bytes.
    ensures result.Success? ==>
              && 0 <= offset <= result.value.end <= |data| && Scalars(result.value.content)
              && EncodeAll(result.value.content) == data[offset..result.value.end]
  {
    BoundaryBytes(data);
    var total := |data|;
    if offset < 0 {
      return Failure(NegativeOffset);
    }
    if offset > total {
      return Failure(OffsetBeyondEnd(total));
    }
    if !IsBoundary(data, offset) {
      return Failure(NotABoundary);
    }
    if maxBytes < 1 {
      return Failure(NoBytesAllowed);
    }
    var end := StepBack(data, if offset + maxBytes <= total then offset + maxBytes else total, offset);
    if end == offset && offset < total {
      return Failure(TooSmall(NextWidth(data[offset])));
    }
    match Decode(data[offset..end]) {
      case None => return Failure(DecodeError);
      case Some(content) =>
        DecodedEncodes(data[offset..end]);
        return Success(Window(content, offset, end, total));
    }
  }

  // ---------------------------------------------------------------------------
  // Boundaries of well-formed text
  // ---------------------------------------------------------------------------

  /** Only the first byte of a character is no tail. */
  lemma TailsInside(data: seq<Byte>, i: nat)
    requires FirstWidth(data) > 0 && i < FirstWidth(data)
    ensures data[i] & 0xC0 == 0x80 <==> i > 0
  {
    ContinuationIsTail(data[i]);
  }

  /** A character depends on its own bytes only, and a part of it is none. */
  lemma FirstWidthOfPrefix(data: seq<Byte>, i: nat)
    requires FirstWidth(data) > 0 && i <= |data|
    ensures FirstWidth(data[..i]) == if i >= FirstWidth(data) then FirstWidth(data) else 0
  {
    hide Second, Tail;
    var part := data[..i];
    assert i > 0 ==> part[0] == data[0];
    assert i > 1 ==> part[1] == data[1];
    assert i > 2 ==> part[2] == data[2];
    assert i > 3 ==> part[3] == data[3];
  }

  lemma FirstPointOfPrefix(data: seq<Byte>, i: nat)
    requires FirstWidth(data) > 0 && FirstWidth(data) <= i <= |data|
    requires FirstWidth(data[..i]) == FirstWidth(data)
    ensures FirstPoint(data[..i]) == FirstPoint(data)
  {
    hide FirstWidth, Point;
    assert data[..i][..FirstWidth(data)] == data[..FirstWidth(data)];
  }

  /** The width named in a refusal is the width of the next character. */
  lemma NextWidthIsFirstWidth(data: seq<Byte>)
    requires FirstWidth(data) > 0
    ensures NextWidth(data[0]) == FirstWidth(data)
  {
    var b := data[0];
    assert 0xC2 <= b <= 0xDF ==> b & 0xE0 == 0xC0;
    assert 0xE0 <= b <= 0xEF ==> b & 0xF0 == 0xE0 && b & 0xE0 != 0xC0;
    assert 0xF0 <= b <= 0xF4 ==> b & 0xF8 == 0xF0 && b & 0xF0 != 0xE0 && b & 0xE0 != 0xC0;
  }

  /** After the first character, a boundary of the text is one of the rest. */
  lemma SameBoundary(data: seq<Byte>, i: nat)
    requires WellFormed(data) && data != [] && FirstWidth(data) <= i <= |data|
    ensures FirstWidth(data) > 0
    ensures IsBoundary(data, i) <==> IsBoundary(data[FirstWidth(data)..], i - FirstWidth(data))
  {
    hide FirstPoint, FirstWidth, Decode;
    DecodeStep(data);
    var rest := data[FirstWidth(data)..];
    if i == FirstWidth(data) && i < |data| {
      DecodeStep(rest);
      TailsInside(rest, 0);
    }
  }

  lemma SlicesMeet(data: seq<Byte>, w: nat, i: nat)
    requires w <= i <= |data|
    ensures data[..i][w..] == data[w..][..i - w] && data[w..][i - w..] == data[i..]
  {
  }

  /** Reading up to i and reading on are reading the first character, then the rest split at the same place. */
  lemma SplitAfterFirst(data: seq<Byte>, i: nat)
    requires WellFormed(data) && data != [] && FirstWidth(data) <= i <= |data|
    ensures FirstWidth(data) > 0
    ensures var rest, j := data[FirstWidth(data)..], i - FirstWidth(data);
            && (WellFormed(data[..i]) <==> WellFormed(rest[..j]))
            && data[i..] == rest[j..]
            && (WellFormed(data[..i]) ==> Decode(data[..i]).value == [FirstPoint(data)] + Decode(rest[..j]).value)
            && Decode(data).value == [FirstPoint(data)] + Decode(rest).value && WellFormed(rest)
  {
    hide FirstPoint, FirstWidth, Decode;
    DecodeStep(data);
    var w := FirstWidth(data);
    FirstWidthOfPrefix(data, i);
    FirstPointOfPrefix(data, i);
    DecodeStep(data[..i]);
    SlicesMeet(data, w, i);
  }

  /**
   In well-formed text the mask test finds exactly the character boundaries: the places where the text
   before is well-formed. There the text splits, and so do its characters.
   */
  lemma {:induction false} BoundarySplits(data: seq<Byte>, i: nat)
    requires WellFormed(data) && i <= |data|
    ensures IsBoundary(data, i) <==> WellFormed(data[..i])
    ensures IsBoundary(data, i) ==>
              && WellFormed(data[i..])
              && Decode(data).value == Decode(data[..i]).value + Decode(data[i..]).value
    decreases |data|
  {
    hide FirstWidth, FirstPoint;
    if i == 0 {
      assert data[..0] == [] && data[0..] == data;
    } else {
      var w := FirstWidth(data);
      FirstWidthOfPrefix(data, i);
      if i < w {
        TailsInside(data, i);
      } else {
        BoundarySplits(data[w..], i - w);
        SplitAfterFirst(data, i);
        SameBoundary(data, i);
      }
    }
  }

  // ---------------------------------------------------------------------------
  // One read
  // ---------------------------------------------------------------------------

  /** The next boundary after one is a character's width away. */
  lemma NextBoundary(data: seq<Byte>, offset: nat, i: nat)
    requires WellFormed(data) && offset < |data| && IsBoundary(data, offset)
    ensures 0 < FirstWidth(data[offset..]) <= |data| - offset
    ensures IsBoundary(data, offset + FirstWidth(data[offset..]))
    ensures offset < i < offset + FirstWidth(data[offset..]) ==> !IsBoundary(data, i)
  {
    BoundarySplits(data, offset);
    var rest := data[offset..];
    var w := FirstWidth(rest);
    if w < |rest| {
      TailsInside(rest[w..], 0);
      assert rest[w..][0] == data[offset + w];
    }
    if offset < i < offset + w {
      TailsInside(rest, i - offset);
    }
  }

  lemma WindowDecodes(data: seq<Byte>, offset: nat, end: nat)
    requires WellFormed(data) && offset <= end <= |data| && IsBoundary(data, offset) && IsBoundary(data, end)
    ensures WellFormed(data[offset..end]) && WellFormed(data[..end]) && WellFormed(data[..offset])
    ensures Decode(data[..end]).value == Decode(data[..offset]).value + Decode(data[offset..end]).value
  {
    BoundarySplits(data, offset);
    BoundarySplits(data, end);
    var before := data[..end];
    assert before[..offset] == data[..offset] && before[offset..] == data[offset..end];
    if offset < end {
      assert IsBoundary(before, offset);
      BoundarySplits(before, offset);
    } else {
      assert data[offset..end] == [];
    }
  }

  /**
   On well-formed text from a boundary, a read is refused exactly when the bytes allowed can't hold the
   next character, whose width is the least that can; otherwise it ends at the largest boundary allowed
   and returns the characters up to there.
   */
  lemma ReadIsExact(data: seq<Byte>, offset: nat, maxBytes: int)
    requires WellFormed(data) && offset <= |data| && IsBoundary(data, offset) && maxBytes >= 1
    ensures offset < |data| && maxBytes < FirstWidth(data[offset..]) ==>
              Read(data, offset, maxBytes) == Failure(TooSmall(FirstWidth(data[offset..])))
    ensures !(offset < |data| && maxBytes < FirstWidth(data[offset..])) ==>
              && Read(data, offset, maxBytes).Success?
              && var window := Read(data, offset, maxBytes).value;
                 && window.offset == offset && window.total == |data|
                 && offset <= window.end <= |data| && window.end <= offset + maxBytes
                 && (offset < |data| ==> offset < window.end)
                 && IsBoundary(data, window.end)
                 && (forall i :: window.end < i <= |data| && IsBoundary(data, i) ==> offset + maxBytes < i)
                 && Decode(data[offset..window.end]) == Some(window.content)
                 && Scalars(window.content) && EncodeAll(window.content) == data[offset..window.end]
  {
    var limit := if offset + maxBytes <= |data| then offset + maxBytes else |data|;
    var end := PreviousBoundary(data, limit, offset);
    if offset < |data| {
      NextBoundary(data, offset, end);
      NextWidthIsFirstWidth(data[offset..]);
      var next := offset + FirstWidth(data[offset..]);
      if maxBytes < FirstWidth(data[offset..]) {
        assert end == offset;
      } else {
        assert next <= limit && end >= next;
      }
    }
    WindowDecodes(data, offset, end);
    DecodedEncodes(data[offset..end]);
    hide EncodeAll, Scalars;
  }

  // ---------------------------------------------------------------------------
  // Reading page by page
  // ---------------------------------------------------------------------------

  /** The texts of successive reads, each from where the last ended, `sizes` giving the bytes each may take. */
  function ReadPages(data: seq<Byte>, offset: nat, sizes: nat -> int, page: nat): (texts: seq<seq<CodePoint>>)
    requires WellFormed(data) && offset <= |data| && IsBoundary(data, offset)
    requires forall k :: sizes(k) >= 4
    decreases |data| - offset
  {
    if offset == |data| then []
    else
      ReadIsExact(data, offset, sizes(page));
      var window := Read(data, offset, sizes(page)).value;
      [window.content] + ReadPages(data, window.end, sizes, page + 1)
  }

  function Concatenated(texts: seq<seq<CodePoint>>): seq<CodePoint> {
    if texts == [] then [] else texts[0] + Concatenated(texts[1..])
  }

  lemma RestSlices(data: seq<Byte>, offset: nat, end: nat)
    requires offset <= end <= |data| && IsBoundary(data, end)
    ensures data[offset..][..end - offset] == data[offset..end] && data[offset..][end - offset..] == data[end..]
    ensures IsBoundary(data[offset..], end - offset)
  {
  }

  lemma RestSplits(data: seq<Byte>, offset: nat, end: nat)
    requires WellFormed(data) && offset <= end <= |data| && IsBoundary(data, offset) && IsBoundary(data, end)
    ensures WellFormed(data[offset..]) && WellFormed(data[offset..end]) && WellFormed(data[end..])
    ensures Decode(data[offset..]).value == Decode(data[offset..end]).value + Decode(data[end..]).value
  {
    hide Decode, FirstWidth, FirstPoint;
    BoundarySplits(data, offset);
    RestSlices(data, offset, end);
    BoundarySplits(data[offset..], end - offset);
  }

  /**
   With at least four bytes a page, reading on from each end offset is never refused, always gets
   further, and ends; the pages, however large each, make up the whole text.
   */
  lemma {:induction false} PagesMakeTheText(data: seq<Byte>, offset: nat, sizes: nat -> int, page: nat)
    requires WellFormed(data) && offset <= |data| && IsBoundary(data, offset)
    requires forall k :: sizes(k) >= 4
    ensures WellFormed(data[offset..])
    ensures Concatenated(ReadPages(data, offset, sizes, page)) == Decode(data[offset..]).value
    ensures |ReadPages(data, offset, sizes, page)| <= |data| - offset
    decreases |data| - offset
  {
    BoundarySplits(data, offset);
    if offset == |data| {
      assert data[offset..] == [];
    } else {
      ReadIsExact(data, offset, sizes(page));
      var window := Read(data, offset, sizes(page)).value;
      PagesMakeTheText(data, window.end, sizes, page + 1);
      RestSplits(data, offset, window.end);
      hide Read, Decode, FirstWidth;
      var texts := ReadPages(data, offset, sizes, page);
      assert texts[1..] == ReadPages(data, window.end, sizes, page + 1);
    }
  }

  lemma ReadingFromTheStart(data: seq<Byte>, sizes: nat -> int)
    requires WellFormed(data) && forall k :: sizes(k) >= 4
    ensures var text := Concatenated(ReadPages(data, 0, sizes, 0));
            && text == Decode(data).value
            && Scalars(text) && EncodeAll(text) == data
  {
    PagesMakeTheText(data, 0, sizes, 0);
    DecodedEncodes(data);
    assert data[0..] == data;
  }
}
