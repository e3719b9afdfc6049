/**
 QuickXorHash, apps/api/utils/quickxorhash.py: the column-folded form against the definition that
 rotates and XORs one byte at a time into a 160-bit word.

 A non-negative Python integer is the set of its one bits, so XOR, the shifts and the masks are exact
 at any width. The base64 text of the twenty bytes is not part of this model.
 */
module QuickXorHash {
  import opened Wrappers
  import Numbers

  const WIDTH := 160
  const STEP := 11
  const LENGTH_SHIFT := 96
  const HASH_BYTES := 20
  const LENGTH_LIMIT := 0x1_0000_0000_0000_0000

  type Byte = n: int | 0 <= n < 256

  type Word = set<nat>

  // ---------------------------------------------------------------------------
  // Integers as bits
  // ---------------------------------------------------------------------------

  function ShiftLeft(w: Word, s: nat): Word {
    set k | k in w :: k + s
  }

  function Bits(n: nat): Word {
    if n == 0 then {} else (if n % 2 == 1 then {0} else {}) + ShiftLeft(Bits(n / 2), 1)
  }

  function ShiftRight(w: Word, s: nat): Word {
    set k | k in w && k >= s :: k - s
  }

  /** The integer below 2^width with these bits. */
  function IntOf(w: Word, width: nat): nat
    decreases width
  {
    if width == 0 then 0 else (if 0 in w then 1 else 0) + 2 * IntOf(ShiftRight(w, 1), width - 1)
  }

  function Xor(a: Word, b: Word): Word {
    (a - b) + (b - a)
  }

  /** w & ((1 << width) - 1) */
  function Masked(w: Word, width: nat): Word {
    set k | k in w && k < width
  }

  predicate Below(w: Word, width: nat) {
    forall k :: k in w ==> k < width
  }

  /** The rotation of a 160-bit word: bit k goes to bit (k + s) mod 160. */
  function Rotate(w: Word, s: nat): Word {
    set k | k in w :: (k + s) % WIDTH
  }

  function Power2(k: nat): (p: nat)
    ensures p > 0
  {
    if k == 0 then 1 else 2 * Power2(k - 1)
  }

  lemma InShiftLeft(w: Word, s: nat, x: nat)
    ensures x in ShiftLeft(w, s) <==> x >= s && x - s in w
  {
    if x >= s && x - s in w {
      assert (x - s) + s == x;
    }
  }

  lemma InShiftRight(w: Word, s: nat, x: nat)
    ensures x in ShiftRight(w, s) <==> x + s in w
  {
    if x + s in w {
      assert (x + s) - s == x;
    }
  }

  lemma {:induction false} SomeBit(n: nat)
    requires n > 0
    ensures Bits(n) != {}
  {
    if n % 2 == 0 {
      SomeBit(n / 2);
      var k :| k in Bits(n / 2);
      InShiftLeft(Bits(n / 2), 1, k + 1);
    } else {
      assert 0 in Bits(n);
    }
  }

  /** An integer is below 2^width exactly when its bits are. */
  lemma {:induction false} BitsBelow(n: nat, width: nat)
    ensures Below(Bits(n), width) <==> n < Power2(width)
    decreases width
  {
    if width == 0 {
      if n > 0 {
        SomeBit(n);
      }
    } else if n > 0 {
      BitsBelow(n / 2, width - 1);
      var half := Bits(n / 2);
      forall k
        ensures k in ShiftLeft(half, 1) <==> k >= 1 && k - 1 in half
      {
        if k >= 0 {
          InShiftLeft(half, 1, k);
        }
      }
      if Below(Bits(n), width) {
        forall k | k in half
          ensures k < width - 1
        {
          assert k + 1 in ShiftLeft(half, 1);
        }
      }
    }
  }

  lemma BitsOfDouble(n: nat, odd: bool)
    ensures Bits(2 * n + if odd then 1 else 0) == (if odd then {0} else {}) + ShiftLeft(Bits(n), 1)
  {
    var m := 2 * n + if odd then 1 else 0;
    assert m / 2 == n && m % 2 == if odd then 1 else 0;
  }

  lemma {:induction false} IntOfBits(w: Word, width: nat)
    requires Below(w, width)
    ensures IntOf(w, width) < Power2(width)
    ensures Bits(IntOf(w, width)) == w
    decreases width
  {
    if width == 0 {
      assert w == {};
    } else {
      var half := ShiftRight(w, 1);
      forall k | k in half
        ensures k < width - 1
      {
        InShiftRight(w, 1, k);
      }
      IntOfBits(half, width - 1);
      forall k: nat
        ensures k in (if 0 in w then {0} else {}) + ShiftLeft(half, 1) <==> k in w
      {
        InShiftLeft(half, 1, k);
        if k >= 1 {
          InShiftRight(w, 1, k - 1);
        }
      }
      BitsOfDouble(IntOf(half, width - 1), 0 in w);
    }
  }

  lemma HalfBits(n: nat)
    ensures Bits(n / 2) == ShiftRight(Bits(n), 1)
    ensures Bits(n) == (if n % 2 == 1 then {0} else {}) + ShiftLeft(Bits(n / 2), 1)
  {
    forall k: nat
      ensures k in Bits(n / 2) <==> k in ShiftRight(Bits(n), 1)
    {
      InShiftRight(Bits(n), 1, k);
      InShiftLeft(Bits(n / 2), 1, k + 1);
    }
  }

  lemma ShiftTwice(w: Word, s: nat)
    ensures ShiftLeft(ShiftLeft(w, s), 1) == ShiftLeft(w, s + 1)
    ensures ShiftRight(ShiftRight(w, 1), s) == ShiftRight(w, s + 1)
  {
    forall k: nat
      ensures k in ShiftLeft(ShiftLeft(w, s), 1) <==> k in ShiftLeft(w, s + 1)
      ensures k in ShiftRight(ShiftRight(w, 1), s) <==> k in ShiftRight(w, s + 1)
    {
      InShiftLeft(ShiftLeft(w, s), 1, k);
      if k >= 1 {
        InShiftLeft(w, s, k - 1);
      }
      InShiftLeft(w, s + 1, k);
      InShiftRight(ShiftRight(w, 1), s, k);
      InShiftRight(w, 1, k + s);
      InShiftRight(w, s + 1, k);
    }
  }

  lemma NoShift(w: Word)
    ensures ShiftLeft(w, 0) == w && ShiftRight(w, 0) == w
  {
    forall k: nat
      ensures k in ShiftLeft(w, 0) <==> k in w
      ensures k in ShiftRight(w, 0) <==> k in w
    {
      InShiftLeft(w, 0, k);
      InShiftRight(w, 0, k);
    }
  }

  lemma ProductDoubles(n: nat, s: nat)
    ensures s == 0 ==> n * Power2(s) == n
    ensures s > 0 ==> n * Power2(s) == 2 * (n * Power2(s - 1))
  {
    if s > 0 {
      assert n * (2 * Power2(s - 1)) == 2 * (n * Power2(s - 1));
    }
  }

  /** n << s */
  lemma {:induction false} ShiftLeftMultiplies(n: nat, s: nat)
    ensures Bits(n * Power2(s)) == ShiftLeft(Bits(n), s)
  {
    hide Bits, ShiftLeft, Power2;
    ProductDoubles(n, s);
    if s == 0 {
      NoShift(Bits(n));
    } else {
      ShiftLeftMultiplies(n, s - 1);
      BitsOfDouble(n * Power2(s - 1), false);
      ShiftTwice(Bits(n), s - 1);
    }
  }

  function Quotient(n: nat, d: nat): nat
    requires d > 0
  {
    n / d
  }

  lemma QuotientIs(n: nat, d: nat, q: nat, r: nat)
    requires n == q * d + r && r < d
    ensures n / d == q && n % d == r
  {
    Numbers.FloorIff(n, d, q);
    Numbers.FloorIff(n, d, q + 1);
    assert n == n / d * d + n % d;
  }

  lemma DivideTwice(n: nat, d: nat)
    requires d > 0
    ensures n / (2 * d) == n / 2 / d
    ensures n % (2 * d) == 2 * (n / 2 % d) + n % 2
  {
    var half := n / 2;
    var q, r := half / d, half % d;
    assert n == q * (2 * d) + (2 * r + n % 2);
    QuotientIs(n, 2 * d, q, 2 * r + n % 2);
  }

  lemma QuotientHalves(n: nat, s: nat)
    ensures s == 0 ==> Quotient(n, Power2(s)) == n
    ensures s > 0 ==> Quotient(n, Power2(s)) == Quotient(n / 2, Power2(s - 1))
  {
    if s > 0 {
      DivideTwice(n, Power2(s - 1));
    }
  }

  /** n >> s */
  lemma {:induction false} ShiftRightDivides(n: nat, s: nat)
    ensures Bits(Quotient(n, Power2(s))) == ShiftRight(Bits(n), s)
  {
    hide Bits, ShiftRight, Power2, Quotient;
    QuotientHalves(n, s);
    if s == 0 {
      NoShift(Bits(n));
    } else {
      ShiftRightDivides(n / 2, s - 1);
      HalfBits(n);
      ShiftTwice(Bits(n), s - 1);
    }
  }

  /** The bits of 2 * n + 1 or 2 * n, from those of n. */
  function Doubled(half: Word, odd: bool): Word {
    (if odd then {0} else {}) + ShiftLeft(half, 1)
  }

  function Twice(n: nat, odd: bool): nat {
    2 * n + if odd then 1 else 0
  }

  lemma TwiceDoubles(n: nat, odd: bool)
    ensures Bits(Twice(n, odd)) == Doubled(Bits(n), odd)
  {
    BitsOfDouble(n, odd);
  }

  lemma BitsAreDoubled(n: nat)
    ensures Bits(n) == Doubled(Bits(n / 2), n % 2 == 1)
  {
    HalfBits(n);
  }

  lemma InDoubled(half: Word, odd: bool, k: nat)
    ensures k in Doubled(half, odd) <==> if k == 0 then odd else k - 1 in half
  {
    InShiftLeft(half, 1, k);
  }

  lemma MaskedDoubled(half: Word, odd: bool, width: nat)
    requires width > 0
    ensures Masked(Doubled(half, odd), width) == Doubled(Masked(half, width - 1), odd)
  {
    forall k: nat
      ensures k in Masked(Doubled(half, odd), width) <==> k in Doubled(Masked(half, width - 1), odd)
    {
      InDoubled(half, odd, k);
      InDoubled(Masked(half, width - 1), odd, k);
    }
  }

  lemma XorDoubled(a: Word, b: Word, oddA: bool, oddB: bool)
    ensures Xor(Doubled(a, oddA), Doubled(b, oddB)) == Doubled(Xor(a, b), oddA != oddB)
  {
    forall k: nat
      ensures k in Xor(Doubled(a, oddA), Doubled(b, oddB)) <==> k in Doubled(Xor(a, b), oddA != oddB)
    {
      InDoubled(a, oddA, k);
      InDoubled(b, oddB, k);
      InDoubled(Xor(a, b), oddA != oddB, k);
    }
  }

  function Remainder(n: nat, d: nat): nat
    requires d > 0
  {
    n % d
  }

  lemma RemainderHalves(n: nat, width: nat)
    requires width > 0
    ensures Remainder(n, Power2(width)) == Twice(Remainder(n / 2, Power2(width - 1)), n % 2 == 1)
  {
    DivideTwice(n, Power2(width - 1));
  }

  lemma NothingMasked(n: nat)
    ensures Bits(Remainder(n, Power2(0))) == Masked(Bits(n), 0)
  {
    assert n % 1 == 0;
    assert Masked(Bits(n), 0) == {};
  }

  /** n & ((1 << width) - 1) */
  lemma {:induction false} MaskIsRemainder(n: nat, width: nat)
    ensures Bits(Remainder(n, Power2(width))) == Masked(Bits(n), width)
  {
    if width == 0 {
      NothingMasked(n);
    } else {
      hide Bits, Masked, Doubled, Twice, Power2, Remainder;
      MaskIsRemainder(n / 2, width - 1);
      RemainderHalves(n, width);
      TwiceDoubles(Remainder(n / 2, Power2(width - 1)), n % 2 == 1);
      BitsAreDoubled(n);
      MaskedDoubled(Bits(n / 2), n % 2 == 1, width);
    }
  }

  /** The exclusive or of two integers, one binary digit at a time. */
  function XorOf(a: nat, b: nat): nat {
    if a == 0 && b == 0 then 0 else Twice(XorOf(a / 2, b / 2), a % 2 != b % 2)
  }

  lemma {:induction false} XorIsBitwise(a: nat, b: nat)
    ensures Bits(XorOf(a, b)) == Xor(Bits(a), Bits(b))
  {
    if a != 0 || b != 0 {
      XorIsBitwise(a / 2, b / 2);
      hide Bits, Xor, Doubled, Twice;
      TwiceDoubles(XorOf(a / 2, b / 2), a % 2 != b % 2);
      BitsAreDoubled(a);
      BitsAreDoubled(b);
      XorDoubled(Bits(a / 2), Bits(b / 2), a % 2 == 1, b % 2 == 1);
    }
  }

  // ---------------------------------------------------------------------------
  // The definition, and the folded form
  // ---------------------------------------------------------------------------

  /** The rotation of byte i. */
  function Shift(i: nat): (s: nat)
    ensures s < WIDTH
  {
    (i * STEP) % WIDTH
  }

  /** The definition, without the length: byte i is rotated left by 11 * i places and XORed in. */
  function Defined(data: seq<Byte>): Word {
    if data == [] then {}
    else
      var i := |data| - 1;
      Xor(Defined(data[..i]), Rotate(Bits(data[i]), Shift(i)))
  }

  /** The bytes of one column, data[i::160], XORed together. */
  function ColumnFrom(data: seq<Byte>, i: nat): Word
    decreases |data| - i
  {
    if i >= |data| then {} else Xor(Bits(data[i]), ColumnFrom(data, i + WIDTH))
  }

  /** The source's two-part expression (shifted & mask) | (shifted >> 160). */
  function TwoPart(column: Word, s: nat): Word {
    var shifted := ShiftLeft(column, s);
    Masked(shifted, WIDTH) + ShiftRight(shifted, WIDTH)
  }

  /** The first m columns, each rotated as its first byte is. */
  function Folded(data: seq<Byte>, m: nat): Word {
    if m == 0 then {} else Xor(Folded(data, m - 1), TwoPart(ColumnFrom(data, m - 1), Shift(m - 1)))
  }

  lemma PlaceOf(k: nat, s: nat)
    requires k < WIDTH && s < WIDTH
    ensures (k + s) % WIDTH == if k + s < WIDTH then k + s else k + s - WIDTH
  {
  }

  /** Bit x of a rotation is one of two bits of the word, depending on where it lies. */
  lemma InRotate(w: Word, s: nat, x: nat)
    requires Below(w, WIDTH) && s < WIDTH
    ensures x in Rotate(w, s) <==> if x >= s then x < WIDTH && x - s in w else x + WIDTH - s in w
  {
    if x in Rotate(w, s) {
      var k :| k in w && (k + s) % WIDTH == x;
      PlaceOf(k, s);
    }
    if s <= x < WIDTH && x - s in w {
      PlaceOf(x - s, s);
    }
    if x < s && x + WIDTH - s in w {
      PlaceOf(x + WIDTH - s, s);
    }
  }

  lemma InTwoPart(w: Word, s: nat, x: nat)
    requires Below(w, WIDTH) && s < WIDTH
    ensures x in TwoPart(w, s) <==> if x >= s then x < WIDTH && x - s in w else x + WIDTH - s in w
  {
    InShiftLeft(w, s, x);
    InShiftLeft(w, s, x + WIDTH);
    InShiftRight(ShiftLeft(w, s), WIDTH, x);
  }

  /** On a 160-bit word and a shift within it, the two-part expression is a true rotation. */
  lemma TwoPartRotates(w: Word, s: nat)
    requires Below(w, WIDTH) && s < WIDTH
    ensures TwoPart(w, s) == Rotate(w, s)
  {
    hide TwoPart, Rotate;
    forall x: nat
      ensures x in TwoPart(w, s) <==> x in Rotate(w, s)
    {
      InTwoPart(w, s, x);
      InRotate(w, s, x);
    }
  }

  lemma SamePlace(j: nat, k: nat, s: nat)
    requires j < WIDTH && k < WIDTH && (j + s) % WIDTH == (k + s) % WIDTH
    ensures j == k
  {
  }

  /** A bit of a survives the XOR with b exactly when b does not rotate a bit to the same place. */
  lemma RotatedFrom(a: Word, b: Word, s: nat, k: nat)
    requires Below(a, WIDTH) && Below(b, WIDTH) && k in a
    ensures (k + s) % WIDTH in Rotate(b, s) <==> k in b
    ensures (k + s) % WIDTH in Rotate(Xor(a, b), s) <==> k !in b
    ensures (k + s) % WIDTH in Rotate(Xor(b, a), s) <==> k !in b
  {
    if (k + s) % WIDTH in Rotate(b, s) {
      var j :| j in b && (j + s) % WIDTH == (k + s) % WIDTH;
      SamePlace(j, k, s);
    }
    if (k + s) % WIDTH in Rotate(Xor(a, b), s) {
      var j :| j in Xor(a, b) && (j + s) % WIDTH == (k + s) % WIDTH;
      SamePlace(j, k, s);
    }
    if (k + s) % WIDTH in Rotate(Xor(b, a), s) {
      var j :| j in Xor(b, a) && (j + s) % WIDTH == (k + s) % WIDTH;
      SamePlace(j, k, s);
    }
    if k !in b {
      assert k in Xor(a, b) && k in Xor(b, a);
    }
  }

  /** Rotation moves the bits of a word to different places, so it commutes with XOR. */
  lemma RotateXor(a: Word, b: Word, s: nat)
    requires Below(a, WIDTH) && Below(b, WIDTH)
    ensures Rotate(Xor(a, b), s) == Xor(Rotate(a, s), Rotate(b, s))
  {
    forall x: nat
      ensures x in Rotate(Xor(a, b), s) <==> x in Xor(Rotate(a, s), Rotate(b, s))
    {
      if x in Rotate(a, s) {
        var k :| k in a && (k + s) % WIDTH == x;
        RotatedFrom(a, b, s, k);
      }
      if x in Rotate(b, s) {
        var k :| k in b && (k + s) % WIDTH == x;
        RotatedFrom(b, a, s, k);
      }
    }
  }

  lemma {:induction false} AddMultiple(n: nat, times: nat)
    ensures (n + WIDTH * times) % WIDTH == n % WIDTH
    decreases times
  {
    if times > 0 {
      AddMultiple(n, times - 1);
      assert n + WIDTH * times == (n + WIDTH * (times - 1)) + WIDTH;
    }
  }

  /** Rotations repeat every 160 bytes. */
  lemma ShiftRepeats(i: nat)
    ensures Shift(i) == Shift(i % WIDTH)
  {
    var q, r := i / WIDTH, i % WIDTH;
    assert i * STEP == r * STEP + WIDTH * (q * STEP);
    AddMultiple(r * STEP, q * STEP);
  }

  lemma ByteBelow(b: Byte)
    ensures Below(Bits(b), 8)
  {
    BitsBelow(b, 8);
    assert Power2(8) == 256;
  }

  lemma {:induction false} ColumnBelow(data: seq<Byte>, i: nat)
    ensures Below(ColumnFrom(data, i), 8)
    decreases |data| - i
  {
    if i < |data| {
      ByteBelow(data[i]);
      ColumnBelow(data, i + WIDTH);
    }
  }

  // ---------------------------------------------------------------------------
  // One more byte
  // ---------------------------------------------------------------------------

  lemma XorAssociates(a: Word, b: Word, c: Word)
    ensures Xor(a, Xor(b, c)) == Xor(Xor(a, b), c)
  {
  }

  /** A byte appended joins the column of its position, and no other. */
  lemma {:induction false} ColumnAppend(data: seq<Byte>, b: Byte, i: nat)
    ensures ColumnFrom(data + [b], i) ==
            if i <= |data| && (|data| - i) % WIDTH == 0 then Xor(ColumnFrom(data, i), Bits(b)) else ColumnFrom(data, i)
    decreases |data| - i
  {
    if i < |data| {
      ColumnAppend(data, b, i + WIDTH);
      assert (data + [b])[i] == data[i];
      if i + WIDTH <= |data| {
        assert (|data| - i) % WIDTH == (|data| - (i + WIDTH)) % WIDTH;
      }
      XorAssociates(Bits(data[i]), ColumnFrom(data, i + WIDTH), Bits(b));
    } else if i == |data| {
      assert ColumnFrom(data + [b], i + WIDTH) == {};
    }
  }

  lemma XorSwaps(a: Word, b: Word, c: Word)
    ensures Xor(Xor(a, b), c) == Xor(Xor(a, c), b)
  {
  }

  lemma ColumnOf(n: nat, i: nat)
    requires i < WIDTH
    ensures (i <= n && (n - i) % WIDTH == 0) <==> n % WIDTH == i
  {
  }

  /** The byte's own column: its rotation is XORed into the fold. */
  lemma OwnColumn(fold: Word, column: Word, b: Byte, s: nat)
    requires Below(column, 8) && s < WIDTH
    ensures Xor(fold, TwoPart(Xor(column, Bits(b)), s)) == Xor(Xor(fold, TwoPart(column, s)), Rotate(Bits(b), s))
  {
    ByteBelow(b);
    TwoPartRotates(column, s);
    TwoPartRotates(Xor(column, Bits(b)), s);
    RotateXor(column, Bits(b), s);
    XorAssociates(fold, Rotate(column, s), Rotate(Bits(b), s));
  }

  /** Of all the columns, only j gained the byte. */
  ghost predicate Joined(was: seq<Byte>, now: seq<Byte>, b: Byte, j: nat) {
    forall i: nat :: i < WIDTH ==>
      ColumnFrom(now, i) == if i == j then Xor(ColumnFrom(was, i), Bits(b)) else ColumnFrom(was, i)
  }

  lemma AppendJoins(data: seq<Byte>, b: Byte)
    ensures Joined(data, data + [b], b, |data| % WIDTH)
  {
    forall i: nat | i < WIDTH
      ensures ColumnFrom(data + [b], i) ==
              if i == |data| % WIDTH then Xor(ColumnFrom(data, i), Bits(b)) else ColumnFrom(data, i)
    {
      ColumnAppend(data, b, i);
      ColumnOf(|data|, i);
    }
  }

  /** The fold of the first m columns changes by the byte's own rotation, once its column is folded. */
  lemma {:induction false} FoldJoined(was: seq<Byte>, now: seq<Byte>, b: Byte, j: nat, m: nat)
    requires m <= WIDTH && Joined(was, now, b, j)
    ensures Folded(now, m) == if j < m then Xor(Folded(was, m), Rotate(Bits(b), Shift(j))) else Folded(was, m)
  {
    if m > 0 {
      var i := m - 1;
      FoldJoined(was, now, b, j, i);
      assert ColumnFrom(now, i) == if i == j then Xor(ColumnFrom(was, i), Bits(b)) else ColumnFrom(was, i);
      hide Xor, Rotate, TwoPart, ColumnFrom, Bits, Joined, Shift;
      if j == i {
        ColumnBelow(was, i);
        OwnColumn(Folded(was, i), ColumnFrom(was, i), b, Shift(i));
      } else {
        XorSwaps(Folded(was, i), Rotate(Bits(b), Shift(j)), TwoPart(ColumnFrom(was, i), Shift(i)));
      }
    }
  }

  lemma {:induction false} EmptyFold(m: nat)
    ensures Folded([], m) == {}
  {
    if m > 0 {
      EmptyFold(m - 1);
    }
  }

  /** All the columns fold to the definition. */
  lemma {:induction false} FoldIsDefinition(data: seq<Byte>)
    ensures Folded(data, WIDTH) == Defined(data)
  {
    if data == [] {
      EmptyFold(WIDTH);
    } else {
      var i := |data| - 1;
      FoldIsDefinition(data[..i]);
      AppendJoins(data[..i], data[i]);
      FoldJoined(data[..i], data[..i] + [data[i]], data[i], i % WIDTH, WIDTH);
      ShiftRepeats(i);
      assert data[..i] + [data[i]] == data;
    }
  }

  /** Columns past the end of the data are empty, so the source's shorter loop loses nothing. */
  lemma {:induction false} ShortFold(data: seq<Byte>, m: nat)
    requires |data| <= m
    ensures Folded(data, m) == Folded(data, |data|)
    decreases m
  {
    if m > |data| {
      ShortFold(data, m - 1);
      assert ColumnFrom(data, m - 1) == {};
    }
  }

  // ---------------------------------------------------------------------------
  // The hash
  // ---------------------------------------------------------------------------

  /** The definition, with the length XORed into the last 64 bits. */
  function Hash(data: seq<Byte>): Word {
    Xor(Defined(data), ShiftLeft(Bits(|data|), LENGTH_SHIFT))
  }

  /** value.to_bytes(20, "little"), for a value that fits. */
  function ToBytes(value: Word): (bytes: seq<nat>)
    ensures |bytes| == HASH_BYTES
  {
    seq(HASH_BYTES, j requires 0 <= j < HASH_BYTES => IntOf(Masked(ShiftRight(value, 8 * j), 8), 8))
  }

  /** The inner reduce: every 160th byte from `index` on, XORed together. */
  method FoldColumn(data: seq<Byte>, index: nat) returns (column: Word)
    ensures column == ColumnFrom(data, index)
  {
    column := {};
    var i := index;
    while i < |data|
      invariant Xor(column, ColumnFrom(data, i)) == ColumnFrom(data, index)
      decreases |data| - i
    {
      XorAssociates(column, Bits(data[i]), ColumnFrom(data, i + WIDTH));
      column := Xor(column, Bits(data[i]));
      i := i + WIDTH;
    }
  }

  lemma {:induction false} PowerAdd(a: nat, b: nat)
    ensures Power2(a + b) == Power2(a) * Power2(b)
  {
    if a > 0 {
      PowerAdd(a - 1, b);
    }
  }

  lemma PowerDouble(k: nat, value: nat)
    requires Power2(k) == value
    ensures Power2(2 * k) == value * value
  {
    PowerAdd(k, k);
  }

  lemma LimitIsPower()
    ensures Power2(64) == LENGTH_LIMIT
  {
    assert Power2(4) == 16;
    PowerDouble(4, 0x10);
    PowerDouble(8, 0x100);
    PowerDouble(16, 0x1_0000);
    PowerDouble(32, 0x1_0000_0000);
  }

  lemma {:induction false} DefinedBelow(data: seq<Byte>)
    ensures Below(Defined(data), WIDTH)
  {
    if data != [] {
      DefinedBelow(data[..|data| - 1]);
    }
  }

  /** The word fits twenty bytes exactly when the length fits its 64 bits. */
  lemma FitsIffShort(data: seq<Byte>)
    ensures Below(Hash(data), WIDTH) <==> |data| < LENGTH_LIMIT
  {
    var length := Bits(|data|);
    DefinedBelow(data);
    BitsBelow(|data|, 64);
    LimitIsPower();
    hide Power2, Bits, Defined;
    if !Below(length, 64) {
      var k :| k in length && k >= 64;
      InShiftLeft(length, LENGTH_SHIFT, k + LENGTH_SHIFT);
      assert k + LENGTH_SHIFT in Hash(data);
    }
  }

  /**
   The hash of the source: twenty bytes holding the definition's word, for every length a 64-bit counter
   can hold. A longer input doesn't fit, and is refused exactly then.
   */
  method QuickXor(data: seq<Byte>) returns (bytes: Option<seq<nat>>)
    ensures bytes.Some? <==> |data| < LENGTH_LIMIT
    ensures bytes.Some? ==> bytes.value == ToBytes(Hash(data))
  {
    var value: Word := {};
    var columns := if |data| < WIDTH then |data| else WIDTH;
    for index := 0 to columns
      invariant value == Folded(data, index)
    {
      var column := FoldColumn(data, index);
      var shifted := ShiftLeft(column, (index * STEP) % WIDTH);
      value := Xor(value, Masked(shifted, WIDTH) + ShiftRight(shifted, WIDTH));
    }
    if |data| < WIDTH {
      ShortFold(data, WIDTH);
    }
    FoldIsDefinition(data);
    value := Xor(value, ShiftLeft(Bits(|data|), LENGTH_SHIFT));
    FitsIffShort(data);
    if exists k :: k in value && k >= 8 * HASH_BYTES {
      return None;
    }
    return Some(ToBytes(value));
  }

  lemma ByteOf(part: Word)
    requires Below(part, 8)
    ensures IntOf(part, 8) < 256 && Bits(IntOf(part, 8)) == part
  {
    IntOfBits(part, 8);
    assert Power2(8) == 256;
  }

  lemma PartHolds(value: Word, at: nat, k: nat)
    requires k < 8
    ensures k in Masked(ShiftRight(value, at), 8) <==> at + k in value
  {
    InShiftRight(value, at, k);
  }

  /** The twenty bytes are bytes, and hold every bit of the word at its little-endian place. */
  lemma BytesHoldWord(value: Word, j: nat, k: nat)
    requires Below(value, WIDTH) && j < HASH_BYTES && k < 8
    ensures ToBytes(value)[j] < 256
    ensures k in Bits(ToBytes(value)[j]) <==> 8 * j + k in value
  {
    var part := Masked(ShiftRight(value, 8 * j), 8);
    ByteOf(part);
    PartHolds(value, 8 * j, k);
    hide Bits, IntOf, ShiftRight, Masked, Below;
    assert ToBytes(value)[j] == IntOf(part, 8);
  }

  // ---------------------------------------------------------------------------
  // The hash, digit by digit
  // ---------------------------------------------------------------------------

  /** The digit of n worth 2^k is a one. */
  predicate Digit(n: nat, k: nat) {
    n / Power2(k) % 2 == 1
  }

  lemma LowestBit(n: nat)
    ensures 0 in Bits(n) <==> n % 2 == 1
  {
    BitsAreDoubled(n);
    InDoubled(Bits(n / 2), n % 2 == 1, 0);
  }

  lemma BitIsDigit(n: nat, k: nat)
    ensures k in Bits(n) <==> Digit(n, k)
  {
    ShiftRightDivides(n, k);
    InShiftRight(Bits(n), k, 0);
    LowestBit(Quotient(n, Power2(k)));
  }

  predicate LandsOn(i: nat, k: nat, x: nat) {
    (11 * i + k) % 160 == x
  }

  /** Byte i has a one that lands on bit x of the hash: its digit k lands on bit 11 * i + k, round 160. */
  ghost predicate Lands(b: Byte, i: nat, x: nat) {
    exists k: nat :: k < 8 && Digit(b, k) && LandsOn(i, k, x)
  }

  lemma PlaceIs(i: nat, k: nat)
    ensures (k + Shift(i)) % WIDTH == (11 * i + k) % 160
  {
    var n := i * STEP;
    AddMultiple(k + n % WIDTH, n / WIDTH);
    assert k + n % WIDTH + WIDTH * (n / WIDTH) == k + n;
  }

  lemma RotatedLands(b: Byte, i: nat, x: nat)
    ensures x in Rotate(Bits(b), Shift(i)) <==> Lands(b, i, x)
  {
    hide Shift, Digit, Bits;
    ByteBelow(b);
    if k: nat :| k in Bits(b) && (k + Shift(i)) % WIDTH == x {
      BitIsDigit(b, k);
      PlaceIs(i, k);
      assert LandsOn(i, k, x);
    }
    if k: nat :| k < 8 && Digit(b, k) && LandsOn(i, k, x) {
      BitIsDigit(b, k);
      PlaceIs(i, k);
    }
  }

  function One(b: bool): nat { if b then 1 else 0 }

  lemma XorIsParity(a: Word, b: Word, x: nat, ones: nat)
    requires x in a <==> ones % 2 == 1
    ensures x in Xor(a, b) <==> (ones + One(x in b)) % 2 == 1
  {
  }

  /** The ones of all bytes that land on bit x. */
  ghost function Ones(data: seq<Byte>, x: nat): nat {
    if data == [] then 0
    else
      var i := |data| - 1;
      Ones(data[..i], x) + One(Lands(data[i], i, x))
  }

  /** A bit of the definition is set exactly when an odd number of ones lands on it. */
  lemma {:induction false} DefinedIsParity(data: seq<Byte>, x: nat)
    ensures x in Defined(data) <==> Ones(data, x) % 2 == 1
  {
    if data != [] {
      var i := |data| - 1;
      DefinedIsParity(data[..i], x);
      RotatedLands(data[i], i, x);
      hide Rotate, Lands, Shift, Bits, Xor, One;
      XorIsParity(Defined(data[..i]), Rotate(Bits(data[i]), Shift(i)), x, Ones(data[..i], x));
    }
  }

  /** The ones that land on bit x, and one more where the length, 96 bits up, has a one. */
  ghost function AllOnes(data: seq<Byte>, x: nat): nat {
    Ones(data, x) + One(x >= 96 && Digit(|data|, x - 96))
  }

  lemma HashIsParity(data: seq<Byte>, x: nat)
    ensures x in Hash(data) <==> AllOnes(data, x) % 2 == 1
  {
    DefinedIsParity(data, x);
    InShiftLeft(Bits(|data|), LENGTH_SHIFT, x);
    if x >= 96 {
      BitIsDigit(|data|, x - 96);
    }
    hide Defined, Bits, ShiftLeft, Digit, Ones, Xor, One;
    XorIsParity(Defined(data), ShiftLeft(Bits(|data|), LENGTH_SHIFT), x, Ones(data, x));
  }

  /** So digit k of byte j of the hash is a one exactly when an odd number of ones lands on bit 8 * j + k. */
  lemma HashDigits(data: seq<Byte>, j: nat, k: nat)
    requires |data| < LENGTH_LIMIT && j < 20 && k < 8
    ensures ToBytes(Hash(data))[j] < 256
    ensures Digit(ToBytes(Hash(data))[j], k) <==> AllOnes(data, 8 * j + k) % 2 == 1
  {
    FitsIffShort(data);
    hide Hash, ToBytes, AllOnes, Digit, Bits;
    BytesHoldWord(Hash(data), j, k);
    BitIsDigit(ToBytes(Hash(data))[j], k);
    HashIsParity(data, 8 * j + k);
  }
}
