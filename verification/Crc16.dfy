/** CRC16-CCITT (polynomial 0x1021, zero seed), as used by the serial protocol and the EEPROM factory page. */
module Crc16 {

  function Xor(a: bv16, b: bv16): bv16 {
    a ^ b
  }

  predicate Top(a: bv16) {
    a & 0x8000 != 0
  }

  function Left(a: bv16): bv16 {
    a << 1
  }

  /** One step of the bit loop. */
  function BitStep(crc: bv16): bv16 {
    if Top(crc) then Xor(Left(crc), 0x1021) else Left(crc)
  }

  function Shifted(crc: bv16, bits: nat): bv16 {
    if bits == 0 then crc else BitStep(Shifted(crc, bits - 1))
  }

  function High(b: bv8): bv16 {
    (b as bv16) << 8
  }

  function ByteStep(crc: bv16, b: bv8): bv16 {
    Shifted(Xor(crc, High(b)), 8)
  }

  function Crc(data: seq<bv8>): bv16 {
    if data == [] then 0 else ByteStep(Crc(data[..|data| - 1]), data[|data| - 1])
  }

  method ComputeCrc(data: seq<bv8>) returns (crc: bv16)
    ensures crc == Crc(data)
  {
    hide Xor, High, Top, Left;
    crc := 0;
    var i := 0;
    while i < |data|
      invariant 0 <= i <= |data| && crc == Crc(data[..i])
    {
      ghost var before := crc;
      crc := Xor(crc, High(data[i]));
      var bit := 0;
      while bit < 8
        invariant 0 <= bit <= 8 && crc == Shifted(Xor(before, High(data[i])), bit)
      {
        crc := if Top(crc) then Xor(Left(crc), 0x1021) else Left(crc);
        bit := bit + 1;
      }
      assert data[..i + 1][..i] == data[..i];
      i := i + 1;
    }
    assert data[..i] == data;
  }

  /* ----- Linearity ----- */

  function Xored(a: seq<bv8>, b: seq<bv8>): (x: seq<bv8>)
    requires |a| == |b|
    ensures |x| == |a| && forall i | 0 <= i < |x| :: x[i] == a[i] ^ b[i]
  {
    seq(|a|, i requires 0 <= i < |a| => a[i] ^ b[i])
  }

  lemma LeftOfXor(a: bv16, b: bv16)
    ensures Left(Xor(a, b)) == Xor(Left(a), Left(b))
  {
  }

  lemma TopOfXor(a: bv16, b: bv16)
    ensures Top(Xor(a, b)) <==> Top(a) != Top(b)
  {
  }

  lemma XorMoves(x: bv16, y: bv16, p: bv16)
    ensures Xor(Xor(x, p), y) == Xor(Xor(x, y), p)
    ensures Xor(x, Xor(y, p)) == Xor(Xor(x, y), p)
    ensures Xor(Xor(x, p), Xor(y, p)) == Xor(x, y)
  {
  }

  lemma BitStepLinear(a: bv16, b: bv16)
    ensures BitStep(Xor(a, b)) == Xor(BitStep(a), BitStep(b))
  {
    hide Xor, Left, Top;
    LeftOfXor(a, b);
    TopOfXor(a, b);
    XorMoves(Left(a), Left(b), 0x1021);
  }

  lemma {:induction false} ShiftedLinear(a: bv16, b: bv16, bits: nat)
    ensures Shifted(Xor(a, b), bits) == Xor(Shifted(a, bits), Shifted(b, bits))
  {
    hide BitStep, Xor;
    if bits > 0 {
      ShiftedLinear(a, b, bits - 1);
      BitStepLinear(Shifted(a, bits - 1), Shifted(b, bits - 1));
    }
  }

  lemma HighOfXor(x: bv8, y: bv8)
    ensures High(x ^ y) == Xor(High(x), High(y))
  {
  }

  lemma XorSwaps(a: bv16, b: bv16, c: bv16, d: bv16)
    ensures Xor(Xor(a, b), Xor(c, d)) == Xor(Xor(a, c), Xor(b, d))
  {
    hide Xor;
    XorMoves(a, Xor(c, d), b);
    XorMoves(a, c, d);
    XorMoves(Xor(a, c), b, d);
    XorMoves(Xor(a, c), d, b);
  }

  lemma Regroup(a: bv16, b: bv16, x: bv8, y: bv8)
    ensures Xor(Xor(a, b), High(x ^ y)) == Xor(Xor(a, High(x)), Xor(b, High(y)))
  {
    hide Xor, High;
    HighOfXor(x, y);
    XorSwaps(a, b, High(x), High(y));
  }

  /** The CRC is linear over exclusive-or of messages of equal length. */
  lemma {:induction false} CrcLinear(a: seq<bv8>, b: seq<bv8>)
    requires |a| == |b|
    ensures Crc(Xored(a, b)) == Xor(Crc(a), Crc(b))
  {
    hide Shifted, High, Xor;
    if a == [] {
      XorOfZeros();
    } else {
      var n := |a| - 1;
      CrcLinear(a[..n], b[..n]);
      assert Xored(a, b)[..n] == Xored(a[..n], b[..n]);
      Regroup(Crc(a[..n]), Crc(b[..n]), a[n], b[n]);
      ShiftedLinear(Xor(Crc(a[..n]), High(a[n])), Xor(Crc(b[..n]), High(b[n])), 8);
    }
  }

  lemma XorOfZeros()
    ensures Xor(0, 0) == 0
  {
  }

  /* ----- Error detection ----- */

  lemma BitStepInjective(a: bv16)
    ensures BitStep(a) == 0 <==> a == 0
  {
  }

  lemma {:induction false} ShiftedInjective(a: bv16, bits: nat)
    ensures Shifted(a, bits) == 0 <==> a == 0
  {
    hide BitStep;
    if bits > 0 {
      ShiftedInjective(a, bits - 1);
      BitStepInjective(Shifted(a, bits - 1));
    }
  }

  lemma XorWithZero(a: bv16)
    ensures Xor(a, High(0)) == a && Xor(0, a) == a && Xor(a, a) == 0
  {
  }

  lemma ZeroByte(a: bv16)
    ensures ByteStep(a, 0) == Shifted(a, 8)
  {
    hide Shifted, Xor, High;
    XorWithZero(a);
  }

  /** A low byte is shifted out unchanged into the high byte. */
  lemma LowByteShifts(b: bv8)
    ensures Shifted(b as bv16, 8) == High(b)
  {
    hide BitStep;
    var a := b as bv16;
    NoCarry(a);
    assert Shifted(a, 0) == a;
    assert Shifted(a, 1) == a << 1;
    assert Shifted(a, 2) == a << 2;
    assert Shifted(a, 3) == a << 3;
    assert Shifted(a, 4) == a << 4;
    assert Shifted(a, 5) == a << 5;
    assert Shifted(a, 6) == a << 6;
    assert Shifted(a, 7) == a << 7;
  }

  lemma NoCarry(a: bv16)
    requires a <= 0xff
    ensures BitStep(a) == a << 1 && BitStep(a << 1) == a << 2 && BitStep(a << 2) == a << 3
    ensures BitStep(a << 3) == a << 4 && BitStep(a << 4) == a << 5 && BitStep(a << 5) == a << 6
    ensures BitStep(a << 6) == a << 7 && BitStep(a << 7) == a << 8
  {
  }

  /** Two bytes are two shifts of the 16-bit word they form. */
  lemma TwoBytes(x: bv8, y: bv8)
    ensures ByteStep(ByteStep(0, x), y) == Shifted(Shifted(Xor(High(x), y as bv16), 8), 8)
  {
    hide Shifted, Xor, High;
    XorWithZero(High(x));
    ShiftedLinear(High(x), y as bv16, 8);
    LowByteShifts(y);
  }

  lemma WordIsZero(x: bv8, y: bv8)
    ensures Xor(High(x), y as bv16) == 0 <==> x == 0 && y == 0
  {
  }

  /** An error confined to the bytes k and k + 1. */
  predicate Burst(error: seq<bv8>, k: nat) {
    forall i | 0 <= i < |error| && i != k && i != k + 1 :: error[i] == 0
  }

  lemma {:induction false} ZerosBefore(error: seq<bv8>)
    requires forall i | 0 <= i < |error| :: error[i] == 0
    ensures Crc(error) == 0
  {
    hide Shifted, High, Xor;
    if error != [] {
      var n := |error| - 1;
      ZerosBefore(error[..n]);
      ZeroByte(0);
      ShiftedInjective(0, 8);
    }
  }

  lemma {:induction false} BurstIsSeen(error: seq<bv8>, k: nat)
    requires Burst(error, k) && k + 1 < |error| && (error[k] != 0 || error[k + 1] != 0)
    ensures Crc(error) != 0
  {
    hide Shifted, High, ByteStep, Xor;
    var n := |error| - 1;
    if n == k + 1 {
      var front := error[..k];
      assert error[..n] == front + [error[k]] && (front + [error[k]])[..k] == front;
      ZerosBefore(front);
      TwoBytes(error[k], error[n]);
      WordIsZero(error[k], error[n]);
      ShiftedInjective(Xor(High(error[k]), error[n] as bv16), 8);
      ShiftedInjective(Shifted(Xor(High(error[k]), error[n] as bv16), 8), 8);
    } else {
      BurstIsSeen(error[..n], k);
      ZeroByte(Crc(error[..n]));
      ShiftedInjective(Crc(error[..n]), 8);
    }
  }

  /** Messages of equal length that differ, and differ only within two adjacent bytes, have different CRCs. */
  lemma AdjacentErrorsAreDetected(a: seq<bv8>, b: seq<bv8>, k: nat)
    requires |a| == |b| && k + 1 < |a| && a != b
    requires forall i | 0 <= i < |a| && i != k && i != k + 1 :: a[i] == b[i]
    ensures Crc(a) != Crc(b)
  {
    hide ByteStep, Xor;
    var error := Xored(a, b);
    forall i | 0 <= i < |a|
      ensures error[i] == 0 <==> a[i] == b[i]
    {
      XorIsZero(a[i], b[i]);
    }
    BurstIsSeen(error, k);
    CrcLinear(a, b);
    SameWords(Crc(a), Crc(b));
  }

  lemma XorIsZero(x: bv8, y: bv8)
    ensures x ^ y == 0 <==> x == y
  {
  }

  lemma XorTwice(x: bv16, y: bv16)
    ensures Xor(Xor(x, y), y) == x
  {
  }

  lemma SameWords(x: bv16, y: bv16)
    ensures Xor(x, y) == 0 <==> x == y
  {
    hide Xor, High;
    XorTwice(x, y);
    XorWithZero(y);
  }

  /** Changing one byte always changes the CRC. */
  lemma OneByteErrorIsDetected(a: seq<bv8>, k: nat, b: bv8)
    requires k < |a| && a[k] != b
    ensures Crc(a[k := b]) != Crc(a)
  {
    hide ByteStep;
    if |a| == 1 {
      assert [0 as bv8] + a != [0 as bv8] + a[k := b] by {
        assert ([0 as bv8] + a)[1] != ([0 as bv8] + a[k := b])[1];
      }
      LeadingZero(a[0]);
      LeadingZero(b);
      assert a == [a[0]] && a[k := b] == [b];
      AdjacentErrorsAreDetected([0, a[0]], [0, b], 0);
    } else {
      var start := if k == 0 then 0 else k - 1;
      assert a[k := b][k] != a[k];
      AdjacentErrorsAreDetected(a[k := b], a, start);
    }
  }

  lemma LeadingZero(b: bv8)
    ensures Crc([0, b]) == Crc([b])
  {
    assert [0, b][..1] == [0] && [0][..0] == [] && [b][..0] == [];
    ZerosBefore([0 as bv8]);
  }

  /* ----- Residue ----- */

  function HighByte(crc: bv16): bv8 {
    (crc >> 8) as bv8
  }

  function LowByte(crc: bv16): bv8 {
    (crc & 0xff) as bv8
  }

  lemma HighCancels(crc: bv16)
    ensures Xor(crc, High(HighByte(crc))) == LowByte(crc) as bv16
  {
  }

  /** Appending the CRC, high byte first, makes the CRC zero. */
  lemma AppendedCrcCancels(data: seq<bv8>)
    ensures Crc(data + [HighByte(Crc(data)), LowByte(Crc(data))]) == 0
  {
    hide Shifted, High, Xor, HighByte, LowByte;
    var crc := Crc(data);
    var high, low := HighByte(crc), LowByte(crc);
    var all := data + [high, low];
    assert all[..|data| + 1] == data + [high] && (data + [high])[..|data|] == data;
    HighCancels(crc);
    LowByteShifts(low);
    assert Crc(data + [high]) == High(low);
    XorWithZero(High(low));
    ShiftedInjective(0, 8);
  }

  /* ----- The CRC as a remainder ----- */

  /** The bits of a byte, most significant first. */
  function ByteBits(b: bv8): (bits: seq<bool>)
    ensures |bits| == 8
  {
    [b & 0x80 != 0, b & 0x40 != 0, b & 0x20 != 0, b & 0x10 != 0,
     b & 0x08 != 0, b & 0x04 != 0, b & 0x02 != 0, b & 0x01 != 0]
  }

  function LeftBy(w: bv16, n: nat): bv16 {
    if n == 0 then w else Left(LeftBy(w, n - 1))
  }

  /** The bits of a word, most significant first: what comes to its top as it is shifted out. */
  function WordBits(w: bv16): (bits: seq<bool>)
    ensures |bits| == 16 && forall i | 0 <= i < 16 :: bits[i] == Top(LeftBy(w, i))
  {
    seq(16, i requires 0 <= i < 16 => Top(LeftBy(w, i)))
  }

  function MessageBits(data: seq<bv8>): seq<bool> {
    if data == [] then [] else MessageBits(data[..|data| - 1]) + ByteBits(data[|data| - 1])
  }

  /** Bits as a polynomial over the two-element field, highest power first: the coefficient of x^k. */
  function Coefficient(p: seq<bool>, k: int): bool {
    0 <= k < |p| && p[|p| - 1 - k]
  }

  /** Power by power: message * x^16 == quotient * (x^16 + x^12 + x^5 + 1) + remainder. */
  ghost predicate Divides(message: seq<bool>, quotient: seq<bool>, remainder: seq<bool>) {
    forall k: nat :: DividesAt(message, quotient, remainder, k)
  }

  predicate DividesAt(message: seq<bool>, quotient: seq<bool>, remainder: seq<bool>, k: nat) {
    var multiple := (Coefficient(quotient, k - 16) != Coefficient(quotient, k - 12))
                    != (Coefficient(quotient, k - 5) != Coefficient(quotient, k));
    Coefficient(message, k - 16) == (multiple != Coefficient(remainder, k))
  }

  /** The CRC register after one message bit. */
  function SerialStep(crc: bv16, bit: bool): bv16 {
    if Top(crc) != bit then Xor(Left(crc), 0x1021) else Left(crc)
  }

  function Serial(crc: bv16, bits: seq<bool>): bv16 {
    if bits == [] then crc else SerialStep(Serial(crc, bits[..|bits| - 1]), bits[|bits| - 1])
  }

  lemma CoefficientOfMore(p: seq<bool>, bit: bool, k: int)
    ensures Coefficient(p + [bit], k) == if k == 0 then bit else Coefficient(p, k - 1)
  {
  }

  lemma ShiftsAdd(w: bv16)
    ensures Left(w) == w << 1 && Left(w << 1) == w << 2 && Left(w << 2) == w << 3 && Left(w << 3) == w << 4
    ensures Left(w << 4) == w << 5 && Left(w << 5) == w << 6 && Left(w << 6) == w << 7 && Left(w << 7) == w << 8
    ensures Left(w << 8) == w << 9 && Left(w << 9) == w << 10 && Left(w << 10) == w << 11
    ensures Left(w << 11) == w << 12 && Left(w << 12) == w << 13 && Left(w << 13) == w << 14
    ensures Left(w << 14) == w << 15 && Left(w << 15) == 0
  {
  }

  /** A word of 16 bits is shifted out after 16 places. */
  lemma ShiftedOut(w: bv16)
    ensures LeftBy(w, 0) == w && LeftBy(w, 1) == w << 1 && LeftBy(w, 2) == w << 2 && LeftBy(w, 3) == w << 3
    ensures LeftBy(w, 4) == w << 4 && LeftBy(w, 5) == w << 5 && LeftBy(w, 6) == w << 6 && LeftBy(w, 7) == w << 7
    ensures LeftBy(w, 8) == w << 8 && LeftBy(w, 16) == 0
  {
    hide Left;
    ShiftsAdd(w);
    assert LeftBy(w, 0) == w;
    assert LeftBy(w, 1) == w << 1;
    assert LeftBy(w, 2) == w << 2;
    assert LeftBy(w, 3) == w << 3;
    assert LeftBy(w, 4) == w << 4;
    assert LeftBy(w, 5) == w << 5;
    assert LeftBy(w, 6) == w << 6;
    assert LeftBy(w, 7) == w << 7;
    assert LeftBy(w, 8) == w << 8;
    assert LeftBy(w, 9) == w << 9;
    assert LeftBy(w, 10) == w << 10;
    assert LeftBy(w, 11) == w << 11;
    assert LeftBy(w, 12) == w << 12;
    assert LeftBy(w, 13) == w << 13;
    assert LeftBy(w, 14) == w << 14;
    assert LeftBy(w, 15) == w << 15;
  }

  lemma {:induction false} LeftByAfterLeft(w: bv16, n: nat)
    ensures LeftBy(Left(w), n) == LeftBy(w, n + 1)
  {
    hide Left;
    if n > 0 {
      LeftByAfterLeft(w, n - 1);
    } else {
      assert LeftBy(w, 0) == w;
    }
  }

  /** Shifting moves every bit up one place. */
  lemma LeftBits(w: bv16, i: nat)
    requires i < 16
    ensures WordBits(Left(w))[i] == (i < 15 && WordBits(w)[i + 1])
  {
    hide Left, Top, LeftBy;
    LeftByAfterLeft(w, i);
    if i == 15 {
      ShiftedOut(w);
      NoTopOfZero();
    }
  }

  lemma NoTopOfZero()
    ensures !Top(0)
  {
  }

  lemma {:induction false} LeftByOfXor(a: bv16, b: bv16, n: nat)
    ensures LeftBy(Xor(a, b), n) == Xor(LeftBy(a, n), LeftBy(b, n))
  {
    hide Xor, Left;
    if n > 0 {
      LeftByOfXor(a, b, n - 1);
      LeftOfXor(LeftBy(a, n - 1), LeftBy(b, n - 1));
    }
  }

  lemma XorBits(a: bv16, b: bv16, i: nat)
    requires i < 16
    ensures WordBits(Xor(a, b))[i] == (WordBits(a)[i] != WordBits(b)[i])
  {
    hide Xor, Left, Top;
    LeftByOfXor(a, b, i);
    TopOfXor(LeftBy(a, i), LeftBy(b, i));
  }

  lemma GeneratorShifts()
    ensures Left(0x1021) == 0x2042 && Left(0x2042) == 0x4084 && Left(0x4084) == 0x8108
    ensures Left(0x8108) == 0x0210 && Left(0x0210) == 0x0420 && Left(0x0420) == 0x0840
    ensures Left(0x0840) == 0x1080 && Left(0x1080) == 0x2100 && Left(0x2100) == 0x4200
    ensures Left(0x4200) == 0x8400 && Left(0x8400) == 0x0800 && Left(0x0800) == 0x1000
    ensures Left(0x1000) == 0x2000 && Left(0x2000) == 0x4000 && Left(0x4000) == 0x8000
  {
  }

  lemma GeneratorTops()
    ensures !Top(0x1021) && !Top(0x2042) && !Top(0x4084) && Top(0x8108)
    ensures !Top(0x0210) && !Top(0x0420) && !Top(0x0840) && !Top(0x1080)
    ensures !Top(0x2100) && !Top(0x4200) && Top(0x8400) && !Top(0x0800)
    ensures !Top(0x1000) && !Top(0x2000) && !Top(0x4000) && Top(0x8000)
  {
  }

  lemma GeneratorShifted()
    ensures LeftBy(0x1021, 0) == 0x1021 && LeftBy(0x1021, 1) == 0x2042
    ensures LeftBy(0x1021, 2) == 0x4084 && LeftBy(0x1021, 3) == 0x8108
    ensures LeftBy(0x1021, 4) == 0x0210 && LeftBy(0x1021, 5) == 0x0420
    ensures LeftBy(0x1021, 6) == 0x0840 && LeftBy(0x1021, 7) == 0x1080
    ensures LeftBy(0x1021, 8) == 0x2100 && LeftBy(0x1021, 9) == 0x4200
    ensures LeftBy(0x1021, 10) == 0x8400 && LeftBy(0x1021, 11) == 0x0800
    ensures LeftBy(0x1021, 12) == 0x1000 && LeftBy(0x1021, 13) == 0x2000
    ensures LeftBy(0x1021, 14) == 0x4000 && LeftBy(0x1021, 15) == 0x8000
  {
    hide Left;
    GeneratorShifts();
    assert LeftBy(0x1021, 0) == 0x1021;
    assert LeftBy(0x1021, 1) == 0x2042;
    assert LeftBy(0x1021, 2) == 0x4084;
    assert LeftBy(0x1021, 3) == 0x8108;
    assert LeftBy(0x1021, 4) == 0x0210;
    assert LeftBy(0x1021, 5) == 0x0420;
    assert LeftBy(0x1021, 6) == 0x0840;
    assert LeftBy(0x1021, 7) == 0x1080;
    assert LeftBy(0x1021, 8) == 0x2100;
    assert LeftBy(0x1021, 9) == 0x4200;
    assert LeftBy(0x1021, 10) == 0x8400;
    assert LeftBy(0x1021, 11) == 0x0800;
    assert LeftBy(0x1021, 12) == 0x1000;
    assert LeftBy(0x1021, 13) == 0x2000;
    assert LeftBy(0x1021, 14) == 0x4000;
    assert LeftBy(0x1021, 15) == 0x8000;
  }

  /** The low bits of the generator: x^12, x^5 and 1. */
  lemma GeneratorBits(i: nat)
    requires i < 16
    ensures WordBits(0x1021)[i] == (i == 3 || i == 10 || i == 15)
  {
    hide LeftBy, Left, Top;
    GeneratorShifted();
    GeneratorTops();
  }

  /** What a step makes of the bits of the register. */
  lemma StepBits(crc: bv16, bit: bool, k: nat)
    ensures var carry := Top(crc) != bit;
            Coefficient(WordBits(SerialStep(crc, bit)), k)
            == if k >= 16 then false
               else Coefficient(WordBits(crc), k - 1) != (carry && (k == 0 || k == 5 || k == 12))
    ensures Coefficient(WordBits(crc), 15) == Top(crc)
  {
    hide WordBits, Xor, Left, Top;
    TopBit(crc);
    if k < 16 {
      LeftBits(crc, 15 - k);
      XorBits(Left(crc), 0x1021, 15 - k);
      GeneratorBits(15 - k);
    }
  }

  lemma TopBit(crc: bv16)
    ensures WordBits(crc)[0] == Top(crc)
  {
  }

  lemma OneMoreBit(message: seq<bool>, quotient: seq<bool>, crc: bv16, bit: bool)
    requires Divides(message, quotient, WordBits(crc))
    ensures Divides(message + [bit], quotient + [Top(crc) != bit], WordBits(SerialStep(crc, bit)))
  {
    hide WordBits, SerialStep, Coefficient, Top;
    var carry := Top(crc) != bit;
    forall k: nat
      ensures DividesAt(message + [bit], quotient + [carry], WordBits(SerialStep(crc, bit)), k)
    {
      CoefficientOfMore(message, bit, k - 16);
      CoefficientOfMore(quotient, carry, k - 16);
      CoefficientOfMore(quotient, carry, k - 12);
      CoefficientOfMore(quotient, carry, k - 5);
      CoefficientOfMore(quotient, carry, k);
      StepBits(crc, bit, k);
      NegativePowers(message);
      NegativePowers(quotient);
      NegativePowers(WordBits(crc));
      if k > 0 { assert DividesAt(message, quotient, WordBits(crc), k - 1); }
      if k > 16 { PastTheWord(crc, k - 1); }
    }
  }

  lemma NegativePowers(p: seq<bool>)
    ensures forall k | k < 0 :: !Coefficient(p, k)
  {
  }

  lemma PastTheWord(crc: bv16, k: nat)
    ensures k >= 16 ==> !Coefficient(WordBits(crc), k)
  {
  }

  lemma {:induction false} MoreBits(message: seq<bool>, quotient: seq<bool>, crc: bv16, bits: seq<bool>)
    returns (more: seq<bool>)
    requires Divides(message, quotient, WordBits(crc))
    ensures Divides(message + bits, more, WordBits(Serial(crc, bits)))
  {
    hide Divides, WordBits, SerialStep, Top;
    more := quotient;
    if bits == [] {
      assert message + bits == message;
    } else {
      var front, last := bits[..|bits| - 1], bits[|bits| - 1];
      more := MoreBits(message, quotient, crc, front);
      OneMoreBit(message + front, more, Serial(crc, front), last);
      assert message + front + [last] == message + bits;
      more := more + [Top(Serial(crc, front)) != last];
    }
  }

  lemma SerialIsShifted(crc: bv16, w: bv16)
    ensures BitStep(Xor(crc, w)) == Xor(SerialStep(crc, Top(w)), Left(w))
  {
    hide Xor, Left, Top;
    LeftOfXor(crc, w);
    TopOfXor(crc, w);
    XorMoves(Left(crc), Left(w), 0x1021);
  }

  /** The bits of a byte, and then nothing, come to the top as the byte is shifted out of a word. */
  lemma ByteOnTop(b: bv8, i: nat)
    requires i < 8
    ensures Top(LeftBy(High(b), i)) == ByteBits(b)[i]
    ensures LeftBy(High(b), 8) == 0
  {
    hide Top, High, Left, LeftBy, ByteBits;
    ShiftedOut(High(b));
    ByteShifts(b);
    FirstBits(b);
    LastBits(b);
  }

  lemma ByteShifts(b: bv8)
    ensures Top(High(b)) == (b & 0x80 != 0) && Top(High(b) << 1) == (b & 0x40 != 0)
    ensures Top(High(b) << 2) == (b & 0x20 != 0) && Top(High(b) << 3) == (b & 0x10 != 0)
    ensures Top(High(b) << 4) == (b & 0x08 != 0) && Top(High(b) << 5) == (b & 0x04 != 0)
    ensures Top(High(b) << 6) == (b & 0x02 != 0) && Top(High(b) << 7) == (b & 0x01 != 0)
    ensures High(b) << 8 == 0
  {
  }

  lemma FirstBits(b: bv8)
    ensures ByteBits(b)[0] == Top(High(b)) && ByteBits(b)[1] == Top(High(b) << 1)
    ensures ByteBits(b)[2] == Top(High(b) << 2) && ByteBits(b)[3] == Top(High(b) << 3)
  {
    hide Top, High;
    ByteShifts(b);
  }

  lemma LastBits(b: bv8)
    ensures ByteBits(b)[4] == Top(High(b) << 4) && ByteBits(b)[5] == Top(High(b) << 5)
    ensures ByteBits(b)[6] == Top(High(b) << 6) && ByteBits(b)[7] == Top(High(b) << 7)
  {
    hide Top, High;
    ByteShifts(b);
  }

  lemma {:induction false} SerialByte(crc: bv16, b: bv8, n: nat)
    requires n <= 8
    ensures Shifted(Xor(crc, High(b)), n) == Xor(Serial(crc, ByteBits(b)[..n]), LeftBy(High(b), n))
  {
    hide Xor, High, BitStep, Left, Top, ByteBits, SerialStep;
    if n > 0 {
      var bits := ByteBits(b)[..n];
      SerialByte(crc, b, n - 1);
      assert bits[..n - 1] == ByteBits(b)[..n - 1];
      ByteOnTop(b, n - 1);
      SerialIsShifted(Serial(crc, ByteBits(b)[..n - 1]), LeftBy(High(b), n - 1));
    }
  }

  /** The CRC is the remainder of the message, times x^16, divided by x^16 + x^12 + x^5 + 1. */
  lemma {:induction false} CrcIsARemainder(data: seq<bv8>) returns (quotient: seq<bool>)
    ensures Divides(MessageBits(data), quotient, WordBits(Crc(data)))
  {
    hide Divides, WordBits, Xor, High, Shifted, Serial, ByteBits, LeftBy;
    if data == [] {
      quotient := [];
      NothingDivides();
    } else {
      var front, last := data[..|data| - 1], data[|data| - 1];
      quotient := CrcIsARemainder(front);
      quotient := MoreBits(MessageBits(front), quotient, Crc(front), ByteBits(last));
      SerialByte(Crc(front), last, 8);
      ByteOnTop(last, 0);
      assert ByteBits(last)[..8] == ByteBits(last);
      XorWithNothing(Serial(Crc(front), ByteBits(last)));
    }
  }

  lemma XorWithNothing(w: bv16)
    ensures Xor(w, 0) == w
  {
  }

  lemma NothingDivides()
    ensures Divides([], [], WordBits(0))
  {
    forall k: nat ensures DividesAt([], [], WordBits(0), k) {
      NoBits(k);
    }
  }

  lemma NoBits(k: nat)
    ensures !Coefficient(WordBits(0), k)
  {
    hide Left;
    forall i: nat ensures LeftBy(0, i) == 0 { ZeroShifted(i); }
    NoTopOfZero();
  }

  lemma {:induction false} ZeroShifted(i: nat)
    ensures LeftBy(0, i) == 0
  {
    if i > 0 { ZeroShifted(i - 1); }
  }

  /** And it is the only one of 16 bits. */
  lemma CrcIsTheRemainder(data: seq<bv8>, quotient: seq<bool>, remainder: seq<bool>)
    requires |remainder| == 16 && Divides(MessageBits(data), quotient, remainder)
    ensures remainder == WordBits(Crc(data))
  {
    hide Crc, WordBits, MessageBits, Divides;
    var q := CrcIsARemainder(data);
    RemainderIsUnique(MessageBits(data), quotient, remainder, q, WordBits(Crc(data)));
  }

  lemma RemainderIsUnique(message: seq<bool>, q1: seq<bool>, r1: seq<bool>, q2: seq<bool>, r2: seq<bool>)
    requires |r1| == |r2| == 16 && Divides(message, q1, r1) && Divides(message, q2, r2)
    ensures r1 == r2
  {
    hide Coefficient;
    forall k: int ensures Coefficient(q1, k) == Coefficient(q2, k) {
      SameQuotient(message, q1, r1, q2, r2, k);
    }
    forall i | 0 <= i < 16 ensures r1[i] == r2[i] {
      assert DividesAt(message, q1, r1, 15 - i) && DividesAt(message, q2, r2, 15 - i);
      CoefficientAt(r1, i);
      CoefficientAt(r2, i);
    }
  }

  lemma CoefficientAt(p: seq<bool>, i: nat)
    requires i < |p|
    ensures Coefficient(p, |p| - 1 - i) == p[i]
  {
  }

  lemma HighPowers(p: seq<bool>, k: int)
    ensures k < 0 || k >= |p| ==> !Coefficient(p, k)
  {
  }

  /** Quotients agree from the highest power down: above the remainder, power k + 16 fixes the coefficient of x^k. */
  lemma {:induction false} SameQuotient(message: seq<bool>, q1: seq<bool>, r1: seq<bool>, q2: seq<bool>, r2: seq<bool>,
                                        k: int)
    requires |r1| == |r2| == 16 && Divides(message, q1, r1) && Divides(message, q2, r2)
    ensures Coefficient(q1, k) == Coefficient(q2, k)
    decreases |q1| + |q2| - k
  {
    hide Coefficient;
    HighPowers(q1, k);
    HighPowers(q2, k);
    if 0 <= k < |q1| + |q2| {
      HighPowers(r1, k + 16);
      HighPowers(r2, k + 16);
      SameQuotient(message, q1, r1, q2, r2, k + 4);
      SameQuotient(message, q1, r1, q2, r2, k + 11);
      SameQuotient(message, q1, r1, q2, r2, k + 16);
      assert DividesAt(message, q1, r1, k + 16) && DividesAt(message, q2, r2, k + 16);
    }
  }

  /** The CRC of a single one is the generator without its highest power. */
  lemma CrcOfOne()
    ensures Crc([1]) == 0x1021
  {
    assert [1][..0] == [];
    LowByteShifts(1);
    assert Shifted(0x100, 8) == 0x1021 by {
      assert Shifted(0x100, 0) == 0x100;
      assert Shifted(0x100, 4) == 0x1000;
      assert Shifted(0x100, 8) == 0x1021;
    }
  }
}
