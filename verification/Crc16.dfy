/**
 The Modbus CRC-16 of the RTU client (lib/modbus/modbus_rtu_client.c): the byte loop on machine words,
 its equality with a bit-serial shift register, and that register's being linear and injective over GF(2).

 Section 6.2.2 of the MODBUS over Serial Line Specification and Implementation Guide V1.02 fixes the
 polynomial (0xA001, reflected), the initial value (0xFFFF) and the order of the two CRC bytes.
 */
module Crc16 {
  import opened Words

  // ---------------------------------------------------------------- the code, on words

  /** One turn of the inner loop: shift right, and feed the polynomial back when a 1 drops out. */
  function Shift(c: u16): u16 {
    if c % 2 == 1 then XorWord(c / 2, 0xA001) else c / 2
  }

  function Shifts(c: u16, n: nat): u16 {
    if n == 0 then c else Shift(Shifts(c, n - 1))
  }

  /** One byte: XOR it into the low half of the register, then eight turns. */
  function Absorb(c: u16, b: byte): u16 {
    Shifts(XorWord(c, b), 8)
  }

  function Run(c: u16, data: seq<byte>): u16 {
    if data == [] then c else Absorb(Run(c, data[..|data| - 1]), data[|data| - 1])
  }

  function Crc(data: seq<byte>): u16 {
    Run(0xFFFF, data)
  }

  function WithCrc(frame: seq<byte>): seq<byte> {
    frame + [Low(Crc(frame)), High(Crc(frame))]
  }

  predicate Passes(buf: seq<byte>) {
    |buf| >= 2 && Crc(buf[..|buf| - 2]) == Join(buf[|buf| - 1], buf[|buf| - 2])
  }

  /** mb_rtu_compute_crc16: the two nested loops over the first `length` bytes. */
  method ComputeCrc16(data: array<byte>, length: nat) returns (crc: u16)
    requires length <= data.Length
    ensures crc == Crc(data[..length])
  {
    crc := 0xFFFF;
    var i := 0;
    while i < length
      invariant i <= length
      invariant crc == Crc(data[..i])
    {
      ghost var before := crc;
      crc := XorWord(crc, data[i]);
      var bit := 0;
      while bit < 8
        invariant bit <= 8
        invariant crc == Shifts(XorWord(before, data[i]), bit)
      {
        if crc % 2 == 1 {
          crc := XorWord(crc / 2, 0xA001);
        } else {
          crc := crc / 2;
        }
        bit := bit + 1;
      }
      assert data[..i + 1][..i] == data[..i];
      i := i + 1;
    }
  }

  /** append_crc: low byte first, written in place after the `len` bytes already there. */
  method AppendCrc(buf: array<byte>, len: nat) returns (newLen: nat)
    requires len + 2 <= buf.Length
    modifies buf
    ensures newLen == len + 2
    ensures buf[..newLen] == WithCrc(old(buf[..len]))
    ensures Passes(buf[..newLen])
    ensures buf[newLen..] == old(buf[newLen..])
  {
    var crc := ComputeCrc16(buf, len);
    ghost var frame := buf[..len];
    buf[len] := Low(crc);
    buf[len + 1] := High(crc);
    newLen := len + 2;
    assert buf[..newLen] == frame + [Low(crc), High(crc)];
    AppendedCrcPasses(frame);
  }

  /** verify_response_crc. */
  method VerifyResponseCrc(buf: array<byte>, len: nat) returns (ok: bool)
    requires len <= buf.Length
    ensures ok <==> Passes(buf[..len])
  {
    if len < 2 {
      return false;
    }
    var computed := ComputeCrc16(buf, len - 2);
    var received := Join(buf[len - 1], buf[len - 2]);
    assert buf[..len][..len - 2] == buf[..len - 2];
    ok := computed == received;
  }

  // ---------------------------------------------------------------- the register, bit by bit

  /** Sixteen bits, least significant first. */
  type Register = r: seq<bool> | |r| == 16 witness seq(16, i => false)

  const ZERO: Register := seq(16, i => false)

  predicate Tap(i: nat) {
    i == 0 || i == 13 || i == 15
  }

  /** One bit off the line: combine it with the low end, shift, and feed the result back into the taps. */
  function Step(r: Register, b: bool): Register {
    seq(16, i requires 0 <= i < 16 => (i < 15 && r[i + 1]) != ((r[0] != b) && Tap(i)))
  }

  function Serial(r: Register, bits: seq<bool>): Register
    decreases bits
  {
    if bits == [] then r else Serial(Step(r, bits[0]), bits[1..])
  }

  /** A frame as it goes over the wire: each byte least significant bit first. */
  function Wire(data: seq<byte>): (bits: seq<bool>)
    ensures |bits| == 8 * |data|
  {
    if data == [] then [] else Wire(data[..|data| - 1]) + Bits(data[|data| - 1], 8)
  }

  // ---------------------------------------------------------------- the byte loop is the serial register

  function Steps(r: Register, n: nat): Register {
    if n == 0 then r else Step(Steps(r, n - 1), false)
  }

  /** The register with a short word XORed into its low end. */
  function XorLow(r: Register, bits: seq<bool>): Register {
    seq(16, i requires 0 <= i < 16 => r[i] != (i < |bits| && bits[i]))
  }

  lemma {:induction false} StepsFromFront(r: Register, n: nat)
    ensures Steps(r, n + 1) == Steps(Step(r, false), n)
  {
    if n > 0 {
      StepsFromFront(r, n - 1);
    }
  }

  lemma StepMovesWord(r: Register, bits: seq<bool>)
    requires 0 < |bits| <= 16
    ensures Step(XorLow(r, bits), false) == XorLow(Step(r, bits[0]), bits[1..])
  {
    var x, y := Step(XorLow(r, bits), false), XorLow(Step(r, bits[0]), bits[1..]);
    forall i | 0 <= i < 16 ensures x[i] == y[i] {
    }
  }

  /** Feeding up to sixteen bits one at a time is XORing them in at once and then shifting. */
  lemma {:induction false} SerialIsXorThenShift(r: Register, bits: seq<bool>)
    requires |bits| <= 16
    ensures Serial(r, bits) == Steps(XorLow(r, bits), |bits|)
    decreases bits
  {
    if bits == [] {
      assert XorLow(r, bits) == r;
    } else {
      SerialIsXorThenShift(Step(r, bits[0]), bits[1..]);
      StepMovesWord(r, bits);
      StepsFromFront(XorLow(r, bits), |bits| - 1);
    }
  }

  lemma PolynomialTaps()
    ensures forall i :: 0 <= i < 16 ==> Bits(0xA001, 16)[i] == Tap(i)
  {
    PowersOfTwo();
    TapsOf(0xA001, 0x5000, 5, 16, 15, 12, 3);
  }

  /** The digits of the polynomial: a one, twelve zeros, and the three digits of 5. */
  lemma TapsOf(v: nat, rest: nat, top: nat, n: nat, n1: nat, n12: nat, n3: nat)
    requires n == 16 && n1 == 15 && n12 == 12 && n3 == 3 && Pow2(n12) == 4096
    requires v == 1 + 2 * rest && rest == 4096 * top && top == 5
    ensures forall i :: 0 <= i < 16 ==> Bits(v, n)[i] == Tap(i)
  {
    OneDigit(v, n);
    SplitBits(rest, 0, top, n12, n3);
    BitsBeyond(0, 0, n12);
    OneDigit(top, n3);
    OneDigit(top / 2, n3 - 1);
    OneDigit(top / 2 / 2, n3 - 2);
    assert Bits(rest, n1) == Bits(0, n12) + Bits(top, n3);
  }

  lemma OneDigit(v: nat, n: nat)
    requires n > 0
    ensures Bits(v, n) == [v % 2 == 1] + Bits(v / 2, n - 1)
  {
  }

  lemma ShiftIsStep(c: u16)
    ensures Bits(Shift(c), 16) == Step(Bits(c, 16), false)
  {
    PowersOfTwo();
    BitsOfHalf(c, 16);
    PolynomialTaps();
    BitsOfXor(c / 2, 0xA001);
  }

  lemma {:induction false} ShiftsAreSteps(c: u16, n: nat)
    ensures Bits(Shifts(c, n), 16) == Steps(Bits(c, 16), n)
  {
    if n > 0 {
      ShiftsAreSteps(c, n - 1);
      ShiftIsStep(Shifts(c, n - 1));
    }
  }

  lemma XorByteIsXorLow(c: u16, b: byte)
    ensures Bits(XorWord(c, b), 16) == XorLow(Bits(c, 16), Bits(b, 8))
  {
    BitsOfXor(c, b);
    PowersOfTwo();
    BitsBeyond(b, 8, 16);
    forall i | 0 <= i < 16 ensures Bits(b, 16)[i] == (i < 8 && Bits(b, 8)[i]) {
      if i < 8 {
        assert Bits(b, 16)[..8][i] == Bits(b, 8)[i];
      }
    }
  }

  lemma {:induction false} SerialConcat(r: Register, x: seq<bool>, y: seq<bool>)
    ensures Serial(r, x + y) == Serial(Serial(r, x), y)
    decreases x
  {
    if x == [] {
      assert x + y == y;
    } else {
      SerialConcat(Step(r, x[0]), x[1..], y);
      assert (x + y)[1..] == x[1..] + y;
    }
  }

  /** mb_rtu_compute_crc16 is the bit-serial register clocked over the wire order, at every length. */
  lemma {:induction false} BytesAreSerial(c: u16, data: seq<byte>)
    ensures Bits(Run(c, data), 16) == Serial(Bits(c, 16), Wire(data))
  {
    if data != [] {
      var n := |data| - 1;
      var c' := Run(c, data[..n]);
      BytesAreSerial(c, data[..n]);
      SerialConcat(Bits(c, 16), Wire(data[..n]), Bits(data[n], 8));
      XorByteIsXorLow(c', data[n]);
      ShiftsAreSteps(XorWord(c', data[n]), 8);
      SerialIsXorThenShift(Bits(c', 16), Bits(data[n], 8));
    }
  }

  // ---------------------------------------------------------------- linearity and injectivity

  lemma StepLinear(r: Register, s: Register, a: bool, b: bool)
    ensures Step(XorBits(r, s), a != b) == XorBits(Step(r, a), Step(s, b))
  {
    var x, y := Step(XorBits(r, s), a != b), XorBits(Step(r, a), Step(s, b));
    forall i | 0 <= i < 16 ensures x[i] == y[i] {
    }
  }

  /** Superposition: the register over a sum of two streams is the sum of the registers. */
  lemma {:induction false} SerialLinear(r: Register, s: Register, x: seq<bool>, y: seq<bool>)
    requires |x| == |y|
    ensures Serial(XorBits(r, s), XorBits(x, y)) == XorBits(Serial(r, x), Serial(s, y))
    decreases x
  {
    if x != [] {
      StepLinear(r, s, x[0], y[0]);
      assert XorBits(x, y)[1..] == XorBits(x[1..], y[1..]);
      SerialLinear(Step(r, x[0]), Step(s, y[0]), x[1..], y[1..]);
    }
  }

  predicate Holds(r: Register, w: seq<bool>)
    requires |w| <= 16
  {
    forall i :: 0 <= i < 16 ==> r[i] == (i < |w| && w[i])
  }

  lemma StepToWord(r: Register, w: seq<bool>)
    requires 0 < |w| <= 16
    ensures Holds(Step(r, w[0]), w[1..]) <==> Holds(r, w)
  {
    var s := Step(r, w[0]);
    if Holds(s, w[1..]) {
      assert s[15] == false;
      assert r[0] == w[0];
      forall i | 1 <= i < 16 ensures r[i] == (i < |w| && w[i]) {
        assert s[i - 1] == r[i];
      }
    }
  }

  /** Injectivity: at most sixteen bits drive the register to zero exactly when it holds those bits. */
  lemma {:induction false} ZeroedExactlyByItself(r: Register, w: seq<bool>)
    requires |w| <= 16
    ensures Serial(r, w) == ZERO <==> Holds(r, w)
    decreases w
  {
    if w == [] {
      if Holds(r, w) {
        assert r == ZERO;
      }
    } else {
      ZeroedExactlyByItself(Step(r, w[0]), w[1..]);
      StepToWord(r, w);
    }
  }

  // ---------------------------------------------------------------- start value and polynomial, by two frames

  lemma {:induction false} AllOnes(v: nat, n: nat)
    requires v + 1 == Pow2(n)
    ensures forall i :: 0 <= i < n ==> Bits(v, n)[i]
    decreases n
  {
    if n > 0 {
      AllOnes(v / 2, n - 1);
    }
  }

  lemma {:induction false} Zeros(n: nat)
    ensures forall i :: 0 <= i < n ==> !Bits(0, n)[i]
  {
    if n > 0 {
      Zeros(n - 1);
    }
  }

  lemma XorWithZero(b: u16)
    ensures XorWord(0, b) == b
  {
    BitsOfXor(0, b);
    Zeros(16);
    WordFromBits(XorWord(0, b), b);
  }

  lemma OnesAreErased(ones: seq<byte>)
    requires ones == [0xFF, 0xFF]
    ensures Crc(ones) == 0
  {
    PowersOfTwo();
    AllOnes(0xFFFF, 16);
    AllOnes(0xFF, 8);
    BytesAreSerial(0xFFFF, ones);
    assert ones[..1] == [0xFF] && ones[..1][..0] == [];
    assert Wire(ones) == Wire(ones[..1]) + Bits(0xFF, 8);
    assert Wire(ones[..1]) == [] + Bits(0xFF, 8);
    ZeroedExactlyByItself(Bits(0xFFFF, 16), Wire(ones));
    Zeros(16);
    assert Bits(0, 16) == ZERO;
    WordFromBits(Crc(ones), 0);
  }

  lemma {:induction false} HalvesDown(n: nat, v: u16)
    requires n < 16 && v == Pow2(n)
    ensures Shifts(v, n) == 1
    decreases n
  {
    if n > 0 {
      HalvesDown(n - 1, v / 2);
      ShiftsFromFront(v, n - 1);
    }
  }

  lemma {:induction false} ShiftsFromFront(c: u16, n: nat)
    ensures Shifts(c, n + 1) == Shifts(Shift(c), n)
  {
    if n > 0 {
      ShiftsFromFront(c, n - 1);
    }
  }

  /** The start value is erased by itself, and one more bit then leaves the polynomial: two frames that tell both. */
  lemma StartAndPolynomial()
    ensures Crc([0xFF, 0xFF]) == 0
    ensures Crc([0xFF, 0xFF, 0x80]) == 0xA001
  {
    OnesAreErased([0xFF, 0xFF]);
    assert [0xFF, 0xFF, 0x80][..2] == [0xFF, 0xFF];
    XorWithZero(0x80);
    XorWithZero(0xA001);
    SevenBits();
    HalvesDown(7, 0x80);
    assert Shifts(0x80, 8) == Shift(Shifts(0x80, 7)) == Shift(1);
  }

  lemma SevenBits()
    ensures Pow2(7) == 0x80
  {
    PowersOfTwo();
  }

  /** Bits that are all 0 keep a zero register at zero and a nonzero register nonzero. */
  lemma {:induction false} SilenceKeepsDifference(r: Register, w: seq<bool>)
    requires forall i :: 0 <= i < |w| ==> !w[i]
    ensures Serial(r, w) == ZERO <==> r == ZERO
    decreases w
  {
    if w != [] {
      ZeroedExactlyByItself(r, [false]);
      assert Serial(Step(r, false), []) == Serial(r, [false]);
      SilenceKeepsDifference(Step(r, w[0]), w[1..]);
      assert Holds(r, [false]) <==> r == ZERO;
    }
  }

  // ---------------------------------------------------------------- residue

  lemma CrcBytesOnTheWire(l: byte, h: byte)
    ensures Bits(Join(h, l), 16) == Bits(l, 8) + Bits(h, 8)
  {
    PowersOfTwo();
    SplitBits(Join(h, l), l, h, 8, 8);
  }

  /** A buffer passes exactly when the CRC of all of it, CRC bytes included, is zero. */
  lemma ResidueIsZero(buf: seq<byte>)
    requires |buf| >= 2
    ensures Passes(buf) <==> Crc(buf) == 0
  {
    var n := |buf| - 2;
    var c, l, h := Crc(buf[..n]), buf[n], buf[n + 1];
    var crcBits := Bits(l, 8) + Bits(h, 8);
    assert buf == buf[..n] + [l, h];
    WireTwoMore(buf[..n], l, h);
    BytesAreSerial(0xFFFF, buf);
    BytesAreSerial(0xFFFF, buf[..n]);
    SerialConcat(Bits(0xFFFF, 16), Wire(buf[..n]), crcBits);
    ZeroedExactlyByItself(Bits(c, 16), crcBits);
    CrcBytesOnTheWire(l, h);
    WordFromBits(c, Join(h, l));
    WordFromBits(Crc(buf), 0);
    ZeroWord();
    assert Holds(Bits(c, 16), crcBits) <==> Bits(c, 16) == crcBits;
  }

  lemma ZeroWord()
    ensures Bits(0, 16) == ZERO
  {
    PowersOfTwo();
    BitsBeyond(0, 0, 16);
  }

  lemma WireTwoMore(x: seq<byte>, l: byte, h: byte)
    ensures Wire(x + [l, h]) == Wire(x) + (Bits(l, 8) + Bits(h, 8))
  {
    WireOneMore(x + [l], h);
    WireOneMore(x, l);
    Associative(Wire(x), Bits(l, 8), Bits(h, 8));
    assert x + [l, h] == (x + [l]) + [h];
  }

  lemma Associative(a: seq<bool>, b: seq<bool>, c: seq<bool>)
    ensures (a + b) + c == a + (b + c)
  {
  }

  lemma WireOneMore(x: seq<byte>, b: byte)
    ensures Wire(x + [b]) == Wire(x) + Bits(b, 8)
  {
    assert (x + [b])[..|x|] == x;
  }

  lemma AppendedCrcPasses(frame: seq<byte>)
    ensures Passes(WithCrc(frame))
    ensures Crc(WithCrc(frame)) == 0
  {
    var w := WithCrc(frame);
    assert w[..|w| - 2] == frame;
    ResidueIsZero(w);
  }

  /** The CRC bytes are determined: a buffer passes only if it is its own body with the CRC appended. */
  lemma PassesOnlyWithItsCrc(buf: seq<byte>)
    requires |buf| >= 2
    ensures Passes(buf) <==> buf == WithCrc(buf[..|buf| - 2])
  {
    TwoBytes(buf, Crc(buf[..|buf| - 2]));
  }

  lemma TwoBytes(buf: seq<byte>, c: u16)
    requires |buf| >= 2
    ensures c == Join(buf[|buf| - 1], buf[|buf| - 2]) <==> buf == buf[..|buf| - 2] + [Low(c), High(c)]
  {
    JoinIsSplit(buf[|buf| - 1], buf[|buf| - 2], c);
    LastTwo(buf, Low(c), High(c));
  }

  lemma JoinIsSplit(h: byte, l: byte, c: u16)
    ensures c == Join(h, l) <==> l == Low(c) && h == High(c)
  {
  }

  lemma LastTwo(buf: seq<byte>, x: byte, y: byte)
    requires |buf| >= 2
    ensures buf == buf[..|buf| - 2] + [x, y] <==> buf[|buf| - 2] == x && buf[|buf| - 1] == y
  {
    var n := |buf| - 2;
    var all := buf[..n] + [x, y];
    assert all[n] == x && all[n + 1] == y;
  }
}
