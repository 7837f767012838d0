/**
 Which damage the CRC detects (section 6.2.2 of MODBUS over Serial Line Specification and Implementation Guide
 V1.02), proved on the bit-serial register: what a frame's errors do to the residue, bursts, and odd numbers of bits.
 */
module CrcErrors {
  import opened Words
  import opened Crc16

  /** The error pattern between two frames of one length, in wire order. */
  function Flipped(frame: seq<byte>, other: seq<byte>): (e: seq<bool>)
    requires |frame| == |other|
    ensures |e| == 8 * |frame|
  {
    XorBits(Wire(frame), Wire(other))
  }

  /** Every flipped bit lies within n bits from bit k on. */
  predicate BurstAt(e: seq<bool>, k: nat, n: nat) {
    forall i :: 0 <= i < |e| && e[i] ==> k <= i < k + n
  }

  /** The bits of the polynomial, from bit k on, and no others. */
  predicate PolynomialAt(e: seq<bool>, k: nat) {
    k + 17 <= |e| && forall i :: 0 <= i < |e| ==> (e[i] <==> i == k || i == k + 1 || i == k + 14 || i == k + 16)
  }

  lemma {:induction false} WireDetermines(frame: seq<byte>, other: seq<byte>)
    requires |frame| == |other| && Wire(frame) == Wire(other)
    ensures frame == other
  {
    if frame != [] {
      var n := |frame| - 1;
      assert Wire(frame)[..8 * n] == Wire(frame[..n]) && Wire(other)[..8 * n] == Wire(other[..n]);
      WireDetermines(frame[..n], other[..n]);
      assert Wire(frame)[8 * n..] == Bits(frame[n], 8) && Wire(other)[8 * n..] == Bits(other[n], 8);
      PowersOfTwo();
      ValueOfBits(frame[n], 8);
      ValueOfBits(other[n], 8);
      assert frame == frame[..n] + [frame[n]] && other == other[..n] + [other[n]];
    }
  }

  lemma PassesOnTheWire(buf: seq<byte>)
    requires |buf| >= 2
    ensures Passes(buf) <==> Serial(Bits(0xFFFF, 16), Wire(buf)) == ZERO
  {
    ResidueIsZero(buf);
    BytesAreSerial(0xFFFF, buf);
    WordFromBits(Crc(buf), 0);
    ZeroWord();
  }

  /** Errors act alone: whether a damaged frame passes depends on the damage and not on the frame. */
  lemma ErrorActsAlone(frame: seq<byte>, other: seq<byte>)
    requires Passes(frame) && |other| == |frame|
    ensures Passes(other) <==> Serial(ZERO, Flipped(frame, other)) == ZERO
  {
    var start := Bits(0xFFFF, 16);
    var r, s := Serial(start, Wire(frame)), Serial(start, Wire(other));
    PassesOnTheWire(frame);
    PassesOnTheWire(other);
    SameCancels(start);
    SerialLinear(start, start, Wire(frame), Wire(other));
    ZeroIsNeutral(s);
  }

  lemma SameCancels(r: Register)
    ensures XorBits(r, r) == ZERO
  {
  }

  lemma ZeroIsNeutral(r: Register)
    ensures XorBits(ZERO, r) == r
  {
  }

  /** A pattern that is silent outside [k, m) acts as its middle part does. */
  lemma OnlyTheWindowMatters(e: seq<bool>, k: nat, m: nat)
    requires k <= m <= |e|
    requires forall i :: 0 <= i < |e| && e[i] ==> k <= i < m
    ensures Serial(ZERO, e) == ZERO <==> Serial(ZERO, e[k..m]) == ZERO
  {
    assert e == e[..k] + (e[k..m] + e[m..]);
    SerialConcat(ZERO, e[..k], e[k..m] + e[m..]);
    SilenceKeepsDifference(ZERO, e[..k]);
    SerialConcat(ZERO, e[k..m], e[m..]);
    SilenceKeepsDifference(Serial(ZERO, e[k..m]), e[m..]);
  }

  lemma SilentMeansSame(frame: seq<byte>, other: seq<byte>)
    requires |other| == |frame| && forall i :: 0 <= i < |Flipped(frame, other)| ==> !Flipped(frame, other)[i]
    ensures other == frame
  {
    var x, y, e := Wire(frame), Wire(other), Flipped(frame, other);
    assert forall i :: 0 <= i < |e| ==> e[i] == (x[i] != y[i]);
    assert x == y;
    WireDetermines(frame, other);
  }

  /** Every burst of at most sixteen wire bits is caught, at any position in a frame of any length. */
  lemma BurstDetected(frame: seq<byte>, other: seq<byte>, k: nat)
    requires Passes(frame) && |other| == |frame| && other != frame && BurstAt(Flipped(frame, other), k, 16)
    ensures !Passes(other)
  {
    var e := Flipped(frame, other);
    if forall i :: 0 <= i < |e| ==> !e[i] {
      SilentMeansSame(frame, other);
    } else {
      var i :| 0 <= i < |e| && e[i];
      ErrorActsAlone(frame, other);
      BurstIsHeard(e, k, i);
    }
  }

  lemma BurstIsHeard(e: seq<bool>, k: nat, i: nat)
    requires i < |e| && e[i] && BurstAt(e, k, 16)
    ensures Serial(ZERO, e) != ZERO
  {
    var m := if k + 16 <= |e| then k + 16 else |e|;
    OnlyTheWindowMatters(e, k, m);
    ZeroedExactlyByItself(ZERO, e[k..m]);
    assert e[k..m][i - k];
  }

  /** Sixteen is the exact bound: one burst of seventeen bits, the polynomial itself, is never caught. */
  lemma BurstBoundIsTight(frame: seq<byte>, other: seq<byte>, k: nat)
    requires Passes(frame) && |other| == |frame| && PolynomialAt(Flipped(frame, other), k)
    ensures BurstAt(Flipped(frame, other), k, 17) && other != frame && Passes(other)
  {
    var e := Flipped(frame, other);
    assert e[k];
    PolynomialBurst(e, k);
    ErrorActsAlone(frame, other);
    assert Wire(frame)[k] != Wire(other)[k];
  }

  lemma PolynomialBurst(e: seq<bool>, k: nat)
    requires PolynomialAt(e, k)
    ensures Serial(ZERO, e) == ZERO
  {
    var w := e[k..k + 17];
    forall i | 0 <= i < 17 ensures w[i] == (i == 0 || Tap(i - 1)) {
      assert w[i] == e[k + i];
    }
    PolynomialIsSilent(w);
    OnlyTheWindowMatters(e, k, k + 17);
  }

  lemma PolynomialIsSilent(w: seq<bool>)
    requires |w| == 17 && forall i :: 0 <= i < 17 ==> (w[i] <==> i == 0 || Tap(i - 1))
    ensures Serial(ZERO, w) == ZERO
  {
    var r := Step(ZERO, w[0]);
    forall i | 0 <= i < 16 ensures r[i] == w[1..][i] {
      assert w[1..][i] == w[i + 1];
    }
    ZeroedExactlyByItself(r, w[1..]);
  }

  // ---------------------------------------------------------------- odd numbers of errors

  function Count(bits: seq<bool>): nat {
    if bits == [] then 0 else (if bits[0] then 1 else 0) + Count(bits[1..])
  }

  predicate Odd(bits: seq<bool>) {
    Count(bits) % 2 == 1
  }

  lemma {:induction false} OddOfXor(x: seq<bool>, y: seq<bool>)
    requires |x| == |y|
    ensures Odd(XorBits(x, y)) <==> Odd(x) != Odd(y)
  {
    if x != [] {
      assert XorBits(x, y)[1..] == XorBits(x[1..], y[1..]);
      OddOfXor(x[1..], y[1..]);
    }
  }

  lemma {:induction false} CountConcat(x: seq<bool>, y: seq<bool>)
    ensures Count(x + y) == Count(x) + Count(y)
  {
    if x == [] {
      assert x + y == y;
    } else {
      assert (x + y)[1..] == x[1..] + y;
      CountConcat(x[1..], y);
    }
  }

  lemma {:induction false} CountSilence(x: seq<bool>)
    requires forall i :: 0 <= i < |x| ==> !x[i]
    ensures Count(x) == 0
  {
    if x != [] {
      CountSilence(x[1..]);
    }
  }

  lemma CountTaps(taps: Register)
    requires forall i :: 0 <= i < 16 ==> taps[i] == Tap(i)
    ensures Count(taps) == 3
  {
    var middle, tail := taps[1..13], taps[13..];
    assert taps == [true] + (middle + tail);
    assert tail == [true] + ([false] + [true]);
    CountSilence(middle);
    CountConcat(middle, tail);
    CountConcat([true], middle + tail);
    CountConcat([true], [false] + [true]);
    CountConcat([false], [true]);
  }

  /** Shifting a 1 out removes one bit and feeds three back, so parity only follows the input. */
  lemma StepParity(r: Register, b: bool)
    ensures Odd(Step(r, b)) <==> Odd(r) != b
  {
    var moved := r[1..] + [false];
    var taps: Register := seq(16, i requires 0 <= i < 16 => Tap(i));
    var fed := if r[0] != b then taps else ZERO;
    assert Step(r, b) == XorBits(moved, fed);
    OddOfXor(moved, fed);
    CountConcat(r[1..], [false]);
    CountTaps(taps);
    CountSilence(ZERO);
  }

  lemma {:induction false} SerialParity(r: Register, bits: seq<bool>)
    ensures Odd(Serial(r, bits)) <==> Odd(r) != Odd(bits)
    decreases bits
  {
    if bits != [] {
      StepParity(r, bits[0]);
      SerialParity(Step(r, bits[0]), bits[1..]);
    }
  }

  /** Every odd number of flipped bits is caught, wherever they are. */
  lemma OddErrorsDetected(frame: seq<byte>, other: seq<byte>)
    requires Passes(frame) && |other| == |frame|
    requires Odd(Flipped(frame, other))
    ensures !Passes(other)
  {
    ErrorActsAlone(frame, other);
    SerialParity(ZERO, Flipped(frame, other));
    CountSilence(ZERO);
  }
}
