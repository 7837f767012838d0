/**
 Bytes and 16-bit words as bounded integers: their big-endian split, their binary digits, and the
 bitwise exclusive-or through those digits.
 */
module Words {

  type byte = x: int | 0 <= x < 0x100

  type u16 = x: int | 0 <= x < 0x1_0000

  datatype Option<+T> = None | Some(value: T)

  /** The first element with a property, from index i on. */
  function FirstFrom<T(!new)>(xs: seq<T>, p: T -> bool, i: nat): (r: Option<nat>)
    requires i <= |xs|
    ensures r.Some? ==> i <= r.value < |xs| && p(xs[r.value])
    ensures forall j :: i <= j < (if r.Some? then r.value else |xs|) ==> !p(xs[j])
    decreases |xs| - i
  {
    if i == |xs| then None else if p(xs[i]) then Some(i) else FirstFrom(xs, p, i + 1)
  }

  /** Pieces one after the other. */
  function Concat<T>(pieces: seq<seq<T>>): seq<T> {
    if pieces == [] then [] else pieces[0] + Concat(pieces[1..])
  }

  lemma {:induction false} ConcatOneMore<T>(pieces: seq<seq<T>>, piece: seq<T>)
    ensures Concat(pieces + [piece]) == Concat(pieces) + piece
  {
    if pieces == [] {
      assert [piece][1..] == [];
      assert pieces + [piece] == [piece];
    } else {
      assert (pieces + [piece])[1..] == pieces[1..] + [piece];
      ConcatOneMore(pieces[1..], piece);
    }
  }

  function High(v: u16): byte {
    v / 256
  }

  function Low(v: u16): byte {
    v % 256
  }

  function Join(h: byte, l: byte): u16 {
    256 * h + l
  }

  /** The big-endian bytes of a run of registers. */
  function BigEndian(regs: seq<u16>): (bytes: seq<byte>)
    ensures |bytes| == 2 * |regs|
  {
    if regs == [] then [] else BigEndian(regs[..|regs| - 1]) + [High(regs[|regs| - 1]), Low(regs[|regs| - 1])]
  }

  lemma {:induction false} BigEndianAt(regs: seq<u16>, i: nat)
    requires i < |regs|
    ensures BigEndian(regs)[2 * i] == High(regs[i])
    ensures BigEndian(regs)[2 * i + 1] == Low(regs[i])
  {
    if i < |regs| - 1 {
      BigEndianAt(regs[..|regs| - 1], i);
    }
  }

  /** Reading register i back from big-endian bytes that start at `offset`. */
  function RegisterAt(bytes: seq<byte>, offset: nat, i: nat): u16
    requires offset + 2 * i + 1 < |bytes|
  {
    Join(bytes[offset + 2 * i], bytes[offset + 2 * i + 1])
  }

  lemma {:induction false} BigEndianDetermined(regs: seq<u16>, bytes: seq<byte>)
    requires |bytes| == 2 * |regs|
    requires forall i :: 0 <= i < |regs| ==> RegisterAt(bytes, 0, i) == regs[i]
    ensures bytes == BigEndian(regs)
  {
    if regs != [] {
      var n := |regs| - 1;
      var front := bytes[..2 * n];
      forall i | 0 <= i < n ensures RegisterAt(front, 0, i) == regs[..n][i] {
        assert RegisterAt(bytes, 0, i) == regs[i];
      }
      BigEndianDetermined(regs[..n], front);
      LastRegister(bytes, n, regs[n]);
    }
  }

  lemma LastRegister(bytes: seq<byte>, n: nat, v: u16)
    requires |bytes| == 2 * n + 2 && RegisterAt(bytes, 0, n) == v
    ensures bytes == bytes[..2 * n] + [High(v), Low(v)]
  {
    assert High(v) == bytes[2 * n] && Low(v) == bytes[2 * n + 1];
  }

  // ---------------------------------------------------------------- binary digits

  function Pow2(n: nat): (p: nat)
    ensures p > 0
  {
    if n == 0 then 1 else 2 * Pow2(n - 1)
  }

  /** The n low digits of v, least significant first. */
  function Bits(v: nat, n: nat): (bits: seq<bool>)
    ensures |bits| == n
  {
    if n == 0 then [] else [v % 2 == 1] + Bits(v / 2, n - 1)
  }

  function Value(bits: seq<bool>): (v: nat)
    ensures v < Pow2(|bits|)
  {
    if bits == [] then 0 else (if bits[0] then 1 else 0) + 2 * Value(bits[1..])
  }

  lemma {:induction false} ValueOfBits(v: nat, n: nat)
    requires v < Pow2(n)
    ensures Value(Bits(v, n)) == v
  {
    if n > 0 {
      ValueOfBits(v / 2, n - 1);
    }
  }

  lemma {:induction false} BitsOfValue(bits: seq<bool>)
    ensures Bits(Value(bits), |bits|) == bits
  {
    if bits != [] {
      BitsOfValue(bits[1..]);
      assert Value(bits) / 2 == Value(bits[1..]);
    }
  }

  lemma {:induction false} BitsBeyond(v: nat, n: nat, m: nat)
    requires v < Pow2(n) && n <= m
    ensures Bits(v, m)[..n] == Bits(v, n)
    ensures forall i :: n <= i < m ==> !Bits(v, m)[i]
  {
    if m > 0 {
      if n > 0 {
        BitsBeyond(v / 2, n - 1, m - 1);
      } else {
        BitsBeyond(0, 0, m - 1);
      }
    }
  }

  lemma BitsOfHalf(v: nat, n: nat)
    requires n > 0 && v < Pow2(n)
    ensures Bits(v / 2, n) == Bits(v, n)[1..] + [false]
  {
    BitsBeyond(v / 2, n - 1, n);
    assert Bits(v / 2, n) == Bits(v / 2, n)[..n - 1] + [Bits(v / 2, n)[n - 1]];
  }

  lemma {:induction false} BitsOfSum(low: nat, high: nat, n: nat, m: nat)
    requires low < Pow2(n)
    ensures Bits(low + Pow2(n) * high, n + m) == Bits(low, n) + Bits(high, m)
  {
    if n == 0 {
      assert Bits(low, n) + Bits(high, m) == Bits(high, m);
    } else {
      var rest := low / 2 + Pow2(n - 1) * high;
      assert low + Pow2(n) * high == low % 2 + 2 * rest by {
        assert Pow2(n) * high == 2 * (Pow2(n - 1) * high);
      }
      BitsOfSum(low / 2, high, n - 1, m);
    }
  }

  lemma SplitBits(v: nat, low: nat, high: nat, n: nat, m: nat)
    requires low < Pow2(n) && v == low + Pow2(n) * high
    ensures Bits(v, n + m) == Bits(low, n) + Bits(high, m)
  {
    BitsOfSum(low, high, n, m);
  }

  lemma PowersOfTwo()
    ensures Pow2(1) == 2 && Pow2(8) == 256 && Pow2(12) == 4096 && Pow2(16) == 65536
  {
    assert Pow2(4) == 16;
    assert Pow2(8) == 256;
    assert Pow2(12) == 4096;
  }

  function XorBits(x: seq<bool>, y: seq<bool>): (z: seq<bool>)
    requires |x| == |y|
    ensures |z| == |x|
    ensures forall i :: 0 <= i < |x| ==> z[i] == (x[i] != y[i])
  {
    seq(|x|, i requires 0 <= i < |x| => x[i] != y[i])
  }

  /** The ^ operator on uint16_t. */
  function XorWord(a: u16, b: u16): u16 {
    PowersOfTwo();
    Value(XorBits(Bits(a, 16), Bits(b, 16)))
  }

  lemma BitsOfXor(a: u16, b: u16)
    ensures Bits(XorWord(a, b), 16) == XorBits(Bits(a, 16), Bits(b, 16))
  {
    BitsOfValue(XorBits(Bits(a, 16), Bits(b, 16)));
  }

  lemma WordFromBits(a: u16, b: u16)
    ensures Bits(a, 16) == Bits(b, 16) <==> a == b
  {
    PowersOfTwo();
    ValueOfBits(a, 16);
    ValueOfBits(b, 16);
  }
}
