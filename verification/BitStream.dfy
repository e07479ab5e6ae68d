/** Bits and bytes: the most significant bit first, as the symbol stores them. */
module BitStream {
  import opened Binary
  import opened GaloisField

  type Bits = seq<bool>

  /** The low w bits of n. */
  function NatBits(n: nat, w: nat): (r: Bits)
    ensures |r| == w
  {
    if w == 0 then [] else [Bit(n, w - 1)] + NatBits(n, w - 1)
  }

  function Digit(b: bool): nat {
    if b then 1 else 0
  }

  function BitsNat(bits: Bits): nat {
    if bits == [] then 0 else 2 * BitsNat(bits[..|bits| - 1]) + Digit(bits[|bits| - 1])
  }

  lemma {:induction false} BitsNatBound(bits: Bits)
    ensures BitsNat(bits) < Pow2(|bits|)
  {
    if bits != [] {
      BitsNatBound(bits[..|bits| - 1]);
    }
  }

  lemma BitsNatSnoc(bits: Bits, b: bool)
    ensures BitsNat(bits + [b]) == 2 * BitsNat(bits) + Digit(b)
  {
    assert (bits + [b])[..|bits|] == bits;
  }

  lemma {:induction false} NatBitsSnoc(n: nat, w: nat)
    ensures NatBits(n, w + 1) == NatBits(n / 2, w) + [Bit(n, 0)]
  {
    if w > 0 {
      NatBitsSnoc(n, w - 1);
    }
  }

  /** Reading back w written bits gives the number, when it fits. */
  lemma {:induction false} NatRoundTrip(n: nat, w: nat)
    requires n < Pow2(w)
    ensures BitsNat(NatBits(n, w)) == n
    decreases w
  {
    if w > 0 {
      NatBitsSnoc(n, w - 1);
      NatRoundTrip(n / 2, w - 1);
      BitsNatSnoc(NatBits(n / 2, w - 1), Bit(n, 0));
    }
  }

  lemma {:induction false} BitsRoundTrip(bits: Bits)
    ensures NatBits(BitsNat(bits), |bits|) == bits
  {
    if bits != [] {
      var init := bits[..|bits| - 1];
      BitsRoundTrip(init);
      NatBitsSnoc(BitsNat(bits), |init|);
    }
  }

  // ----- bytes

  function ByteBits(data: seq<Byte>): (r: Bits)
    ensures |r| == 8 * |data|
  {
    if data == [] then [] else NatBits(data[0], 8) + ByteBits(data[1..])
  }

  function Pack(bits: Bits): (r: seq<Byte>)
    requires |bits| % 8 == 0
    ensures 8 * |r| == |bits|
  {
    if bits == [] then [] else
      BitsNatBound(bits[..8]);
      assert Pow2(8) == 256;
      [BitsNat(bits[..8])] + Pack(bits[8..])
  }

  lemma {:induction false} PackByteBits(data: seq<Byte>)
    ensures Pack(ByteBits(data)) == data
  {
    hide NatBits, BitsNat;
    if data != [] {
      var bits := ByteBits(data);
      assert Pow2(8) == 256;
      NatRoundTrip(data[0], 8);
      assert bits[..8] == NatBits(data[0], 8) && bits[8..] == ByteBits(data[1..]);
      PackByteBits(data[1..]);
    }
  }

  lemma {:induction false} ByteBitsPack(bits: Bits)
    requires |bits| % 8 == 0
    ensures ByteBits(Pack(bits)) == bits
  {
    if bits != [] {
      BitsRoundTrip(bits[..8]);
      ByteBitsPack(bits[8..]);
    }
  }

  lemma {:induction false} ByteBitsAppend(p: seq<Byte>, q: seq<Byte>)
    ensures ByteBits(p + q) == ByteBits(p) + ByteBits(q)
  {
    hide NatBits;
    if p == [] {
      assert p + q == q;
    } else {
      ByteBitsAppend(p[1..], q);
      assert (p + q)[1..] == p[1..] + q;
    }
  }

  // ----- the loops

  /** Appends the low w bits of n. */
  method AppendNat(bits: Bits, n: nat, w: nat) returns (r: Bits)
    ensures r == bits + NatBits(n, w)
  {
    r := bits;
    for i := w downto 0
      invariant r + NatBits(n, i) == bits + NatBits(n, w)
    {
      r := r + [Bit(n, i)];
    }
  }

  method AppendBytes(bits: Bits, data: seq<Byte>) returns (r: Bits)
    ensures r == bits + ByteBits(data)
  {
    r := bits;
    for n := 0 to |data|
      invariant r == bits + ByteBits(data[..n])
    {
      assert data[..n + 1] == data[..n] + [data[n]];
      ByteBitsAppend(data[..n], [data[n]]);
      r := AppendNat(r, data[n], 8);
    }
    assert data[..|data|] == data;
  }

  method ByteValue(chunk: Bits) returns (byteVal: Byte)
    requires |chunk| == 8
    ensures byteVal == BitsNat(chunk)
  {
    var v := 0;
    for i := 0 to 8
      invariant v == BitsNat(chunk[..i])
    {
      assert chunk[..i + 1] == chunk[..i] + [chunk[i]];
      BitsNatSnoc(chunk[..i], chunk[i]);
      v := 2 * v + Digit(chunk[i]);
    }
    assert chunk[..8] == chunk;
    BitsNatBound(chunk);
    assert Pow2(8) == 256;
    byteVal := v;
  }

  method PackBytes(bits: Bits) returns (codewords: seq<Byte>)
    requires |bits| % 8 == 0
    ensures codewords == Pack(bits)
  {
    hide BitsNat;
    codewords := [];
    var i := 0;
    while i < |bits|
      invariant 0 <= i <= |bits| && i % 8 == 0
      invariant codewords + Pack(bits[i..]) == Pack(bits)
    {
      var byteVal := ByteValue(bits[i..i + 8]);
      assert bits[i..][..8] == bits[i..i + 8] && bits[i..][8..] == bits[i + 8..];
      codewords := codewords + [byteVal];
      i := i + 8;
    }
  }
}
