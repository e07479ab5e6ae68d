/** Versions 1 to 10 at error level L, and the data codewords of a payload in byte mode. */
module Codewords {
  import opened Binary
  import opened GaloisField
  import opened BitStream
  import opened Wrappers

  /** Codewords in all, error-correction codewords per block, number of blocks. */
  datatype Capacity = Capacity(total: nat, ecPerBlock: nat, blocks: nat)

  type Version = v: nat | 1 <= v <= 10 witness 1

  function Info(v: Version): (c: Capacity)
    ensures c.blocks > 0 && c.ecPerBlock > 0 && c.ecPerBlock * c.blocks < c.total
  {
    match v
    case 1 => Capacity(26, 7, 1)
    case 2 => Capacity(44, 10, 1)
    case 3 => Capacity(70, 15, 1)
    case 4 => Capacity(100, 20, 1)
    case 5 => Capacity(134, 26, 1)
    case 6 => Capacity(172, 18, 2)
    case 7 => Capacity(196, 20, 2)
    case 8 => Capacity(242, 24, 2)
    case 9 => Capacity(292, 30, 2)
    case _ => Capacity(346, 18, 4)
  }

  function DataTotal(v: Version): (d: nat)
    ensures 0 < d < Info(v).total
  {
    Info(v).total - Info(v).ecPerBlock * Info(v).blocks
  }

  function CountBits(v: Version): nat {
    if v < 10 then 8 else 16
  }

  function MaxBytes(v: Version): nat {
    (DataTotal(v) * 8 - 4 - CountBits(v)) / 8
  }

  const LARGEST: nat := 271

  /** The length of the bit stream before padding. */
  function StreamLen(n: nat, v: Version): nat {
    4 + CountBits(v) + 8 * n
  }

  /** A payload fits exactly when its stream is no longer than the data codewords. */
  lemma FitsIff(n: nat, v: Version)
    ensures n <= MaxBytes(v) <==> StreamLen(n, v) <= 8 * DataTotal(v)
  {}

  lemma Capacities()
    ensures forall v: Version :: MaxBytes(v) <= LARGEST
    ensures MaxBytes(10) == LARGEST && DataTotal(10) == 274
  {}

  method ChooseVersion(n: nat) returns (version: Version)
    ensures n <= LARGEST ==> n <= MaxBytes(version)
    ensures forall u: Version :: u < version ==> n > MaxBytes(u)
    ensures n > LARGEST ==> version == 10
  {
    for ver: nat := 1 to 11
      invariant forall u: Version :: u < ver ==> n > MaxBytes(u)
    {
      var v: Version := ver;
      var dataCw := Info(v).total - Info(v).ecPerBlock * Info(v).blocks;
      var lenBits := if v < 10 then 8 else 16;
      if n <= (dataCw * 8 - 4 - lenBits) / 8 {
        Capacities();
        return v;
      }
    }
    assert n > MaxBytes(10);
    Capacities();
    return 10;
  }

  // ----- the codewords

  const MODE: Bits := [false, true, false, false]

  function Stream(payload: seq<Byte>, v: Version): (r: Bits)
    ensures |r| == StreamLen(|payload|, v)
  {
    MODE + NatBits(|payload|, CountBits(v)) + ByteBits(payload)
  }

  function Off(n: nat): (r: Bits)
    ensures |r| == n
  {
    seq(n, _ => false)
  }

  function TerminatorLen(len: nat, v: Version): nat {
    if len >= DataTotal(v) * 8 then 0
    else if DataTotal(v) * 8 - len < 4 then DataTotal(v) * 8 - len
    else 4
  }

  /** The zeros that end the stream: the terminator, then up to a byte boundary. */
  function Tail(len: nat, v: Version): (r: Bits)
    ensures (len + |r|) % 8 == 0
  {
    var t := TerminatorLen(len, v);
    Off(t + (8 - (len + t) % 8) % 8)
  }

  /** Alternating pad bytes. */
  function Pad(n: nat): (r: seq<Byte>)
    ensures |r| == n
  {
    seq(n, i => if i % 2 == 0 then 0xEC else 0x11)
  }

  /** The data codewords; longer than the version holds when the payload does not fit. */
  function Encoded(payload: seq<Byte>, v: Version): seq<Byte> {
    var bits := Stream(payload, v);
    var packed := Pack(bits + Tail(|bits|, v));
    packed + Pad(if |packed| < DataTotal(v) then DataTotal(v) - |packed| else 0)
  }

  lemma OffNone()
    ensures Off(0) == []
  {}

  lemma OffNext(n: nat)
    ensures Off(n + 1) == Off(n) + [false]
  {}

  method Terminate(stream: Bits, v: Version) returns (bits: Bits)
    ensures bits == stream + Tail(|stream|, v)
  {
    hide Off, DataTotal;
    var maxBits := DataTotal(v) * 8;
    var termLen := if maxBits - |stream| < 4 then maxBits - |stream| else 4;
    bits := stream;
    if termLen > 0 {
      bits := bits + Off(termLen);
    }
    ghost var t := TerminatorLen(|stream|, v);
    OffNone();
    assert bits == stream + Off(t);
    bits := FillByte(bits);
    OffJoin(t, |bits| - |stream| - t);
  }

  /** Zeros up to a byte boundary. */
  method FillByte(start: Bits) returns (bits: Bits)
    ensures bits == start + Off((8 - |start| % 8) % 8)
  {
    hide Off;
    bits := start;
    OffNone();
    var n := 0;
    while |bits| % 8 != 0
      invariant bits == start + Off(n) && n <= (8 - |start| % 8) % 8
      decreases 8 - n
    {
      OffNext(n);
      bits := bits + [false];
      n := n + 1;
    }
    BoundaryReached(|start|, |bits|);
  }

  lemma OffJoin(m: nat, n: nat)
    ensures Off(m) + Off(n) == Off(m + n)
  {}

  lemma BoundaryReached(len: nat, n: nat)
    requires n % 8 == 0 && len <= n <= len + (8 - len % 8) % 8
    ensures n == len + (8 - len % 8) % 8
  {}

  method PadCodewords(packed: seq<Byte>, v: Version) returns (codewords: seq<Byte>)
    ensures codewords == packed + Pad(if |packed| < DataTotal(v) then DataTotal(v) - |packed| else 0)
  {
    codewords := packed;
    var padIdx := 0;
    while |codewords| < DataTotal(v)
      invariant codewords == packed + Pad(padIdx)
      invariant |codewords| <= DataTotal(v) || padIdx == 0
    {
      codewords := codewords + [if padIdx % 2 == 0 then 0xEC else 0x11];
      padIdx := padIdx + 1;
    }
  }

  method BuildCodewords(payload: seq<Byte>, v: Version) returns (codewords: seq<Byte>)
    ensures codewords == Encoded(payload, v)
  {
    hide NatBits, ByteBits, Pack, Tail, Pad;
    var bits := AppendNat(MODE, |payload|, CountBits(v));
    bits := AppendBytes(bits, payload);
    bits := Terminate(bits, v);
    codewords := PackBytes(bits);
    codewords := PadCodewords(codewords, v);
  }

  // ----- reading the payload back

  /** n bytes' worth of bits from a position. */
  function Taken(bits: Bits, start: nat, n: nat): (r: Bits)
    requires start + 8 * n <= |bits|
    ensures |r| == 8 * n && |r| % 8 == 0
  {
    bits[start..start + 8 * n]
  }

  /** Mode, count and that many bytes; what follows them is ignored. */
  function Parse(codewords: seq<Byte>, v: Version): Option<seq<Byte>> {
    var bits := ByteBits(codewords);
    var start := 4 + CountBits(v);
    if |bits| < start || bits[..4] != MODE then None
    else
      var count := BitsNat(bits[4..start]);
      if |bits| < start + 8 * count then None
      else Some(Pack(Taken(bits, start, count)))
  }

  lemma ParseLength(codewords: seq<Byte>, v: Version)
    ensures Parse(codewords, v).Some? ==> StreamLen(|Parse(codewords, v).value|, v) <= 8 * |codewords|
  {}

  lemma EncodedBits(payload: seq<Byte>, v: Version) returns (rest: Bits)
    ensures ByteBits(Encoded(payload, v)) == Stream(payload, v) + rest
  {
    hide NatBits, ByteBits, Pack, Pad;
    var bits := Stream(payload, v);
    var tail := Tail(|bits|, v);
    ByteBitsPack(bits + tail);
    var packed := Pack(bits + tail);
    var pad := Pad(if |packed| < DataTotal(v) then DataTotal(v) - |packed| else 0);
    ByteBitsAppend(packed, pad);
    rest := tail + ByteBits(pad);
    assert bits + tail + ByteBits(pad) == bits + rest;
  }

  /** A payload that fits fills the data codewords exactly. */
  lemma EncodedLength(payload: seq<Byte>, v: Version)
    ensures |payload| <= MaxBytes(v) ==> |Encoded(payload, v)| == DataTotal(v)
    ensures |Encoded(payload, v)| >= DataTotal(v)
  {
    FitsIff(|payload|, v);
  }

  /** Whatever follows the stream, parsing returns the payload. */
  lemma ParseStream(codewords: seq<Byte>, payload: seq<Byte>, v: Version, rest: Bits)
    requires ByteBits(codewords) == Stream(payload, v) + rest
    requires |payload| < Pow2(CountBits(v))
    ensures Parse(codewords, v) == Some(payload)
  {
    hide NatBits, ByteBits, Pack, BitsNat, Pow2;
    var bits := ByteBits(codewords);
    var start := 4 + CountBits(v);
    NatRoundTrip(|payload|, CountBits(v));
    assert bits[..4] == MODE;
    assert bits[4..start] == NatBits(|payload|, CountBits(v));
    assert bits[start..start + 8 * |payload|] == ByteBits(payload);
    PackByteBits(payload);
  }

  lemma CountFits(n: nat, v: Version)
    requires n <= MaxBytes(v)
    ensures n < Pow2(CountBits(v))
  {
    assert Pow2(8) == 256 && Pow2(16) == 65536;
    if v == 10 { Capacities(); } else { SmallVersions(v); }
  }

  lemma SmallVersions(v: Version)
    requires v < 10
    ensures MaxBytes(v) <= 230
  {}

  /** The codewords the block split takes: the first DataTotal(v). */
  function DataCodewords(payload: seq<Byte>, v: Version): (r: seq<Byte>)
    ensures |r| == DataTotal(v)
  {
    EncodedLength(payload, v);
    Encoded(payload, v)[..DataTotal(v)]
  }

  /** The codewords in the symbol give the payload back exactly when it fits the version. */
  lemma ParseEncoded(payload: seq<Byte>, v: Version)
    ensures |payload| <= MaxBytes(v) <==>
      Parse(DataCodewords(payload, v), v) == Some(payload)
  {
    hide NatBits, ByteBits, Pack, BitsNat, Parse, Encoded, Stream;
    var all := Encoded(payload, v);
    EncodedLength(payload, v);
    if |payload| <= MaxBytes(v) {
      assert all[..DataTotal(v)] == all;
      CountFits(|payload|, v);
      var rest := EncodedBits(payload, v);
      ParseStream(all, payload, v, rest);
    } else {
      FitsIff(|payload|, v);
      ParseLength(all[..DataTotal(v)], v);
    }
  }
}
