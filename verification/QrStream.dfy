/**
  What the codewords of a symbol are, bit by bit and byte by byte: capacities,
  header, payload, padding, and the order they are interleaved in. As with the
  pictures, everything is spelled out in the payload's own bytes.
*/
module QrStream {
  import opened Binary
  import opened GaloisField
  import opened BitStream
  import opened Codewords
  import opened Blocks
  import opened QrCode
  import ReedSolomon

  /** Total codewords, check codewords per block, blocks and bytes of payload, version by version. */
  lemma CapacityTable(v: Version)
    ensures var c := Info(v);
      (c.total, c.ecPerBlock, c.blocks, MaxBytes(v)) ==
      if v == 1 then (26, 7, 1, 17)
      else if v == 2 then (44, 10, 1, 32)
      else if v == 3 then (70, 15, 1, 53)
      else if v == 4 then (100, 20, 1, 78)
      else if v == 5 then (134, 26, 1, 106)
      else if v == 6 then (172, 18, 2, 134)
      else if v == 7 then (196, 20, 2, 154)
      else if v == 8 then (242, 24, 2, 192)
      else if v == 9 then (292, 30, 2, 230)
      else (346, 18, 4, 271)
  {}

  // ----- bits of numbers and bytes

  /** The most significant bit comes first. */
  lemma {:induction false} NatBitsAt(n: nat, w: nat, i: nat)
    requires i < w
    ensures NatBits(n, w)[i] == ((n / Pow2(w - 1 - i)) % 2 == 1)
    decreases w
  {
    hide Bit, Pow2;
    if i == 0 {
      BitIs(n, w - 1);
    } else {
      NatBitsAt(n, w - 1, i - 1);
    }
  }

  lemma {:induction false} ByteBitsAt(data: seq<Byte>, j: nat, i: nat)
    requires j < |data| && i < 8
    ensures 8 * j + i < |ByteBits(data)|
    ensures ByteBits(data)[8 * j + i] == ((data[j] / Pow2(7 - i)) % 2 == 1)
    decreases j
  {
    hide NatBits, Pow2;
    if j == 0 {
      NatBitsAt(data[0], 8, i);
    } else {
      ByteBitsAt(data[1..], j - 1, i);
    }
  }

  // ----- the data codewords

  lemma StreamPieces(payload: seq<Byte>, v: Version)
    ensures var w := if v < 10 then 8 else 16;
      && Stream(payload, v) == [false, true, false, false] + NatBits(|payload|, w) + ByteBits(payload)
      && |Stream(payload, v)| == 4 + w + 8 * |payload|
  {}

  /** When the payload fits, four zeros end the stream on a byte boundary. */
  lemma TailIsFourZeros(payload: seq<Byte>, v: Version)
    requires |payload| <= MaxBytes(v)
    ensures Tail(|Stream(payload, v)|, v) == [false, false, false, false]
  {
    hide DataTotal, Stream, MaxBytes, Off;
    FitsIff(|payload|, v);
    var len := |Stream(payload, v)|;
    HalfByte(len, |payload| + CountBits(v) / 8, DataTotal(v));
    FourOff();
  }

  lemma HalfByte(len: nat, n: nat, total: nat)
    requires len == 8 * n + 4 && len <= 8 * total
    ensures len + 4 <= 8 * total && (8 - (len + 4) % 8) % 8 == 0
  {}

  lemma FourOff()
    ensures Off(4) == [false, false, false, false]
  {}

  /** The stream with its four zeros. */
  function Filled(payload: seq<Byte>, v: Version): (r: Bits)
    ensures |r| % 8 == 0
  {
    Stream(payload, v) + [false, false, false, false]
  }

  lemma PackedLength(payload: seq<Byte>, v: Version)
    requires |payload| <= MaxBytes(v)
    ensures |Pack(Filled(payload, v))| == |payload| + (if v < 10 then 2 else 3) <= DataTotal(v)
    ensures DataCodewords(payload, v) == Pack(Filled(payload, v)) + Pad(DataTotal(v) - |Pack(Filled(payload, v))|)
  {
    hide DataTotal, Stream, Pad, Pack, Tail;
    StreamPieces(payload, v);
    TailIsFourZeros(payload, v);
    FitsIff(|payload|, v);
    EncodedLength(payload, v);
    var all := Encoded(payload, v);
    assert all[..DataTotal(v)] == all;
  }

  /** The data codewords as bits: the stream, four zeros and the pad bytes. */
  lemma CodewordBits(payload: seq<Byte>, v: Version) returns (pad: Bits)
    requires |payload| <= MaxBytes(v)
    ensures ByteBits(DataCodewords(payload, v)) == Filled(payload, v) + pad
  {
    hide Pack, ByteBits, DataTotal, Filled, MaxBytes, Pad, DataCodewords;
    PackedLength(payload, v);
    var packed := Pack(Filled(payload, v));
    pad := ByteBits(Pad(DataTotal(v) - |packed|));
    ByteBitsPack(Filled(payload, v));
    ByteBitsAppend(packed, Pad(DataTotal(v) - |packed|));
  }

  /** Mode 0100 and the number of bytes, the highest bit first. */
  lemma HeaderLayout(payload: seq<Byte>, v: Version, i: nat)
    requires |payload| <= MaxBytes(v) && i < (if v < 10 then 8 else 16)
    ensures var w := if v < 10 then 8 else 16;
      var bits := ByteBits(DataCodewords(payload, v));
      && |bits| >= 4 + w
      && bits[..4] == [false, true, false, false]
      && bits[4 + i] == ((|payload| / Pow2(w - 1 - i)) % 2 == 1)
  {
    hide Pack, NatBits, ByteBits, DataTotal, Pow2, Stream, MaxBytes, Pad, DataCodewords;
    var _ := CodewordBits(payload, v);
    StreamPieces(payload, v);
    NatBitsAt(|payload|, if v < 10 then 8 else 16, i);
  }

  /** The bits of the bytes follow, then four zeros. */
  lemma PayloadLayout(payload: seq<Byte>, v: Version, j: nat, i: nat)
    requires |payload| <= MaxBytes(v) && i < 8
    ensures var head := if v < 10 then 12 else 20;
      var bits := ByteBits(DataCodewords(payload, v));
      && |bits| >= head + 8 * |payload| + 4
      && (j < |payload| ==> bits[head + 8 * j + i] == ((payload[j] / Pow2(7 - i)) % 2 == 1))
      && (i < 4 ==> !bits[head + 8 * |payload| + i])
  {
    hide Pack, NatBits, ByteBits, DataTotal, Pow2, Stream, MaxBytes, Pad, DataCodewords;
    var _ := CodewordBits(payload, v);
    StreamPieces(payload, v);
    if j < |payload| {
      ByteBitsAt(payload, j, i);
    }
  }

  /** The rest is filled with 0xEC and 0x11 by turns. */
  lemma PadLayout(payload: seq<Byte>, v: Version, j: nat)
    requires |payload| <= MaxBytes(v)
    ensures var head := |payload| + if v < 10 then 2 else 3;
      && |DataCodewords(payload, v)| == DataTotal(v) >= head
      && (j < DataTotal(v) - head ==> DataCodewords(payload, v)[head + j] == if j % 2 == 0 then 0xEC else 0x11)
  {
    hide Pack, DataTotal, Stream, MaxBytes, DataCodewords;
    PackedLength(payload, v);
  }

  lemma {:induction false} ByteBitsPart(data: seq<Byte>, n: nat)
    requires n <= |data|
    ensures ByteBits(data[..n]) == ByteBits(data)[..8 * n]
  {
    hide ByteBits;
    assert data == data[..n] + data[n..];
    ByteBitsAppend(data[..n], data[n..]);
  }

  lemma Roomy(v: Version)
    ensures DataTotal(v) >= 19
  {}

  /** The codewords of a payload that does not fit are the first of its stream. */
  lemma OverlongBits(payload: seq<Byte>, v: Version)
    requires |payload| > MaxBytes(v)
    ensures var bits := ByteBits(DataCodewords(payload, v));
      && |bits| == 8 * DataTotal(v) >= 152
      && |bits| <= |Stream(payload, v)| && bits == Stream(payload, v)[..|bits|]
  {
    hide Pack, NatBits, ByteBits, DataTotal, Stream, MaxBytes, Pad, Tail;
    FitsIff(|payload|, v);
    Roomy(v);
    var stream := Stream(payload, v);
    var filled := stream + Tail(|stream|, v);
    ByteBitsPack(filled);
    assert |Pack(filled)| > DataTotal(v);
    assert Encoded(payload, v) == Pack(filled) + Pad(0) == Pack(filled);
    ByteBitsPart(Pack(filled), DataTotal(v));
  }

  /**
    A payload that does not fit is cut off: header and bytes stand where they would,
    as far as there is room.
  */
  lemma OverlongLayout(payload: seq<Byte>, v: Version, j: nat, i: nat)
    requires |payload| > MaxBytes(v) && j < |payload|
    ensures var w := if v < 10 then 8 else 16;
      var bits := ByteBits(DataCodewords(payload, v));
      && |bits| == 8 * DataTotal(v) > 4 + w && bits[..4] == [false, true, false, false]
      && (i < w ==> bits[4 + i] == ((|payload| / Pow2(w - 1 - i)) % 2 == 1))
      && (i < 8 && 4 + w + 8 * j + i < |bits| ==>
            bits[4 + w + 8 * j + i] == ((payload[j] / Pow2(7 - i)) % 2 == 1))
  {
    hide NatBits, ByteBits, DataTotal, Pow2, Stream, MaxBytes, DataCodewords;
    StreamPieces(payload, v);
    OverlongBits(payload, v);
    var w := if v < 10 then 8 else 16;
    if i < w {
      NatBitsAt(|payload|, w, i);
    }
    if i < 8 {
      ByteBitsAt(payload, j, i);
    }
  }

  // ----- blocks and interleaving

  /** Where block b starts when n bytes are cut k ways, the longer blocks last. */
  function Start(n: nat, k: nat, b: nat): nat
    requires 0 < k && b <= k
  {
    b * (n / k) + if b > k - n % k then b - (k - n % k) else 0
  }

  lemma BlockIs<T>(data: seq<T>, k: nat, b: nat)
    requires b < k
    ensures Start(|data|, k, b) <= Start(|data|, k, b + 1) <= |data|
    ensures Split(data, k)[b] == data[Start(|data|, k, b)..Start(|data|, k, b + 1)]
    ensures |Split(data, k)[b]| == |data| / k + if b < k - |data| % k then 0 else 1
  {
    OffsetNext(|data|, k, b);
    OffsetMonotone(|data|, k, b + 1, k);
    OffsetEnds(|data|, k);
  }

  /** Place b of row i when rows are k wide. */
  function At(k: nat, i: nat, b: nat): nat {
    i * k + b
  }

  /** The first rows hold a byte of every block in turn, a last shorter row one of each longer block. */
  lemma InterleavedAt<T>(blocks: seq<seq<T>>, n: nat, k: nat, b: nat, i: nat)
    requires k > 0 && Cut(blocks, n, k) && b < k
    ensures var s := Interleave(blocks, Columns(n, k));
      var q, short := n / k, k - n % k;
      && |s| == n
      && (i < q ==> i < |blocks[b]| && At(k, i, b) < n && s[At(k, i, b)] == blocks[b][i])
      && (b >= short ==>
            q < |blocks[b]| && At(k, q, b - short) < n && s[At(k, q, b - short)] == blocks[b][q])
  {
    hide Interleave, Columns;
    InterleaveSlots(blocks, n, k);
    if i < n / k {
      assert Slot(n, k, b, i) == At(k, i, b);
    }
    if b >= k - n % k {
      assert Slot(n, k, b, n / k) == At(k, n / k, b - (k - n % k));
    }
  }

  /** The sequence drawn begins with the data bytes, row by row over the blocks. */
  lemma DataBytesLayout(payload: seq<Byte>, v: Version, k: nat, b: nat, i: nat)
    requires b < k == Info(v).blocks
    ensures var s, data := Interleaved(payload, v), DataCodewords(payload, v);
      var n := |data|;
      var q, short := n / k, k - n % k;
      && |s| == Info(v).total && n == DataTotal(v)
      && Start(n, k, b) + q <= n
      && (i < q ==> At(k, i, b) < |s| && s[At(k, i, b)] == data[Start(n, k, b) + i])
      && (b >= short ==>
            Start(n, k, b) + q < n && At(k, q, b - short) < |s| && s[At(k, q, b - short)] == data[Start(n, k, b) + q])
  {
    hide Interleave, Columns, Start, Cut, DataTotal, EcBlocks, Deinterleave, DataCodewords;
    var data := DataCodewords(payload, v);
    var blocks := DataBlocks(payload, v);
    InterleavedParts(payload, v);
    BlockIs(data, k, b);
    InterleavedAt(blocks, |data|, k, b, i);
  }

  /** Then come the check bytes of the blocks, row by row. */
  lemma CheckBytesLayout(payload: seq<Byte>, v: Version, b: nat, i: nat)
    requires b < Info(v).blocks && i < Info(v).ecPerBlock
    ensures var s, data, k := Interleaved(payload, v), DataCodewords(payload, v), Info(v).blocks;
      var from, to := Start(|data|, k, b), Start(|data|, k, b + 1);
      && from <= to <= |data| && |data| + At(k, i, b) < |s|
      && s[|data| + At(k, i, b)] == ReedSolomon.CheckBytes(data[from..to], Info(v).ecPerBlock)[i]
  {
    hide Interleave, Columns, Start, Cut, DataTotal, Deinterleave, DataCodewords, ReedSolomon.CheckBytes;
    var data, k, e := DataCodewords(payload, v), Info(v).blocks, Info(v).ecPerBlock;
    var blocks := DataBlocks(payload, v);
    InterleavedParts(payload, v);
    BlockIs(data, k, b);
    EcShape(blocks, v);
    var ec := EcBlocks(blocks, v);
    EqualCut(ec, v);
    EvenParts(e, k);
    InterleavedAt(ec, e * k, k, b, i);
  }

  lemma EvenParts(e: nat, k: nat)
    requires k > 0
    ensures e * k / k == e && e * k % k == 0
  {
    QuotientIs(e * k, k, e, 0);
  }
}
