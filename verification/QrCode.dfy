/** The whole generator, and the reader that undoes it. */
module QrCode {
  import opened GaloisField
  import opened GaloisAlgebra
  import opened BitStream
  import opened Codewords
  import opened Wrappers
  import opened Blocks
  import opened QrLayout
  import opened QrMatrix
  import ReedSolomon

  // ----- the codeword sequence of a symbol

  function DataBlocks(payload: seq<Byte>, v: Version): (blocks: seq<seq<Byte>>)
    ensures Cut(blocks, DataTotal(v), Info(v).blocks)
  {
    Split(DataCodewords(payload, v), Info(v).blocks)
  }

  function EcBlocks(blocks: seq<seq<Byte>>, v: Version): (ec: seq<seq<Byte>>)
    ensures |ec| == |blocks| && forall b :: 0 <= b < |ec| ==> |ec[b]| == Info(v).ecPerBlock
  {
    seq(|blocks|, b requires 0 <= b < |blocks| => ReedSolomon.CheckBytes(blocks[b], Info(v).ecPerBlock))
  }

  /** Interleaved data blocks, then interleaved check blocks. */
  function Interleaved(payload: seq<Byte>, v: Version): seq<Byte> {
    var blocks := DataBlocks(payload, v);
    Interleave(blocks, Columns(DataTotal(v), Info(v).blocks))
    + Interleave(EcBlocks(blocks, v), Info(v).ecPerBlock)
  }

  lemma EqualCut(ec: seq<seq<Byte>>, v: Version)
    requires |ec| == Info(v).blocks && forall b :: 0 <= b < |ec| ==> |ec[b]| == Info(v).ecPerBlock
    ensures var e, k := Info(v).ecPerBlock, Info(v).blocks;
      Cut(ec, e * k, k) && Columns(e * k, k) == e && DataTotal(v) + e * k == Info(v).total
  {}

  lemma Halves<T>(s: seq<T>, p: seq<T>, q: seq<T>)
    requires s == p + q
    ensures s[..|p|] == p && s[|p|..] == q
  {}

  lemma EcShape(blocks: seq<seq<Byte>>, v: Version)
    requires |blocks| == Info(v).blocks
    ensures var ec := EcBlocks(blocks, v); |ec| == Info(v).blocks && forall b :: 0 <= b < |ec| ==>
      |ec[b]| == Info(v).ecPerBlock
  {}

  /** Both parts come back from an interleaved sequence. */
  lemma InterleavedParts(payload: seq<Byte>, v: Version)
    ensures var s, d, k := Interleaved(payload, v), DataTotal(v), Info(v).blocks;
      && |s| == Info(v).total
      && Deinterleave(s[..d], k) == DataBlocks(payload, v)
      && Deinterleave(s[d..], k) == EcBlocks(DataBlocks(payload, v), v)
  {
    hide Interleave, Deinterleave, EcBlocks, Cut, Columns, DataTotal, Split;
    var blocks := DataBlocks(payload, v);
    var d, e, k := DataTotal(v), Info(v).ecPerBlock, Info(v).blocks;
    DeinterleaveInterleave(blocks, d, k);
    EcShape(blocks, v);
    var ec := EcBlocks(blocks, v);
    EqualCut(ec, v);
    DeinterleaveInterleave(ec, e * k, k);
    Halves(Interleaved(payload, v), Interleave(blocks, Columns(d, k)), Interleave(ec, e));
  }

  // ----- the reader

  /** The version a symbol's side length with its quiet zone tells. */
  function VersionOf(matrix: Bitmap, border: nat): Option<Version> {
    var side := |matrix| - 2 * border - 17;
    if side >= 4 && side % 4 == 0 && side / 4 <= 10 then Some(side / 4) else None
  }

  predicate Dark(matrix: Bitmap, r: int, c: int) {
    0 <= r < |matrix| && 0 <= c < |matrix[r]| && matrix[r][c]
  }

  /** Strip the border, follow the zig-zag over the data modules, undo mask 0. */
  function ReadBits(matrix: Bitmap, border: nat, v: Version): (bits: Bits)
    ensures |bits| == 8 * Info(v).total
  {
    PlacementIsBijection(v);
    var slots := Slots(v);
    seq(8 * Info(v).total, k requires 0 <= k < 8 * Info(v).total =>
      Dark(matrix, slots[k].r + border, slots[k].c + border) != ((slots[k].r + slots[k].c) % 2 == 0))
  }

  function ReadSequence(matrix: Bitmap, border: nat, v: Version): (s: seq<Byte>)
    ensures |s| == Info(v).total
  {
    hide *;
    Pack(ReadBits(matrix, border, v))
  }

  /** The data blocks and the check blocks of a symbol. */
  function ReadBlocks(matrix: Bitmap, border: nat, v: Version): (seq<seq<Byte>>, seq<seq<Byte>>) {
    var s := ReadSequence(matrix, border, v);
    (Deinterleave(s[..DataTotal(v)], Info(v).blocks), Deinterleave(s[DataTotal(v)..], Info(v).blocks))
  }

  function Decode(matrix: Bitmap, border: nat): Option<seq<Byte>> {
    var v := VersionOf(matrix, border);
    if v.None? then None else Parse(Join(ReadBlocks(matrix, border, v.value).0), v.value)
  }

  // ----- what a drawn symbol reads as

  /** A finished symbol inside its quiet zone. */
  ghost predicate Bordered(matrix: Bitmap, border: nat, g: Bitmap, v: Version) {
    && Square(g, Size(v)) && Square(matrix, Size(v) + 2 * border)
    && forall r, c :: 0 <= r < |matrix| && 0 <= c < |matrix| ==>
         matrix[r][c] == (0 <= r - border < Size(v) && 0 <= c - border < Size(v) && g[r - border][c - border])
  }

  lemma BorderedVersion(matrix: Bitmap, border: nat, g: Bitmap, v: Version)
    requires Bordered(matrix, border, g, v)
    ensures VersionOf(matrix, border) == Some(v)
  {}

  lemma ReadShown(matrix: Bitmap, border: nat, g: Bitmap, v: Version, bits: Bits)
    requires Bordered(matrix, border, g, v) && Shows(g, v, bits) && |bits| == 8 * Info(v).total
    ensures ReadBits(matrix, border, v) == bits
  {
    hide Slots, IsFunction;
    PlacementIsBijection(v);
    var slots := Slots(v);
    forall k | 0 <= k < |bits| ensures ReadBits(matrix, border, v)[k] == bits[k] {
      assert Grid(v).Has(slots[k]);
      assert g[slots[k].r][slots[k].c] == DataModule(bits, k, slots[k]);
    }
  }

  /** A symbol drawn for a payload reads back as its data blocks and their check blocks. */
  lemma ReadDrawn(matrix: Bitmap, border: nat, g: Bitmap, v: Version, payload: seq<Byte>)
    requires Bordered(matrix, border, g, v) && Shows(g, v, ByteBits(Interleaved(payload, v)))
    ensures ReadBlocks(matrix, border, v) == (DataBlocks(payload, v), EcBlocks(DataBlocks(payload, v), v))
    ensures Decode(matrix, border) == Parse(DataCodewords(payload, v), v)
  {
    hide Interleaved, DataBlocks, EcBlocks, DataCodewords, Deinterleave, Slots, Shows, Bordered, ReadBits, Pack,
      ByteBits, Parse;
    InterleavedParts(payload, v);
    ReadShown(matrix, border, g, v, ByteBits(Interleaved(payload, v)));
    PackByteBits(Interleaved(payload, v));
    BorderedVersion(matrix, border, g, v);
    JoinBlocks(payload, v);
  }

  lemma JoinBlocks(payload: seq<Byte>, v: Version)
    ensures Join(DataBlocks(payload, v)) == DataCodewords(payload, v)
  {
    JoinSplit(DataCodewords(payload, v), Info(v).blocks);
  }

  /** Every block read from a symbol completes to a Reed-Solomon code word. */
  lemma SymbolBlocksAreCodewords(payload: seq<Byte>, v: Version, b: nat)
    requires b < Info(v).blocks
    ensures var blocks := DataBlocks(payload, v);
      ReedSolomon.IsCodeword(blocks[b] + EcBlocks(blocks, v)[b], Info(v).ecPerBlock)
  {
    hide ReedSolomon.IsCodeword, DataBlocks;
    ReedSolomon.EncodedIsCodeword(DataBlocks(payload, v)[b], Info(v).ecPerBlock);
  }

  lemma BlockLengths(v: Version, b: nat)
    requires b < Info(v).blocks
    ensures BlockLen(DataTotal(v), Info(v).blocks, b) + Info(v).ecPerBlock <= 255
  {}

  /**
    Up to half as many damaged bytes as check bytes in a block leave one code
    word in reach, the block that was drawn.
  */
  lemma DamagedBlockRecoverable(payload: seq<Byte>, v: Version, b: nat, received: seq<Byte>, guess: seq<Byte>)
    requires b < Info(v).blocks
    requires var blocks := DataBlocks(payload, v);
      var sent := blocks[b] + EcBlocks(blocks, v)[b];
      |received| == |guess| == |sent|
      && 2 * ReedSolomon.Distance(sent, received) <= Info(v).ecPerBlock
      && 2 * ReedSolomon.Distance(guess, received) <= Info(v).ecPerBlock
    requires ReedSolomon.IsCodeword(guess, Info(v).ecPerBlock)
    ensures guess[..|DataBlocks(payload, v)[b]|] == DataBlocks(payload, v)[b]
  {
    hide ReedSolomon.IsCodeword, ReedSolomon.Distance, DataBlocks, EcBlocks;
    var blocks := DataBlocks(payload, v);
    var sent := blocks[b] + EcBlocks(blocks, v)[b];
    SymbolBlocksAreCodewords(payload, v, b);
    BlockLengths(v, b);
    ReedSolomon.UniqueCorrection(sent, guess, received, Info(v).ecPerBlock);
  }

  // ----- the generator

  method MaxBlockLen(blocks: seq<seq<Byte>>, n: nat, k: nat) returns (m: nat)
    requires k > 0 && Cut(blocks, n, k)
    ensures m == Columns(n, k)
  {
    m := |blocks[0]|;
    for b := 1 to k
      invariant forall a :: 0 <= a < b ==> |blocks[a]| <= m
      invariant exists a :: 0 <= a < b && |blocks[a]| == m
    {
      if |blocks[b]| > m {
        m := |blocks[b]|;
      }
    }
    assert |blocks[k - 1]| == Columns(n, k);
  }

  method BuildSequence(t: Tables, payload: seq<Byte>, v: Version) returns (s: seq<Byte>)
    requires t.Valid()
    ensures s == Interleaved(payload, v)
  {
    hide Encoded, ReedSolomon.CheckBytes, Split, Interleave, BlockLen, Columns;
    var codewords := BuildCodewords(payload, v);
    EncodedLength(payload, v);
    var dataTotal, ecLen := DataTotal(v), Info(v).ecPerBlock;
    var dataBlocks := SplitBlocks(codewords[..dataTotal], Info(v).blocks);
    assert dataBlocks == DataBlocks(payload, v);
    var ecBlocks: seq<seq<Byte>> := [];
    for b := 0 to |dataBlocks|
      invariant ecBlocks == EcBlocks(dataBlocks, v)[..b]
    {
      var ec := ReedSolomon.Encode(t, dataBlocks[b], ecLen);
      ecBlocks := ecBlocks + [ec];
    }
    assert EcBlocks(dataBlocks, v)[..|dataBlocks|] == EcBlocks(dataBlocks, v);
    var columns := MaxBlockLen(dataBlocks, dataTotal, Info(v).blocks);
    var data := InterleaveBlocks(dataBlocks, columns);
    var check := InterleaveBlocks(ecBlocks, ecLen);
    s := data + check;
  }

  method AddBorder(g: Bitmap, v: Version, border: nat) returns (matrix: Bitmap)
    requires Square(g, Size(v))
    ensures Bordered(matrix, border, g, v)
  {
    var size := Size(v);
    var row: seq<bool> := seq(size + 2 * border, _ => false);
    matrix := seq(size + 2 * border, _ => row);
    for r := 0 to size
      invariant Square(matrix, size + 2 * border)
      invariant forall i, j :: 0 <= i < |matrix| && 0 <= j < |matrix| ==>
        matrix[i][j] == (0 <= i - border < r && 0 <= j - border < size && g[i - border][j - border])
    {
      for c := 0 to size
        invariant Square(matrix, size + 2 * border)
        invariant forall i, j :: 0 <= i < |matrix| && 0 <= j < |matrix| ==>
          matrix[i][j] == (0 <= i - border && 0 <= j - border < size
                           && (i - border < r || (i - border == r && j - border < c)) && g[i - border][j - border])
      {
        matrix := matrix[r + border := matrix[r + border][c + border := g[r][c]]];
      }
    }
  }

  /**
    The generator: the smallest version that fits, and a symbol that reads back
    as the payload exactly when the payload has at most 271 bytes.
  */
  method GenerateQrMatrix(t: Tables, payload: seq<Byte>, border: nat) returns (matrix: Bitmap)
    requires t.Valid()
    ensures Decode(matrix, border) == Some(payload) <==> |payload| <= LARGEST
    ensures exists v: Version, g :: Bordered(matrix, border, g, v) && Shows(g, v, ByteBits(Interleaved(payload, v)))
              && (|payload| <= LARGEST ==> |payload| <= MaxBytes(v))
              && (|payload| > LARGEST ==> v == 10)
              && (forall u: Version :: u < v ==> |payload| > MaxBytes(u))
  {
    hide Interleaved, Shows, Bordered, Decode, Parse, DataCodewords, ByteBits, Slots;
    var v := ChooseVersion(|payload|);
    var s := BuildSequence(t, payload, v);
    var bits := AppendBytes([], s);
    assert [] + ByteBits(s) == ByteBits(s);
    var m := new Matrix(v);
    m.Draw(bits);
    SquareShown(m.modules, v, bits);
    matrix := AddBorder(m.modules, v, border);
    ReadDrawn(matrix, border, m.modules, v, payload);
    ParseEncoded(payload, v);
    Capacities();
    assert Bordered(matrix, border, m.modules, v) && Shows(m.modules, v, ByteBits(Interleaved(payload, v)));
  }

  lemma SquareShown(g: Bitmap, v: Version, bits: Bits)
    requires Shows(g, v, bits)
    ensures Square(g, Size(v))
  {}
}
