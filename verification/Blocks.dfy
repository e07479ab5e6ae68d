/** Splitting the data into blocks and interleaving them. */
module Blocks {

  /** Blocks of n bytes cut k ways: the last n % k blocks are one longer. */
  function BlockLen(n: nat, k: nat, b: nat): nat
    requires b < k
  {
    n / k + (if b >= k - n % k then 1 else 0)
  }

  /** Where block b starts. */
  function Offset(n: nat, k: nat, b: nat): nat
    requires b <= k && k > 0
  {
    b * (n / k) + (if b >= k - n % k then b - (k - n % k) else 0)
  }

  lemma OffsetNext(n: nat, k: nat, b: nat)
    requires b < k
    ensures Offset(n, k, b + 1) == Offset(n, k, b) + BlockLen(n, k, b)
  {
    assert (b + 1) * (n / k) == b * (n / k) + n / k;
  }

  lemma OffsetEnds(n: nat, k: nat)
    requires k > 0
    ensures Offset(n, k, 0) == 0 && Offset(n, k, k) == n
  {
    assert k * (n / k) + n % k == n;
  }

  lemma {:induction false} OffsetMonotone(n: nat, k: nat, b: nat, c: nat)
    requires b <= c <= k && k > 0
    ensures Offset(n, k, b) <= Offset(n, k, c)
    decreases c - b
  {
    if b < c {
      OffsetNext(n, k, b);
      OffsetMonotone(n, k, b + 1, c);
    }
  }

  function Block<T>(data: seq<T>, k: nat, b: nat): (blk: seq<T>)
    requires b < k
    ensures |blk| == BlockLen(|data|, k, b)
  {
    OffsetNext(|data|, k, b);
    OffsetMonotone(|data|, k, b + 1, k);
    OffsetEnds(|data|, k);
    data[Offset(|data|, k, b)..Offset(|data|, k, b + 1)]
  }

  function Split<T>(data: seq<T>, k: nat): (blocks: seq<seq<T>>)
    requires k > 0
    ensures |blocks| == k && forall b :: 0 <= b < k ==> |blocks[b]| == BlockLen(|data|, k, b)
  {
    seq(k, b requires 0 <= b < k => Block(data, k, b))
  }

  function Join<T>(blocks: seq<seq<T>>): seq<T> {
    if blocks == [] then [] else Join(blocks[..|blocks| - 1]) + blocks[|blocks| - 1]
  }

  lemma {:induction false} JoinSplitUpTo<T>(data: seq<T>, k: nat, b: nat)
    requires b <= k && k > 0
    ensures Offset(|data|, k, b) <= |data| && Join(Split(data, k)[..b]) == data[..Offset(|data|, k, b)]
  {
    hide Offset, BlockLen;
    OffsetEnds(|data|, k);
    OffsetMonotone(|data|, k, b, k);
    if b > 0 {
      JoinSplitUpTo(data, k, b - 1);
      OffsetNext(|data|, k, b - 1);
      assert Split(data, k)[..b][..b - 1] == Split(data, k)[..b - 1];
    }
  }

  lemma JoinSplit<T>(data: seq<T>, k: nat)
    requires k > 0
    ensures Join(Split(data, k)) == data
  {
    JoinSplitUpTo(data, k, k);
    OffsetEnds(|data|, k);
    assert Split(data, k)[..k] == Split(data, k);
    assert data[..|data|] == data;
  }

  // ----- interleaving

  /** The i-th bytes of the blocks that have one. */
  function Column<T>(blocks: seq<seq<T>>, i: nat): seq<T> {
    if blocks == [] then []
    else Column(blocks[..|blocks| - 1], i)
         + (if i < |blocks[|blocks| - 1]| then [blocks[|blocks| - 1][i]] else [])
  }

  /** The first n columns, one after the other. */
  function Interleave<T>(blocks: seq<seq<T>>, n: nat): seq<T> {
    if n == 0 then [] else Interleave(blocks, n - 1) + Column(blocks, n - 1)
  }

  /** Where byte i of block b lands when n bytes are interleaved k ways. */
  function Slot(n: nat, k: nat, b: nat, i: nat): nat
    requires b < k && i < BlockLen(n, k, b)
  {
    if i < n / k then i * k + b else (n / k) * k + (b - (k - n % k))
  }

  /** The blocks read back out of an interleaved sequence. */
  function Deinterleave<T>(s: seq<T>, k: nat): (blocks: seq<seq<T>>)
    requires k > 0
  {
    seq(k, b requires 0 <= b < k =>
      seq(BlockLen(|s|, k, b), i requires 0 <= i < BlockLen(|s|, k, b) =>
        SlotBound(|s|, k, b, i); s[Slot(|s|, k, b, i)]))
  }

  lemma SlotBound(n: nat, k: nat, b: nat, i: nat)
    requires b < k && i < BlockLen(n, k, b)
    ensures Slot(n, k, b, i) < n
  {
    assert (n / k) * k + n % k == n;
    if i < n / k {
      assert (i + 1) * k <= (n / k) * k;
    }
  }

  /** Blocks cut k ways from n bytes. */
  ghost predicate Cut<T>(blocks: seq<seq<T>>, n: nat, k: nat) {
    |blocks| == k && forall b :: 0 <= b < k ==> |blocks[b]| == BlockLen(n, k, b)
  }

  lemma {:induction false} FullColumn<T>(blocks: seq<seq<T>>, i: nat)
    requires forall b :: 0 <= b < |blocks| ==> i < |blocks[b]|
    ensures |Column(blocks, i)| == |blocks|
    ensures forall b :: 0 <= b < |blocks| ==> Column(blocks, i)[b] == blocks[b][i]
  {
    if blocks != [] {
      FullColumn(blocks[..|blocks| - 1], i);
    }
  }

  lemma {:induction false} ShortColumn<T>(blocks: seq<seq<T>>, i: nat, skip: nat)
    requires skip <= |blocks|
    requires forall b :: 0 <= b < |blocks| ==> (i < |blocks[b]| <==> b >= skip)
    ensures |Column(blocks, i)| == |blocks| - skip
    ensures forall b :: skip <= b < |blocks| ==> Column(blocks, i)[b - skip] == blocks[b][i]
  {
    if |blocks| > skip {
      ShortColumn(blocks[..|blocks| - 1], i, skip);
    } else if blocks != [] {
      NoColumn(blocks, i);
    }
  }

  lemma {:induction false} NoColumn<T>(blocks: seq<seq<T>>, i: nat)
    requires forall b :: 0 <= b < |blocks| ==> i >= |blocks[b]|
    ensures Column(blocks, i) == []
  {
    if blocks != [] {
      NoColumn(blocks[..|blocks| - 1], i);
    }
  }

  lemma NextRow(m: nat, k: nat)
    requires m > 0
    ensures m * k == (m - 1) * k + k
  {}

  /** While every block has a byte left, a column holds one byte of each. */
  lemma CutColumn<T>(blocks: seq<seq<T>>, n: nat, k: nat, i: nat)
    requires k > 0 && Cut(blocks, n, k) && i < n / k
    ensures |Column(blocks, i)| == k && Interleave(blocks, i + 1) == Interleave(blocks, i) + Column(blocks, i)
    ensures forall b :: 0 <= b < k ==> i < |blocks[b]| && Column(blocks, i)[b] == blocks[b][i]
  {
    FullColumn(blocks, i);
  }

  lemma NoRows<T>(blocks: seq<seq<T>>)
    ensures Interleave(blocks, 0) == []
  {}

  lemma {:induction false} FullRows<T>(blocks: seq<seq<T>>, n: nat, k: nat, m: nat)
    requires k > 0 && Cut(blocks, n, k) && m <= n / k
    ensures |Interleave(blocks, m)| == m * k
  {
    hide Interleave, Column, Cut;
    if m == 0 {
      NoRows(blocks);
    } else {
      FullRows(blocks, n, k, m - 1);
      CutColumn(blocks, n, k, m - 1);
      NextRow(m, k);
    }
  }

  lemma {:induction false} FullRowAt<T>(blocks: seq<seq<T>>, n: nat, k: nat, m: nat, b: nat, i: nat)
    requires k > 0 && Cut(blocks, n, k) && m <= n / k && b < k && i < m
    ensures i < |blocks[b]|
    ensures i * k + b < |Interleave(blocks, m)| && Interleave(blocks, m)[i * k + b] == blocks[b][i]
    decreases m
  {
    hide *;
    CutColumn(blocks, n, k, m - 1);
    if i < m - 1 {
      FullRowAt(blocks, n, k, m - 1, b, i);
    } else {
      FullRows(blocks, n, k, i);
    }
  }

  /** The number of columns: the length of the longest block. */
  function Columns(n: nat, k: nat): nat
    requires k > 0
  {
    n / k + (if n % k > 0 then 1 else 0)
  }

  lemma LastColumn<T>(blocks: seq<seq<T>>, n: nat, k: nat)
    requires k > 0 && Cut(blocks, n, k)
    ensures |Column(blocks, n / k)| == n % k
    ensures forall b :: k - n % k <= b < k ==> Column(blocks, n / k)[b - (k - n % k)] == blocks[b][n / k]
  {
    ShortColumn(blocks, n / k, k - n % k);
  }

  /** Interleaving keeps the number of bytes and puts every byte in its slot. */
  lemma InterleaveSlots<T>(blocks: seq<seq<T>>, n: nat, k: nat)
    requires k > 0 && Cut(blocks, n, k)
    ensures |Interleave(blocks, Columns(n, k))| == n
    ensures forall b, i :: 0 <= b < k && 0 <= i < |blocks[b]| ==>
      Slot(n, k, b, i) < n && Interleave(blocks, Columns(n, k))[Slot(n, k, b, i)] == blocks[b][i]
  {
    hide Interleave;
    var q := n / k;
    FullRows(blocks, n, k, q);
    LastColumn(blocks, n, k);
    InterleaveLast(blocks, n, k);
    assert q * k + n % k == n;
    forall b, i | 0 <= b < k && 0 <= i < |blocks[b]|
      ensures Slot(n, k, b, i) < n && Interleave(blocks, Columns(n, k))[Slot(n, k, b, i)] == blocks[b][i]
    {
      SlotBound(n, k, b, i);
      if i < q {
        FullRowAt(blocks, n, k, q, b, i);
      }
    }
  }

  lemma InterleaveLast<T>(blocks: seq<seq<T>>, n: nat, k: nat)
    requires k > 0
    ensures Interleave(blocks, Columns(n, k)) ==
      Interleave(blocks, n / k) + (if n % k > 0 then Column(blocks, n / k) else [])
  {}

  /** De-interleaving undoes interleaving, for any number of blocks and any total length. */
  lemma DeinterleaveInterleave<T>(blocks: seq<seq<T>>, n: nat, k: nat)
    requires k > 0 && Cut(blocks, n, k)
    ensures |Interleave(blocks, Columns(n, k))| == n
    ensures Deinterleave(Interleave(blocks, Columns(n, k)), k) == blocks
  {
    InterleaveSlots(blocks, n, k);
    var s := Interleave(blocks, Columns(n, k));
    forall b | 0 <= b < k ensures Deinterleave(s, k)[b] == blocks[b] {
      assert |Deinterleave(s, k)[b]| == |blocks[b]|;
    }
  }

  // ----- the loops

  method SplitBlocks<T>(data: seq<T>, k: nat) returns (blocks: seq<seq<T>>)
    requires k > 0
    ensures blocks == Split(data, k)
  {
    hide Offset;
    var baseLen, extra := |data| / k, |data| % k;
    blocks := [];
    var offset := 0;
    OffsetEnds(|data|, k);
    for b := 0 to k
      invariant offset == Offset(|data|, k, b)
      invariant blocks == Split(data, k)[..b]
    {
      var len := baseLen + (if b >= k - extra then 1 else 0);
      OffsetNext(|data|, k, b);
      OffsetMonotone(|data|, k, b + 1, k);
      assert Split(data, k)[b] == data[offset..offset + len];
      blocks := blocks + [data[offset..offset + len]];
      offset := offset + len;
    }
  }

  method InterleaveBlocks<T>(blocks: seq<seq<T>>, columns: nat) returns (s: seq<T>)
    ensures s == Interleave(blocks, columns)
  {
    s := [];
    for i := 0 to columns
      invariant s == Interleave(blocks, i)
    {
      ghost var before := s;
      for b := 0 to |blocks|
        invariant s == before + Column(blocks[..b], i)
      {
        assert blocks[..b + 1][..b] == blocks[..b];
        if i < |blocks[b]| {
          s := s + [blocks[b][i]];
        }
      }
      assert blocks[..|blocks|] == blocks;
    }
  }
}
