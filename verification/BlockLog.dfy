/**
  The append-only block log and its index of positions
  (libraries/chain/block_log.cpp), byte by byte.
 */
module BlockLog {
  import opened Options
  import opened Arithmetic

  type byte = x: nat | x < 256

  const NPOS: nat := 0xffff_ffff_ffff_ffff
  const TWO64: nat := 0x1_0000_0000_0000_0000

  datatype Block = Block(num: nat, content: nat)

  /** Serialization: unpacking reads back what was packed, wherever it stands, and where it ends. */
  datatype Codec = Codec(pack: Block -> seq<byte>, unpack: (seq<byte>, nat) -> Option<(Block, nat)>)

  ghost predicate RoundTrips(c: Codec)
  {
    forall b, p, q :: c.unpack(p + c.pack(b) + q, |p|) == Some((b, |p| + |c.pack(b)|))
  }

  // ---- Eight-byte positions ----

  ghost function Pow256(k: nat): (r: nat)
    ensures r > 0
  {
    if k == 0 then 1 else 256 * Pow256(k - 1)
  }

  function Encode(n: nat, k: nat): (s: seq<byte>)
    ensures |s| == k
  {
    if k == 0 then [] else [n % 256] + Encode(n / 256, k - 1)
  }

  function Decode(s: seq<byte>): nat
  {
    if s == [] then 0 else s[0] + 256 * Decode(s[1..])
  }

  lemma {:induction false} DecodeEncode(n: nat, k: nat)
    requires n < Pow256(k)
    ensures Decode(Encode(n, k)) == n
  {
    if k > 0 {
      QuotientBounds(n, 256);
      DecodeEncode(n / 256, k - 1);
      assert Encode(n, k)[1..] == Encode(n / 256, k - 1);
    }
  }

  /** The byte at i is the i-th digit to the base 256, lowest first. */
  lemma {:induction false} LittleEndian(n: nat, k: nat, i: nat)
    requires i < k
    ensures Encode(n, k)[i] == (n / Pow256(i)) % 256
    decreases k
  {
    if i > 0 {
      LittleEndian(n / 256, k - 1, i - 1);
      QuotientOfQuotient(n, 256, Pow256(i - 1));
    }
  }

  /** A position as the files hold it. */
  function Position(n: nat): (s: seq<byte>)
    ensures |s| == 8
  {
    Encode(n, 8)
  }

  lemma PositionRead(n: nat)
    requires n < TWO64
    ensures Decode(Position(n)) == n
  {
    assert Pow256(8) == TWO64 by {
      assert Pow256(2) == 0x1_0000;
      assert Pow256(4) == 0x1_0000_0000;
      assert Pow256(6) == 0x1_0000_0000_0000;
    }
    DecodeEncode(n, 8);
  }

  // ---- The files an append history makes ----

  ghost function LogBytes(c: Codec, h: seq<Block>): seq<byte>
  {
    if h == [] then []
    else var before := LogBytes(c, h[..|h| - 1]);
         before + c.pack(h[|h| - 1]) + Position(|before|)
  }

  ghost function IndexBytes(c: Codec, h: seq<Block>): seq<byte>
  {
    if h == [] then []
    else IndexBytes(c, h[..|h| - 1]) + Position(Start(c, h, |h| - 1))
  }

  /** Where the block at k begins. */
  ghost function Start(c: Codec, h: seq<Block>, k: nat): nat
    requires k <= |h|
  {
    |LogBytes(c, h[..k])|
  }

  lemma Appended(c: Codec, h: seq<Block>, b: Block)
    ensures LogBytes(c, h + [b]) == LogBytes(c, h) + c.pack(b) + Position(|LogBytes(c, h)|)
    ensures IndexBytes(c, h + [b]) == IndexBytes(c, h) + Position(|LogBytes(c, h)|)
  {
    assert (h + [b])[..|h|] == h;
  }

  lemma {:induction false} LogPrefix(c: Codec, h: seq<Block>, k: nat)
    requires k <= |h|
    ensures LogBytes(c, h[..k]) <= LogBytes(c, h)
    decreases |h|
  {
    if k < |h| {
      LogPrefix(c, h[..|h| - 1], k);
      assert h[..|h| - 1][..k] == h[..k];
    } else {
      assert h[..k] == h;
    }
  }

  /** The block at k stands between what came before it and its position. */
  lemma LogAround(c: Codec, h: seq<Block>, k: nat) returns (rest: seq<byte>)
    requires k < |h|
    ensures LogBytes(c, h) == LogBytes(c, h[..k]) + c.pack(h[k]) + (Position(Start(c, h, k)) + rest)
    ensures Start(c, h, k + 1) == Start(c, h, k) + |c.pack(h[k])| + 8
    ensures k + 1 == |h| ==> rest == []
  {
    LogPrefix(c, h, k + 1);
    var upTo := LogBytes(c, h[..k + 1]);
    assert h[..k + 1][..k] == h[..k];
    rest := LogBytes(c, h)[|upTo|..];
    assert k + 1 == |h| ==> h[..k + 1] == h;
  }

  lemma {:induction false} StartsGrow(c: Codec, h: seq<Block>, i: nat, j: nat)
    requires i < j <= |h|
    ensures Start(c, h, i) + 8 <= Start(c, h, j)
    decreases j
  {
    if i + 1 < j {
      StartsGrow(c, h, i, j - 1);
    }
    var _ := LogAround(c, h, j - 1);
  }

  lemma {:induction false} IndexEntry(c: Codec, h: seq<Block>, k: nat)
    requires k < |h|
    ensures |IndexBytes(c, h)| == 8 * |h|
    ensures IndexBytes(c, h)[8 * k..8 * k + 8] == Position(Start(c, h, k))
    decreases |h|
  {
    var shorter := h[..|h| - 1];
    if k < |h| - 1 {
      IndexEntry(c, shorter, k);
      assert shorter[..k] == h[..k];
    } else if |h| > 1 {
      IndexEntry(c, shorter, 0);
    }
  }

  lemma IndexLength(c: Codec, h: seq<Block>)
    ensures |IndexBytes(c, h)| == 8 * |h|
  {
    if h != [] {
      IndexEntry(c, h, 0);
    }
  }

  lemma IndexStep(c: Codec, h: seq<Block>, k: nat)
    requires k < |h|
    ensures IndexBytes(c, h[..k + 1]) == IndexBytes(c, h[..k]) + Position(Start(c, h, k))
  {
    assert h[..k + 1][..k] == h[..k];
  }

  /** The position of the last block is at the very end of both files. */
  lemma LastPosition(c: Codec, h: seq<Block>)
    requires h != []
    ensures var log, index := LogBytes(c, h), IndexBytes(c, h);
            && |log| >= 8 && log[|log| - 8..] == Position(Start(c, h, |h| - 1))
            && |index| >= 8 && index[|index| - 8..] == Position(Start(c, h, |h| - 1))
  {
    IndexEntry(c, h, |h| - 1);
  }

  lemma StartAgrees(c: Codec, h: seq<Block>, g: seq<Block>, k: nat)
    requires k <= |h| <= |g| && g[..|h|] == h
    ensures Start(c, g, k) == Start(c, h, k)
  {
    assert g[..|h|][..k] == g[..k];
  }

  /** What construct_index writes: nothing at all for a log of a single block. */
  ghost function Rebuilt(c: Codec, h: seq<Block>): seq<byte>
  {
    if |h| == 1 then [] else IndexBytes(c, h)
  }

  /** One file grew past the other by whole appends. */
  ghost predicate SameHistory(h: seq<Block>, g: seq<Block>)
  {
    h <= g || g <= h
  }

  /** The last position in the index tells the two histories apart exactly when their lengths differ. */
  lemma HeadsTell(c: Codec, h: seq<Block>, g: seq<Block>)
    requires h != [] && g != [] && SameHistory(h, g)
    ensures Start(c, h, |h| - 1) == Start(c, g, |g| - 1) <==> h == g
  {
    if |h| < |g| {
      StartAgrees(c, h, g, |h| - 1);
      StartsGrow(c, g, |h| - 1, |g| - 1);
    } else if |g| < |h| {
      StartAgrees(c, g, h, |g| - 1);
      StartsGrow(c, h, |g| - 1, |h| - 1);
    }
  }

  lemma ScanStart(c: Codec, h: seq<Block>)
    ensures Start(c, h, 0) == 0 && IndexBytes(c, h[..0]) == []
  {
    assert h[..0] == [];
  }

  /** The scan stops after the last block, or at once when that is the first. */
  lemma ScanEnd(c: Codec, h: seq<Block>, k: nat, pos: nat)
    requires h != [] && k <= |h| && pos == (if k == 0 then 0 else Start(c, h, k - 1)) && pos >= Start(c, h, |h| - 1)
    requires k == 0 || |h| > 1
    ensures IndexBytes(c, h[..k]) == Rebuilt(c, h)
  {
    ScanStart(c, h);
    if 0 < k < |h| {
      StartsGrow(c, h, k - 1, |h| - 1);
    }
    if k == 0 && |h| > 1 {
      StartsGrow(c, h, 0, |h| - 1);
    }
    assert h[..|h|] == h;
  }

  class BlockLog {
    const codec: Codec
    var log: seq<byte>
    var index: seq<byte>
    var head: Option<Block>
    /** The blocks appended so far. */
    ghost var history: seq<Block>

    ghost predicate LogValid()
      reads this
    {
      && RoundTrips(codec)
      && log == LogBytes(codec, history) && |log| < TWO64
      && (forall i :: 0 <= i < |history| ==> history[i].num == i + 1)
    }

    ghost predicate Valid()
      reads this
    {
      && LogValid()
      && index == IndexBytes(codec, history)
      && head == (if history == [] then None else Some(history[|history| - 1]))
    }

    constructor (codec: Codec, log: seq<byte>, index: seq<byte>)
      ensures this.codec == codec && this.log == log && this.index == index && head == None
    {
      this.codec, this.log, this.index, head, history := codec, log, index, None, [];
    }

    /** append: only the next block in number goes in; a full disk refuses it. */
    method Append(b: Block) returns (ok: bool, pos: nat)
      requires Valid() && b.num > 0
      modifies this
      ensures Valid()
      ensures ok <==> b.num == |old(history)| + 1 && |old(log)| + |codec.pack(b)| + 8 < TWO64
      ensures history == if ok then old(history) + [b] else old(history)
      ensures ok ==> pos == |old(log)| && old(log) <= log && old(index) <= index
    {
      hide LogBytes, IndexBytes, RoundTrips, Position;
      pos := |log|;
      IndexLength(codec, history);
      if |index| != 8 * (b.num - 1) || |log| + |codec.pack(b)| + 8 >= TWO64 {
        return false, pos;
      }
      Appended(codec, history, b);
      log := log + codec.pack(b) + Position(pos);
      index := index + Position(pos);
      head := Some(b);
      history := history + [b];
      ok := true;
    }

    /** read_block at the start of a block. */
    method ReadBlock(pos: nat, ghost k: nat) returns (r: Option<(Block, nat)>)
      requires LogValid() && k < |history| && pos == Start(codec, history, k)
      ensures r == Some((history[k], Start(codec, history, k + 1)))
    {
      ghost var rest := LogAround(codec, history, k);
      ghost var p, q := LogBytes(codec, history[..k]), Position(pos) + rest;
      assert codec.unpack(p + codec.pack(history[k]) + q, |p|) == Some((history[k], |p| + |codec.pack(history[k])|));
      var found := codec.unpack(log, pos);
      r := Some((found.value.0, found.value.1 + 8));
    }

    method GetBlockPos(num: nat) returns (pos: nat)
      requires Valid()
      ensures pos == if 1 <= num <= |history| then Start(codec, history, num - 1) else NPOS
    {
      if !(head.Some? && num <= head.value.num && num > 0) {
        return NPOS;
      }
      IndexEntry(codec, history, num - 1);
      StartInFile(num - 1);
      PositionRead(Start(codec, history, num - 1));
      pos := Decode(index[8 * (num - 1)..8 * (num - 1) + 8]);
    }

    lemma StartInFile(k: nat)
      requires LogValid() && k < |history|
      ensures Start(codec, history, k) < |log| < TWO64
    {
      var _ := LogAround(codec, history, k);
    }

    /** read_block_by_num(k) is the k-th appended block; the number check never fails. */
    method ReadBlockByNum(num: nat) returns (r: Option<Block>)
      requires Valid()
      ensures r == if 1 <= num <= |history| then Some(history[num - 1]) else None
    {
      var pos := GetBlockPos(num);
      if 1 <= num <= |history| {
        StartInFile(num - 1);
      }
      if pos == NPOS {
        return None;
      }
      var read := ReadBlock(pos, num - 1);
      assert read.value.0.num == num;
      r := Some(read.value.0);
    }

    method LastPositionInLog() returns (pos: nat)
      requires LogValid() && history != []
      ensures pos == Start(codec, history, |history| - 1)
    {
      LastPosition(codec, history);
      StartInFile(|history| - 1);
      PositionRead(Start(codec, history, |history| - 1));
      pos := Decode(log[|log| - 8..]);
    }

    method ReadHead() returns (b: Block)
      requires LogValid() && history != []
      ensures b == history[|history| - 1]
    {
      var pos := LastPositionInLog();
      var r := ReadBlock(pos, |history| - 1);
      b := r.value.0;
    }

    /** construct_index: a scan of the log that copies each position it meets. */
    method ConstructIndex()
      requires LogValid() && history != []
      modifies this`index
      ensures index == Rebuilt(codec, history)
    {
      hide LogBytes, IndexBytes, Start, RoundTrips, Encode, Decode, Rebuilt;
      index := [];
      var end := LastPositionInLog();
      var pos: nat, at: nat := 0, 0;
      ghost var k := 0;
      ScanStart(codec, history);
      while pos < end
        invariant LogValid() && 0 <= k <= |history| && at == Start(codec, history, k)
        invariant pos == if k == 0 then 0 else Start(codec, history, k - 1)
        invariant k == 0 || |history| > 1
        invariant index == IndexBytes(codec, history[..k])
        decreases |history| - k
      {
        at, pos := ScanOne(at, k);
        index := index + Position(pos);
        IndexStep(codec, history, k);
        k := k + 1;
      }
      ScanEnd(codec, history, k, pos);
    }

    /** Unpacks the block at the stream position and reads the position after it. */
    method ScanOne(at: nat, ghost k: nat) returns (next: nat, pos: nat)
      requires LogValid() && k < |history| && at == Start(codec, history, k)
      ensures next == Start(codec, history, k + 1) && pos == Start(codec, history, k)
    {
      var r := ReadBlock(at, k);
      next := r.value.1;
      ghost var rest := LogAround(codec, history, k);
      StartInFile(k);
      PositionRead(Start(codec, history, k));
      assert log[next - 8..next] == Position(Start(codec, history, k));
      pos := Decode(log[next - 8..next]);
    }

    /**
      open: with a readable log, an index of any kind ends up rebuilt unless its
      last position is that of the log; without a log the index is emptied.
     */
    method Open(ghost blocks: seq<Block>) returns (ok: bool)
      requires RoundTrips(codec) && log == LogBytes(codec, blocks) && |log| < TWO64
      requires forall i :: 0 <= i < |blocks| ==> blocks[i].num == i + 1
      modifies this
      ensures log == old(log) && history == blocks && LogValid()
      ensures ok <==> blocks == [] || |old(index)| == 0 || |old(index)| >= 8
      ensures ok && blocks == [] ==> index == [] && head == old(head)
      ensures ok && blocks != [] ==> head == Some(blocks[|blocks| - 1])
      ensures ok && blocks != [] ==>
        index == if |old(index)| >= 8 && Decode(old(index)[|old(index)| - 8..]) == Start(codec, blocks, |blocks| - 1)
                 then old(index) else Rebuilt(codec, blocks)
    {
      history := blocks;
      if blocks != [] {
        LastPosition(codec, blocks);
      }
      if |log| != 0 {
        var last := ReadHead();
        head := Some(last);
        if |index| != 0 {
          if |index| < 8 {
            return false;
          }
          var blockPos := LastPositionInLog();
          var indexPos := Decode(index[|index| - 8..]);
          if blockPos < indexPos {
            ConstructIndex();
          } else if blockPos > indexPos {
            ConstructIndex();
          }
        } else {
          ConstructIndex();
        }
      } else if |index| != 0 {
        index := [];
      }
      ok := true;
    }

    /**
      An index that stopped earlier or ran further than the log is put right by
      open, except over a log of exactly one block whose index is not there already.
     */
    method OpenAfterCrash(ghost blocks: seq<Block>, ghost indexed: seq<Block>) returns (ok: bool)
      requires RoundTrips(codec) && log == LogBytes(codec, blocks) && |log| < TWO64
      requires |LogBytes(codec, indexed)| < TWO64
      requires forall i :: 0 <= i < |blocks| ==> blocks[i].num == i + 1
      requires SameHistory(blocks, indexed) && index == IndexBytes(codec, indexed) && head == None
      modifies this
      ensures ok && history == blocks && log == old(log)
      ensures Valid() <==> !(|blocks| == 1 && |indexed| != 1)
      ensures |blocks| == 1 && |indexed| != 1 ==> index == [] && head == Some(blocks[0])
    {
      IndexLength(codec, indexed);
      IndexLength(codec, blocks);
      if indexed != [] {
        LastPosition(codec, indexed);
        var _ := LogAround(codec, indexed, |indexed| - 1);
        PositionRead(Start(codec, indexed, |indexed| - 1));
        if blocks != [] {
          HeadsTell(codec, blocks, indexed);
        }
      }
      ok := Open(blocks);
    }
  }
}
