/** The on-disk format of fs.h: words, bitmap bits and inodes inside byte blocks. */
module FsFormat {
  import opened Param

  type Half = x: int | 0 <= x < 65536

  datatype RawBlock = RawBlock(bytes: seq<Byte>)
  type Block = b: RawBlock | |b.bytes| == BSIZE witness RawBlock(seq(BSIZE, _ => 0))

  function Zeros(n: nat): (r: seq<Byte>)
    ensures |r| == n && forall i :: 0 <= i < n ==> r[i] == 0
  {
    if n == 0 then [] else Zeros(n - 1) + [0]
  }

  /** A block of zeros, as bzero leaves it. */
  function Zero(): (b: Block)
    ensures forall i :: 0 <= i < BSIZE ==> b.bytes[i] == 0
  {
    RawBlock(Zeros(BSIZE))
  }

  // ----- little-endian 32-bit words

  function WordAt(b: Block, i: nat): Word
    requires i < NINDIRECT
  {
    var x: seq<int> := b.bytes;
    x[4 * i] + 256 * x[4 * i + 1] + 65536 * x[4 * i + 2] + 16777216 * x[4 * i + 3]
  }

  function PutWord(b: Block, i: nat, v: Word): Block
    requires i < NINDIRECT
  {
    RawBlock(b.bytes[4 * i := v % 256][4 * i + 1 := v / 256 % 256]
                    [4 * i + 2 := v / 65536 % 256][4 * i + 3 := v / 16777216])
  }

  lemma WordOfPut(b: Block, i: nat, v: Word, j: nat)
    requires i < NINDIRECT && j < NINDIRECT
    ensures WordAt(PutWord(b, i, v), j) == if i == j then v else WordAt(b, j)
  {
    var p: seq<int> := PutWord(b, i, v).bytes;
    if i == j {
      assert p[4 * i] == v % 256 && p[4 * i + 1] == v / 256 % 256;
      assert p[4 * i + 2] == v / 65536 % 256 && p[4 * i + 3] == v / 16777216;
      BytesOfWord(v);
    } else {
      assert p[4 * j] == b.bytes[4 * j] && p[4 * j + 1] == b.bytes[4 * j + 1];
      assert p[4 * j + 2] == b.bytes[4 * j + 2] && p[4 * j + 3] == b.bytes[4 * j + 3];
    }
  }

  lemma BytesOfWord(v: Word)
    ensures v == v % 256 + 256 * (v / 256 % 256) + 65536 * (v / 65536 % 256) + 16777216 * (v / 16777216)
  {
  }

  lemma ZeroWord(j: nat)
    requires j < NINDIRECT
    ensures WordAt(Zero(), j) == 0
  {
  }

  // ----- bitmap bits

  predicate BitOf(x: nat, k: nat) {
    if k == 0 then x % 2 == 1 else BitOf(x / 2, k - 1)
  }

  /** x | (1 << k) */
  function OrBit(x: nat, k: nat): nat {
    if k == 0 then x - x % 2 + 1 else x % 2 + 2 * OrBit(x / 2, k - 1)
  }

  /** x & ~(1 << k) */
  function AndNotBit(x: nat, k: nat): nat {
    if k == 0 then x - x % 2 else x % 2 + 2 * AndNotBit(x / 2, k - 1)
  }

  lemma {:induction false} BitOfOr(x: nat, k: nat, l: nat)
    ensures BitOf(OrBit(x, k), l) <==> (l == k || BitOf(x, l))
  {
    if k > 0 && l > 0 {
      BitOfOr(x / 2, k - 1, l - 1);
    } else if l > 0 {
      assert OrBit(x, k) / 2 == x / 2;
    }
  }

  lemma {:induction false} BitOfAndNot(x: nat, k: nat, l: nat)
    ensures BitOf(AndNotBit(x, k), l) <==> (l != k && BitOf(x, l))
  {
    if k > 0 && l > 0 {
      BitOfAndNot(x / 2, k - 1, l - 1);
    } else if l > 0 {
      assert AndNotBit(x, k) / 2 == x / 2;
    }
  }

  function Pow2(n: nat): nat {
    if n == 0 then 1 else 2 * Pow2(n - 1)
  }

  lemma {:induction false} BitOpsBounded(x: nat, k: nat, n: nat)
    requires x < Pow2(n) && k < n
    ensures OrBit(x, k) < Pow2(n) && AndNotBit(x, k) < Pow2(n)
  {
    if k > 0 {
      BitOpsBounded(x / 2, k - 1, n - 1);
    }
  }

  lemma ByteBound()
    ensures Pow2(8) == 256
  {
    assert Pow2(4) == 16;
    assert Pow2(6) == 64;
  }

  predicate Bit(b: Block, i: nat)
    requires i < BPB
  {
    BitOf(b.bytes[i / 8], i % 8)
  }

  function SetBit(b: Block, i: nat): Block
    requires i < BPB
  {
    ByteBound();
    BitOpsBounded(b.bytes[i / 8], i % 8, 8);
    RawBlock(b.bytes[i / 8 := OrBit(b.bytes[i / 8], i % 8)])
  }

  function ClearBit(b: Block, i: nat): Block
    requires i < BPB
  {
    ByteBound();
    BitOpsBounded(b.bytes[i / 8], i % 8, 8);
    RawBlock(b.bytes[i / 8 := AndNotBit(b.bytes[i / 8], i % 8)])
  }

  lemma BitOfSet(b: Block, i: nat, j: nat)
    requires i < BPB && j < BPB
    ensures Bit(SetBit(b, i), j) <==> (j == i || Bit(b, j))
  {
    if j / 8 == i / 8 {
      BitOfOr(b.bytes[i / 8], i % 8, j % 8);
    }
  }

  lemma BitOfClear(b: Block, i: nat, j: nat)
    requires i < BPB && j < BPB
    ensures Bit(ClearBit(b, i), j) <==> (j != i && Bit(b, j))
  {
    if j / 8 == i / 8 {
      BitOfAndNot(b.bytes[i / 8], i % 8, j % 8);
    }
  }

  // ----- inodes

  /** struct dinode; the short fields are kept as their 16-bit patterns. */
  datatype Dinode = Dinode(typ: Half, major: Half, minor: Half, nlink: Half, size: Word, addrs: seq<Word>)

  const DWORDS: nat := 16                    // sizeof(struct dinode) / 4
  const IPB: nat := BSIZE / (4 * DWORDS)

  predicate DinodeOk(d: Dinode) {
    |d.addrs| == NDIRECT + 1
  }

  function DinodeWords(d: Dinode): (ws: seq<Word>)
    requires DinodeOk(d)
    ensures |ws| == DWORDS
  {
    [d.typ + 65536 * d.major, d.minor + 65536 * d.nlink, d.size] + d.addrs
  }

  function PutWords(b: Block, at: nat, ws: seq<Word>): Block
    requires at + |ws| <= NINDIRECT
  {
    if ws == [] then b else PutWord(PutWords(b, at, ws[..|ws| - 1]), at + |ws| - 1, ws[|ws| - 1])
  }

  lemma {:induction false} WordOfPutWords(b: Block, at: nat, ws: seq<Word>, j: nat)
    requires at + |ws| <= NINDIRECT && j < NINDIRECT
    ensures WordAt(PutWords(b, at, ws), j) == if at <= j < at + |ws| then ws[j - at] else WordAt(b, j)
  {
    if ws != [] {
      WordOfPutWords(b, at, ws[..|ws| - 1], j);
      WordOfPut(PutWords(b, at, ws[..|ws| - 1]), at + |ws| - 1, ws[|ws| - 1], j);
    }
  }

  function WordsAt(b: Block, at: nat, n: nat): (ws: seq<Word>)
    requires at + n <= NINDIRECT
    ensures |ws| == n && forall i :: 0 <= i < n ==> ws[i] == WordAt(b, at + i)
  {
    if n == 0 then [] else WordsAt(b, at, n - 1) + [WordAt(b, at + n - 1)]
  }

  function FromWords(ws: seq<Word>): (d: Dinode)
    requires |ws| == DWORDS
    ensures DinodeOk(d)
  {
    Dinode(ws[0] % 65536, ws[0] / 65536, ws[1] % 65536, ws[1] / 65536, ws[2], ws[3..])
  }

  /** The n-th inode of an inode block. */
  function DinodeIn(b: Block, n: nat): (d: Dinode)
    requires n < IPB
    ensures DinodeOk(d)
  {
    FromWords(WordsAt(b, DWORDS * n, DWORDS))
  }

  function PutDinode(b: Block, n: nat, d: Dinode): Block
    requires n < IPB && DinodeOk(d)
  {
    PutWords(b, DWORDS * n, DinodeWords(d))
  }

  lemma DinodeWordOfPut(b: Block, n: nat, d: Dinode, m: nat, i: nat)
    requires n < IPB && m < IPB && DinodeOk(d) && i < DWORDS
    ensures WordAt(PutDinode(b, n, d), DWORDS * m + i) == if m == n then DinodeWords(d)[i] else WordAt(b, DWORDS * m + i)
  {
    hide WordAt, PutWords, DinodeWords;
    WordOfPutWords(b, DWORDS * n, DinodeWords(d), DWORDS * m + i);
  }

  /** Writing an inode and reading inodes back: that one is what was written, the others are as before. */
  lemma DinodeOfPut(b: Block, n: nat, d: Dinode, m: nat)
    requires n < IPB && m < IPB && DinodeOk(d)
    ensures DinodeIn(PutDinode(b, n, d), m) == if m == n then d else DinodeIn(b, m)
  {
    WordsOfDinode(d);
    hide WordAt, PutDinode, DinodeWords, FromWords;
    var put := PutDinode(b, n, d);
    var r := WordsAt(put, DWORDS * m, DWORDS);
    var want := if m == n then DinodeWords(d) else WordsAt(b, DWORDS * m, DWORDS);
    forall i: nat | i < DWORDS
      ensures r[i] == want[i]
    {
      DinodeWordOfPut(b, n, d, m, i);
    }
    assert r == want;
  }

  lemma WordsOfDinode(d: Dinode)
    requires DinodeOk(d)
    ensures FromWords(DinodeWords(d)) == d
  {
    HalvesOfWord(d.typ, d.major);
    HalvesOfWord(d.minor, d.nlink);
    assert DinodeWords(d)[3..] == d.addrs;
  }

  lemma HalvesOfWord(lo: Half, hi: Half)
    ensures (lo + 65536 * hi) % 65536 == lo && (lo + 65536 * hi) / 65536 == hi
  {
  }

  // ----- byte ranges

  /** memmove of s into b at byte o. */
  function Splice(b: Block, o: nat, s: seq<Byte>): Block
    requires o + |s| <= BSIZE
  {
    RawBlock(b.bytes[..o] + s + b.bytes[o + |s|..])
  }
}
