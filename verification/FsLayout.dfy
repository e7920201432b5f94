/** The on-disk format: bytes, 32-bit words, bitmap bits, inodes and their block slots. */
module FsLayout {

  const BSIZE: nat := 1024
  const NDIRECT: nat := 12
  const NINDIRECT: nat := 256      // BSIZE / sizeof(uint)
  const MAXFILE: nat := NDIRECT + NINDIRECT
  const BPB: nat := 8192           // bitmap bits per block
  const NSLOTS: nat := NDIRECT + 1 + NINDIRECT
  const MAXBYTES: nat := 274432    // MAXFILE * BSIZE
  const WORD: int := 0x1_0000_0000

  type Byte = x: int | 0 <= x < 256
  type Block = b: seq<Byte> | |b| == BSIZE witness seq(BSIZE, _ => 0)
  type Addrs = a: seq<nat> | |a| == NDIRECT + 1 witness seq(NDIRECT + 1, _ => 0)

  datatype Dinode = Dinode(typ: int, nlink: int, size: nat, addrs: Addrs)

  /** The part of the superblock that the block layer uses; nmeta is the first data block. */
  datatype Super = Super(size: nat, ninodes: nat, bmapstart: nat, nmeta: nat)

  predicate ValidSuper(sb: Super) {
    && 0 < sb.bmapstart && sb.nmeta == sb.bmapstart + MapIndex(sb.size) + 1
    && sb.nmeta <= sb.size < WORD
  }

  function ZeroBlock(): Block { seq(BSIZE, _ => 0) }

  // Offsets and block numbers; written out so that division is by a literal.

  /** o / BSIZE */
  function BlockNo(o: nat): nat { o / 1024 }

  /** o % BSIZE */
  function BlockOff(o: nat): nat { o % 1024 }

  /** n * BSIZE */
  function BlockStart(n: nat): nat { n * 1024 }

  /** b / BPB */
  function MapIndex(b: nat): nat { b / 8192 }

  /** b % BPB */
  function MapOff(b: nat): nat { b % 8192 }

  // ----- bits of a byte -----

  predicate Bit(v: nat, k: nat) {
    if k == 0 then v % 2 == 1 else Bit(v / 2, k - 1)
  }

  /** v | (1 << k) */
  function OrBit(v: nat, k: nat): (r: nat)
    ensures v < 256 && k < 8 ==> r < 256
  {
    assert v < 256 && k < 8 ==> OrBitRaw(v, k) < 256 by {
      if v < 256 && k < 8 {
        FitsByte(v);
        OrBitFits(v, k, 8);
        FitsByte(OrBitRaw(v, k));
      }
    }
    OrBitRaw(v, k)
  }

  function OrBitRaw(v: nat, k: nat): nat {
    if k == 0 then v / 2 * 2 + 1 else 2 * OrBitRaw(v / 2, k - 1) + v % 2
  }

  /** v & ~(1 << k) */
  function ClearBit(v: nat, k: nat): (r: nat)
    ensures r <= v
  {
    if k == 0 then v / 2 * 2 else 2 * ClearBit(v / 2, k - 1) + v % 2
  }

  /** v has no bit at position n or above. */
  predicate Fits(v: nat, n: nat) {
    if n == 0 then v == 0 else Fits(v / 2, n - 1)
  }

  lemma {:induction false} OrBitFits(v: nat, k: nat, n: nat)
    requires Fits(v, n) && k < n
    ensures Fits(OrBitRaw(v, k), n)
  {
    if k > 0 {
      OrBitFits(v / 2, k - 1, n - 1);
      assert OrBitRaw(v, k) / 2 == OrBitRaw(v / 2, k - 1);
    } else {
      assert OrBitRaw(v, k) / 2 == v / 2;
    }
  }

  lemma FitsByte(v: nat)
    ensures Fits(v, 8) <==> v < 256
  {
    var v2, v4, v6 := v / 4, v / 16, v / 64;
    assert Fits(v6 / 2, 1) <==> v6 / 2 < 2;
    assert Fits(v6, 2) <==> v6 < 4;
    assert v4 / 2 / 2 == v6;
    assert Fits(v4, 4) <==> v4 < 16;
    assert v2 / 2 / 2 == v4;
    assert Fits(v2, 6) <==> v2 < 64;
    assert v / 2 / 2 == v2;
  }

  lemma {:induction false} BitOr(v: nat, k: nat, j: nat)
    ensures Bit(OrBitRaw(v, k), j) == (j == k || Bit(v, j))
  {
    if k > 0 && j > 0 {
      BitOr(v / 2, k - 1, j - 1);
    }
  }

  lemma {:induction false} BitClear(v: nat, k: nat, j: nat)
    ensures Bit(ClearBit(v, k), j) == (j != k && Bit(v, j))
  {
    if k > 0 && j > 0 {
      BitClear(v / 2, k - 1, j - 1);
    }
  }

  // ----- the free map -----

  function BBlock(sb: Super, b: nat): nat { MapIndex(b) + sb.bmapstart }

  predicate MapBit(blk: Block, bi: nat)
    requires bi < BPB
  {
    Bit(blk[bi / 8], bi % 8)
  }

  function MapSet(blk: Block, bi: nat): Block
    requires bi < BPB
  {
    blk[bi / 8 := OrBit(blk[bi / 8], bi % 8)]
  }

  function MapClear(blk: Block, bi: nat): Block
    requires bi < BPB
  {
    blk[bi / 8 := ClearBit(blk[bi / 8], bi % 8)]
  }

  lemma MapSetBit(blk: Block, bi: nat, x: nat)
    requires bi < BPB && x < BPB
    ensures MapBit(MapSet(blk, bi), x) == (x == bi || MapBit(blk, x))
  {
    if x / 8 == bi / 8 {
      BitOr(blk[bi / 8], bi % 8, x % 8);
      assert x % 8 == bi % 8 <==> x == bi;
    }
  }

  lemma MapClearBit(blk: Block, bi: nat, x: nat)
    requires bi < BPB && x < BPB
    ensures MapBit(MapClear(blk, bi), x) == (x != bi && MapBit(blk, x))
  {
    if x / 8 == bi / 8 {
      BitClear(blk[bi / 8], bi % 8, x % 8);
      assert x % 8 == bi % 8 <==> x == bi;
    }
  }

  predicate BlockBit(sb: Super, disk: seq<Block>, b: nat)
    requires ValidSuper(sb) && |disk| == sb.size && b < sb.size
  {
    MapBit(disk[BBlock(sb, b)], MapOff(b))
  }

  function BitsTo(sb: Super, disk: seq<Block>, n: nat): (r: seq<bool>)
    requires ValidSuper(sb) && |disk| == sb.size && n <= sb.size
    ensures |r| == n
  {
    if n == 0 then [] else BitsTo(sb, disk, n - 1) + [BlockBit(sb, disk, n - 1)]
  }

  /** The free map as one bit per block of the device. */
  function Bits(sb: Super, disk: seq<Block>): (r: seq<bool>)
    requires ValidSuper(sb) && |disk| == sb.size
    ensures |r| == sb.size
  {
    BitsTo(sb, disk, |disk|)
  }

  lemma {:induction false} BitsToAt(sb: Super, disk: seq<Block>, n: nat, x: nat)
    requires ValidSuper(sb) && |disk| == sb.size && x < n <= sb.size
    ensures BitsTo(sb, disk, n)[x] == BlockBit(sb, disk, x)
  {
    if x < n - 1 {
      BitsToAt(sb, disk, n - 1, x);
    }
  }

  lemma BitsAt(sb: Super, disk: seq<Block>, b: nat)
    requires ValidSuper(sb) && |disk| == sb.size && b < sb.size
    ensures Bits(sb, disk)[b] == BlockBit(sb, disk, b)
  {
    BitsToAt(sb, disk, |disk|, b);
  }

  lemma SetBits(sb: Super, disk: seq<Block>, b: nat)
    requires ValidSuper(sb) && |disk| == sb.size && b < sb.size
    ensures var m := BBlock(sb, b);
            Bits(sb, disk[m := MapSet(disk[m], MapOff(b))]) == Bits(sb, disk)[b := true]
  {
    var m := BBlock(sb, b);
    var disk' := disk[m := MapSet(disk[m], MapOff(b))];
    forall x | 0 <= x < sb.size ensures Bits(sb, disk')[x] == Bits(sb, disk)[b := true][x] {
      BitsAt(sb, disk, x);
      BitsAt(sb, disk', x);
      MapSetBit(disk[m], MapOff(b), MapOff(x));
    }
  }

  lemma ClearBits(sb: Super, disk: seq<Block>, b: nat)
    requires ValidSuper(sb) && |disk| == sb.size && b < sb.size
    ensures var m := BBlock(sb, b);
            Bits(sb, disk[m := MapClear(disk[m], MapOff(b))]) == Bits(sb, disk)[b := false]
  {
    var m := BBlock(sb, b);
    var disk' := disk[m := MapClear(disk[m], MapOff(b))];
    forall x | 0 <= x < sb.size ensures Bits(sb, disk')[x] == Bits(sb, disk)[b := false][x] {
      BitsAt(sb, disk, x);
      BitsAt(sb, disk', x);
      MapClearBit(disk[m], MapOff(b), MapOff(x));
    }
  }

  /** Writing a block beyond the metadata leaves the free map alone. */
  lemma DataKeepsBits(sb: Super, disk: seq<Block>, b: nat, blk: Block)
    requires ValidSuper(sb) && |disk| == sb.size && sb.nmeta <= b < sb.size
    ensures Bits(sb, disk[b := blk]) == Bits(sb, disk)
  {
    forall x | 0 <= x < sb.size ensures Bits(sb, disk[b := blk])[x] == Bits(sb, disk)[x] {
      BitsAt(sb, disk, x);
      BitsAt(sb, disk[b := blk], x);
    }
  }

  // ----- words of an indirect block -----

  function GetWord(blk: Block, j: nat): nat
    requires j < NINDIRECT
  {
    var b0, b1, b2, b3: int := blk[4 * j], blk[4 * j + 1], blk[4 * j + 2], blk[4 * j + 3];
    b0 + 0x100 * b1 + 0x1_0000 * b2 + 0x100_0000 * b3
  }

  function LowByte(v: nat): Byte { v % 0x100 }

  function PutWord(blk: Block, j: nat, v: nat): Block
    requires j < NINDIRECT && v < WORD
  {
    blk[4 * j := LowByte(v)][4 * j + 1 := LowByte(v / 0x100)]
       [4 * j + 2 := LowByte(v / 0x1_0000)][4 * j + 3 := LowByte(v / 0x100_0000)]
  }

  lemma SplitWord(v: nat)
    requires v < WORD
    ensures v == v % 0x100 + 0x100 * (v / 0x100 % 0x100)
                 + 0x1_0000 * (v / 0x1_0000 % 0x100) + 0x100_0000 * (v / 0x100_0000)
  {
    assert v / 0x1_0000 == v / 0x100 / 0x100;
    assert v / 0x100_0000 == v / 0x1_0000 / 0x100;
  }

  lemma WordRoundTrip(blk: Block, j: nat, v: nat, k: nat)
    requires j < NINDIRECT && k < NINDIRECT && v < WORD
    ensures GetWord(PutWord(blk, j, v), k) == if k == j then v else GetWord(blk, k)
  {
    SplitWord(v);
  }

  function WordsTo(blk: Block, n: nat): (r: seq<nat>)
    requires n <= NINDIRECT
    ensures |r| == n
  {
    if n == 0 then [] else WordsTo(blk, n - 1) + [GetWord(blk, n - 1)]
  }

  /** An indirect block as its 256 words. */
  function Words(blk: Block): (r: seq<nat>)
    ensures |r| == NINDIRECT
  {
    WordsTo(blk, |blk| / 4)
  }

  lemma {:induction false} WordsToAt(blk: Block, n: nat, k: nat)
    requires k < n <= NINDIRECT
    ensures WordsTo(blk, n)[k] == GetWord(blk, k)
  {
    if k < n - 1 {
      WordsToAt(blk, n - 1, k);
    }
  }

  lemma WordsAt(blk: Block, k: nat)
    requires k < NINDIRECT
    ensures Words(blk)[k] == GetWord(blk, k)
  {
    WordsToAt(blk, |blk| / 4, k);
  }

  lemma WordsPut(blk: Block, j: nat, v: nat)
    requires j < NINDIRECT && v < WORD
    ensures Words(PutWord(blk, j, v)) == Words(blk)[j := v]
  {
    forall k | 0 <= k < NINDIRECT ensures Words(PutWord(blk, j, v))[k] == Words(blk)[j := v][k] {
      WordsAt(blk, k);
      WordsAt(PutWord(blk, j, v), k);
      WordRoundTrip(blk, j, v, k);
    }
  }

  lemma ZeroWords()
    ensures Words(ZeroBlock()) == NoWords()
  {
    forall k | 0 <= k < NINDIRECT ensures Words(ZeroBlock())[k] == 0 {
      WordsAt(ZeroBlock(), k);
    }
  }

  // ----- the block slots of an inode -----

  function NoWords(): (r: seq<nat>)
    ensures |r| == NINDIRECT && forall j :: 0 <= j < NINDIRECT ==> r[j] == 0
  {
    seq(NINDIRECT, _ => 0)
  }

  /** Every block number an inode holds: 12 direct, the indirect pointer, 256 indirect entries. */
  function Slots(disk: seq<Block>, a: Addrs): (r: seq<nat>)
    ensures |r| == NSLOTS
  {
    a + (if 0 < a[NDIRECT] < |disk| then Words(disk[a[NDIRECT]]) else NoWords())
  }

  /** The slot that names block n of a file. */
  function DataSlot(n: nat): nat { if n < NDIRECT then n else n + 1 }

  function Table(disk: seq<Block>, inodes: seq<Dinode>): (r: seq<seq<nat>>)
    ensures |r| == |inodes| && forall i :: 0 <= i < |inodes| ==> r[i] == Slots(disk, inodes[i].addrs)
  {
    seq(|inodes|, i requires 0 <= i < |inodes| => Slots(disk, inodes[i].addrs))
  }
}
