/** Formatting and mounting a partition (fs/fs.c) over the drives of module Ide. */
module Fs {
  import opened Bitmaps
  import opened Ide

  // ----- little-endian words -----

  const WORD := 0x1_0000_0000

  /** Byte j of w, lowest first. */
  function Digit(w: nat, j: nat): Byte
    requires j < 4
  {
    if j == 0 then w % 256 else Digit(w / 256, j - 1)
  }

  lemma DigitsOf(w: nat)
    requires w < WORD
    ensures Digit(w, 0) + 0x100 * Digit(w, 1) + 0x10000 * Digit(w, 2) + 0x1000000 * Digit(w, 3) == w
  {
    var a := w / 256;
    var b := a / 256;
    var c := b / 256;
    assert w == 256 * a + w % 256 && a == 256 * b + a % 256 && b == 256 * c + b % 256;
    assert Digit(w, 1) == Digit(a, 0) == a % 256;
    assert Digit(w, 2) == Digit(a, 1) == Digit(b, 0) == b % 256;
    assert Digit(w, 3) == Digit(a, 2) == Digit(b, 1) == Digit(c, 0) == c % 256;
    assert c < 256;
  }

  /** w lies at `at`, lowest byte first. */
  predicate HasWord(bytes: seq<Byte>, at: nat, w: nat)
  {
    at + 4 <= |bytes| && bytes[at] == Digit(w, 0) && bytes[at + 1] == Digit(w, 1)
    && bytes[at + 2] == Digit(w, 2) && bytes[at + 3] == Digit(w, 3)
  }

  function Compose(a: nat, b: nat, c: nat, d: nat): nat
  {
    a + 0x100 * b + 0x10000 * c + 0x1000000 * d
  }

  function WordAt(bytes: seq<Byte>, at: nat): (w: nat)
    requires at + 4 <= |bytes|
    ensures w < WORD
  {
    Compose(bytes[at], bytes[at + 1], bytes[at + 2], bytes[at + 3])
  }

  lemma WordRoundTrip(w: nat, bytes: seq<Byte>, at: nat)
    requires w < WORD && HasWord(bytes, at, w)
    ensures WordAt(bytes, at) == w
  {
    DigitsOf(w);
  }

  // ----- layout -----

  const BITS_PER_SECTOR := 4096
  const MAX_FILES := 4096
  const INODE_SIZE := 76       // sizeof(struct inode): 4 words, 13 sector numbers, one list node
  const DIR_ENTRY_SIZE := 24
  const MAGIC := 0x19590318

  function DivRoundUp(x: nat, step: nat): nat
    requires step > 0
  {
    (x + step - 1) / step
  }

  const INODE_BITMAP_SECTS := DivRoundUp(MAX_FILES, BITS_PER_SECTOR)
  const INODE_TABLE_SECTS := DivRoundUp(INODE_SIZE * MAX_FILES, SECTOR)
  const USED_SECTS := 1 + 1 + INODE_BITMAP_SECTS + INODE_TABLE_SECTS

  /** The first estimate, the number of data blocks, and the corrected bitmap size. */
  function FirstEstimate(secCnt: nat): nat
    requires secCnt >= USED_SECTS
  {
    DivRoundUp(secCnt - USED_SECTS, BITS_PER_SECTOR)
  }

  function BitLen(secCnt: nat): nat
    requires secCnt >= USED_SECTS
  {
    secCnt - USED_SECTS - FirstEstimate(secCnt)
  }

  function BitmapSects(secCnt: nat): nat
    requires secCnt >= USED_SECTS
  {
    DivRoundUp(BitLen(secCnt), BITS_PER_SECTOR)
  }

  datatype SuperBlock = SuperBlock(
    magic: nat, secCnt: nat, inodeCnt: nat, partLbaBase: nat,
    blockBitmapLba: nat, blockBitmapSects: nat, inodeBitmapLba: nat, inodeBitmapSects: nat,
    inodeTableLba: nat, inodeTableSects: nat, dataStartLba: nat, rootInodeNo: nat, dirEntrySize: nat,
    pad: seq<Byte>)

  /** The superblock's sector: the boot sector comes first. */
  function SuperLba(start: nat): nat
  {
    start + 1
  }

  /** The superblock partition_format computes; pad is whatever the stack held. */
  function MakeSuper(start: nat, secCnt: nat, pad: seq<Byte>): SuperBlock
    requires secCnt >= USED_SECTS
  {
    var bb, b := start + 2, BitmapSects(secCnt);
    var ib := bb + b;
    var it := ib + INODE_BITMAP_SECTS;
    SuperBlock(MAGIC, secCnt, MAX_FILES, start, bb, b, ib, INODE_BITMAP_SECTS,
               it, INODE_TABLE_SECTS, it + INODE_TABLE_SECTS, 0, DIR_ENTRY_SIZE, pad)
  }

  /** A partition on the supported disk with room for its metadata, one bitmap sector and the
      root directory. */
  predicate Adequate(start: nat, secCnt: nat)
  {
    secCnt >= USED_SECTS + 2 && start + secCnt <= MAX_LBA + 1
  }

  /** Boot sector, superblock, bitmap, inode bitmap, inode table and root directory follow each
      other without gap or overlap inside the partition; the bitmap has a bit for every data
      block; and the two-pass estimate wastes no more than its own rounding. */
  lemma LayoutSound(start: nat, secCnt: nat, pad: seq<Byte>)
    requires Adequate(start, secCnt)
    ensures var sb := MakeSuper(start, secCnt, pad);
            start + 1 < sb.blockBitmapLba == start + 2 &&
            1 <= sb.blockBitmapSects <= 40 &&
            sb.blockBitmapLba + sb.blockBitmapSects == sb.inodeBitmapLba &&
            sb.inodeBitmapLba + sb.inodeBitmapSects == sb.inodeTableLba &&
            sb.inodeTableLba + sb.inodeTableSects == sb.dataStartLba < start + secCnt &&
            BitLen(secCnt) <= sb.blockBitmapSects * BITS_PER_SECTOR &&
            (sb.blockBitmapSects - 1) * BITS_PER_SECTOR < BitLen(secCnt)
    ensures var waste := FirstEstimate(secCnt) - BitmapSects(secCnt);
            0 <= waste <= DivRoundUp(FirstEstimate(secCnt), BITS_PER_SECTOR) == 1
            && MakeSuper(start, secCnt, pad).dataStartLba + BitLen(secCnt) + waste == start + secCnt
  {
  }

  /** Regions of a partition of cnt sectors from base that follow each other behind boot sector and
      superblock and end inside it: a block bitmap with a bit for every data block but the last one
      at most, an inode bitmap and an inode table for that many inodes, none a sector too long. */
  predicate RegionsIn(base: nat, cnt: nat, inodes: nat, bb: nat, bbs: nat, ib: nat, ibs: nat,
                      it: nat, its: nat, data: nat)
  {
    bb == base + 2 && ib == bb + bbs && it == ib + ibs && data == it + its < base + cnt &&
    1 <= bbs && (bbs - 1) * 8 * SECTOR < base + cnt - data <= bbs * 8 * SECTOR + 1 &&
    (ibs - 1) * 8 * SECTOR < inodes <= ibs * 8 * SECTOR &&
    (its - 1) * SECTOR < inodes * INODE_SIZE <= its * SECTOR
  }

  /** A superblock that says of its partition what is so. */
  predicate SuperOk(sb: SuperBlock, start: nat, secCnt: nat)
  {
    sb.magic == 0x19590318 && sb.secCnt == secCnt && sb.inodeCnt == 4096 && sb.partLbaBase == start &&
    sb.rootInodeNo == 0 && sb.dirEntrySize == 24 &&
    RegionsIn(sb.partLbaBase, sb.secCnt, sb.inodeCnt, sb.blockBitmapLba, sb.blockBitmapSects,
              sb.inodeBitmapLba, sb.inodeBitmapSects, sb.inodeTableLba, sb.inodeTableSects, sb.dataStartLba)
  }

  /** The same of a sector, by the offsets of struct super_block. */
  predicate SectorOk(b: seq<Byte>, start: nat, secCnt: nat)
  {
    |b| == SECTOR && WordAt(b, 0) == 0x19590318 && WordAt(b, 4) == secCnt && WordAt(b, 8) == 4096 &&
    WordAt(b, 12) == start && WordAt(b, 44) == 0 && WordAt(b, 48) == 24 &&
    RegionsIn(WordAt(b, 12), WordAt(b, 4), WordAt(b, 8), WordAt(b, 16), WordAt(b, 20),
              WordAt(b, 24), WordAt(b, 28), WordAt(b, 32), WordAt(b, 36), WordAt(b, 40))
  }

  /** The superblock partition_format computes describes the partition. */
  lemma SuperDescribes(start: nat, secCnt: nat, pad: seq<Byte>)
    requires Adequate(start, secCnt)
    ensures SuperOk(MakeSuper(start, secCnt, pad), start, secCnt)
  {
    LayoutSound(start, secCnt, pad);
  }

  // The same in the uint32_t of the code, where the subtraction and DIV_ROUND_UP wrap.

  function FreeWord(secCnt: nat): nat
  {
    (secCnt + WORD - USED_SECTS) % WORD
  }

  function DivWord(x: nat, step: nat): nat
    requires step > 0
  {
    (x + step - 1) % WORD / step
  }

  function BitLenWord(secCnt: nat): nat
  {
    (FreeWord(secCnt) + WORD - DivWord(FreeWord(secCnt), BITS_PER_SECTOR)) % WORD
  }

  function BitmapSectsWord(secCnt: nat): nat
  {
    DivWord(BitLenWord(secCnt), BITS_PER_SECTOR)
  }

  /** From the metadata's size up nothing wraps. */
  lemma WordsExact(secCnt: nat)
    requires USED_SECTS <= secCnt < WORD - BITS_PER_SECTOR
    ensures BitLenWord(secCnt) == BitLen(secCnt) && BitmapSectsWord(secCnt) == BitmapSects(secCnt)
  {
    var free, n := secCnt - USED_SECTS, BitLen(secCnt);
    DropWrap(free);
    assert FreeWord(secCnt) == free;
    NoWrap(free);
    DropWrap(n);
    assert BitLenWord(secCnt) == n;
    NoWrap(n);
  }

  lemma DropWrap(x: nat)
    requires x < WORD
    ensures (x + WORD) % WORD == x
  {
  }

  lemma NoWrap(x: nat)
    requires x < WORD - BITS_PER_SECTOR
    ensures DivWord(x, BITS_PER_SECTOR) == DivRoundUp(x, BITS_PER_SECTOR) <= x
  {
  }

  /** Below the least size the bitmap comes out with no sector at all, so that its write would stop in
      ide_write's ASSERT; below the metadata's size the wrapped bit count has the padding of the
      bitmap's last byte, half a gigabyte past the buffer, come first. */
  lemma TooSmallPanics(secCnt: nat)
    requires secCnt < WORD - BITS_PER_SECTOR
    ensures BitmapSectsWord(secCnt) == 0 <==> secCnt < USED_SECTS + 2
    ensures BitmapSectsWord(secCnt) == 0 ==>
              if secCnt < USED_SECTS then BitLenWord(secCnt) / 8 > 0x1fff_0000 > INODE_TABLE_SECTS * SECTOR
              else BitLenWord(secCnt) / 8 == 0
  {
    if secCnt < USED_SECTS {
      assert FreeWord(secCnt) == WORD - (USED_SECTS - secCnt);
      assert FreeWord(secCnt) + BITS_PER_SECTOR - 1 == WORD + (BITS_PER_SECTOR - 1 - (USED_SECTS - secCnt));
    } else {
      WordsExact(secCnt);
    }
  }

  // ----- the five images -----

  function SuperWords(sb: SuperBlock): (ws: seq<nat>)
    ensures |ws| == 13
  {
    [sb.magic, sb.secCnt, sb.inodeCnt, sb.partLbaBase, sb.blockBitmapLba, sb.blockBitmapSects,
     sb.inodeBitmapLba, sb.inodeBitmapSects, sb.inodeTableLba, sb.inodeTableSects, sb.dataStartLba,
     sb.rootInodeNo, sb.dirEntrySize]
  }

  predicate Fits(sb: SuperBlock)
  {
    |sb.pad| == 460 && forall k :: 0 <= k < 13 ==> SuperWords(sb)[k] < WORD
  }

  /** The packed struct as it lies in memory. */
  function EncodeSuper(sb: SuperBlock): (bytes: seq<Byte>)
    requires Fits(sb)
    ensures |bytes| == SECTOR
  {
    var ws := SuperWords(sb);
    seq(52, i requires 0 <= i < 52 => Digit(ws[i / 4], i % 4)) + sb.pad
  }

  function FromWords(w: seq<nat>, pad: seq<Byte>): SuperBlock
    requires |w| == 13
  {
    SuperBlock(w[0], w[1], w[2], w[3], w[4], w[5], w[6], w[7], w[8], w[9], w[10], w[11], w[12], pad)
  }

  lemma DigitsOfCompose(a: nat, b: nat, c: nat, d: nat)
    requires a < 256 && b < 256 && c < 256 && d < 256
    ensures var w := Compose(a, b, c, d);
            Digit(w, 0) == a && Digit(w, 1) == b && Digit(w, 2) == c && Digit(w, 3) == d
  {
    var w := Compose(a, b, c, d);
    var w1, w2 := b + 0x100 * c + 0x10000 * d, c + 0x100 * d;
    assert w % 256 == a && w / 256 == w1;
    assert w1 % 256 == b && w1 / 256 == w2;
    assert w2 % 256 == c && w2 / 256 == d;
    assert Digit(w, 1) == Digit(w1, 0);
    assert Digit(w, 2) == Digit(w1, 1) == Digit(w2, 0);
    assert Digit(w, 3) == Digit(w1, 2) == Digit(w2, 1) == Digit(d, 0);
  }

  /** A loaded word is the one whose bytes are there. */
  lemma LoadedWord(bytes: seq<Byte>, at: nat)
    requires at + 4 <= |bytes|
    ensures HasWord(bytes, at, WordAt(bytes, at))
  {
    DigitsOfCompose(bytes[at], bytes[at + 1], bytes[at + 2], bytes[at + 3]);
  }

  /** Reading the packed struct out of a sector loses nothing. */
  method LoadSuper(bytes: seq<Byte>) returns (sb: SuperBlock)
    requires |bytes| == SECTOR
    ensures Fits(sb) && EncodeSuper(sb) == bytes
  {
    sb := FromWords(LoadWords(bytes), bytes[52..]);
    WordsBack(LoadWords(bytes), bytes[52..]);
    LoadedSuper(bytes, sb);
  }

  function LoadWords(bytes: seq<Byte>): (ws: seq<nat>)
    requires |bytes| == SECTOR
    ensures |ws| == 13 && forall k :: 0 <= k < 13 ==> ws[k] == WordAt(bytes, 4 * k)
  {
    seq(13, k requires 0 <= k < 13 => WordAt(bytes, 4 * k))
  }

  lemma WordsBack(ws: seq<nat>, pad: seq<Byte>)
    requires |ws| == 13
    ensures SuperWords(FromWords(ws, pad)) == ws
  {
  }

  lemma LoadedSuper(bytes: seq<Byte>, sb: SuperBlock)
    requires |bytes| == SECTOR && sb.pad == bytes[52..]
    requires forall k :: 0 <= k < 13 ==> SuperWords(sb)[k] == WordAt(bytes, 4 * k)
    ensures Fits(sb) && EncodeSuper(sb) == bytes
  {
    forall i | 0 <= i < 52 ensures EncodeSuper(sb)[i] == bytes[i] {
      LoadedByte(bytes, sb, i / 4, i % 4);
      assert 4 * (i / 4) + i % 4 == i;
    }
    assert EncodeSuper(sb)[52..] == bytes[52..];
    assert forall i :: 52 <= i < SECTOR ==> EncodeSuper(sb)[i] == EncodeSuper(sb)[52..][i - 52] == bytes[i];
  }

  lemma LoadedByte(bytes: seq<Byte>, sb: SuperBlock, k: nat, j: nat)
    requires |bytes| == SECTOR && Fits(sb) && k < 13 && j < 4 && SuperWords(sb)[k] == WordAt(bytes, 4 * k)
    ensures EncodeSuper(sb)[4 * k + j] == bytes[4 * k + j]
  {
    EncodedByte(sb, k, j);
    LoadedWord(bytes, 4 * k);
    assert j == 0 || j == 1 || j == 2 || j == 3;
  }

  lemma SuperWordBack(sb: SuperBlock, k: nat)
    requires Fits(sb) && k < 13
    ensures WordAt(EncodeSuper(sb), 4 * k) == SuperWords(sb)[k]
  {
    EncodedByte(sb, k, 0);
    EncodedByte(sb, k, 1);
    EncodedByte(sb, k, 2);
    EncodedByte(sb, k, 3);
    WordRoundTrip(SuperWords(sb)[k], EncodeSuper(sb), 4 * k);
  }

  lemma EncodedByte(sb: SuperBlock, k: nat, j: nat)
    requires Fits(sb) && k < 13 && j < 4
    ensures EncodeSuper(sb)[4 * k + j] == Digit(SuperWords(sb)[k], j)
  {
    assert (4 * k + j) / 4 == k && (4 * k + j) % 4 == j;
  }

  /** Two superblocks with the same 512 bytes agree in every field and in the padding. */
  lemma EncodeInjective(a: SuperBlock, b: SuperBlock)
    requires Fits(a) && Fits(b) && EncodeSuper(a) == EncodeSuper(b)
    ensures a == b
  {
    forall k | 0 <= k < 13 ensures SuperWords(a)[k] == SuperWords(b)[k] {
      SuperWordBack(a, k);
      SuperWordBack(b, k);
    }
    assert a.pad == EncodeSuper(a)[52..] && b.pad == EncodeSuper(b)[52..];
    assert FromWords(SuperWords(a), a.pad) == a && FromWords(SuperWords(b), b.pad) == b;
    assert SuperWords(a) == SuperWords(b);
  }

  lemma MadeSuperFits(start: nat, secCnt: nat, pad: seq<Byte>)
    requires Adequate(start, secCnt) && |pad| == 460
    ensures Fits(MakeSuper(start, secCnt, pad))
  {
    LayoutSound(start, secCnt, pad);
  }

  const DISK_BYTES := (MAX_LBA + 1) * SECTOR

  function Sectors(d: seq<Byte>, lba: nat, n: nat): (r: seq<Byte>)
    ensures (lba + n) * SECTOR <= |d| ==> |r| == n * SECTOR
  {
    if (lba + n) * SECTOR <= |d| then d[lba * SECTOR..lba * SECTOR + n * SECTOR] else []
  }

  /** r differs from a only inside n sectors from lba. */
  ghost predicate OnlySectors(r: seq<Byte>, a: seq<Byte>, lba: nat, n: nat)
  {
    |r| == |a| && forall i :: 0 <= i < |a| && !(lba * SECTOR <= i < (lba + n) * SECTOR) ==> r[i] == a[i]
  }

  /** The block bitmap as it should read: data block 0 is the root directory's, blocks past the
      end are taken. The bound is i > n, not i >= n, because the loop of fs.c:140 runs to last_bit
      inclusive. With fewer than 8 blocks the memset of fs.c:136 wipes out block 0's mark. */
  function BlockBits(len: nat, n: nat): (v: seq<bool>)
    ensures |v| == len
    ensures forall i :: 0 <= i < len ==> v[i] == (i > n || (i == 0 && n >= 8))
  {
    seq(len, i requires 0 <= i < len => i > n || (i == 0 && n >= 8))
  }

  predicate BlockBitmapImage(b: seq<Byte>, n: nat)
  {
    BitsOf(b) == BlockBits(8 * |b|, n)
  }

  predicate InodeBitmapImage(b: seq<Byte>)
  {
    b != [] && b[0] == 1 && forall k :: 1 <= k < |b| ==> b[k] == 0
  }

  /** Inode 0 is the root directory: two entries long, in the first data sector. */
  predicate InodeTableImage(b: seq<Byte>, dataStart: nat)
  {
    |b| >= INODE_SIZE && HasWord(b, 0, 0) && HasWord(b, 4, 2 * DIR_ENTRY_SIZE) && HasWord(b, 16, dataStart) &&
    forall k :: 8 <= k < |b| && !(16 <= k < 20) ==> b[k] == 0
  }

  /** The entries "." and "..", both inode 0, both FT_DIRECTORY (2). */
  predicate RootDirImage(b: seq<Byte>)
  {
    |b| == SECTOR && b[0] == 0x2e && b[24] == 0x2e && b[25] == 0x2e &&
    HasWord(b, 16, 0) && HasWord(b, 20, 2) && HasWord(b, 40, 0) && HasWord(b, 44, 2) &&
    forall k :: 0 <= k < SECTOR && k != 0 && k != 24 && k != 25 && !(16 <= k < 24) && !(40 <= k < 48) ==> b[k] == 0
  }

  ghost predicate Formatted(r: seq<Byte>, start: nat, secCnt: nat, pad: seq<Byte>)
    requires secCnt >= USED_SECTS
  {
    var sb := MakeSuper(start, secCnt, pad);
    Fits(sb) && Sectors(r, SuperLba(start), 1) == EncodeSuper(sb) &&
    BlockBitmapImage(Sectors(r, sb.blockBitmapLba, sb.blockBitmapSects), BitLen(secCnt)) &&
    InodeBitmapImage(Sectors(r, sb.inodeBitmapLba, sb.inodeBitmapSects)) &&
    InodeTableImage(Sectors(r, sb.inodeTableLba, sb.inodeTableSects), sb.dataStartLba) &&
    RootDirImage(Sectors(r, sb.dataStartLba, 1))
  }

  /** So does the sector it is written to, word by word. */
  lemma SectorDescribes(d: seq<Byte>, start: nat, secCnt: nat, pad: seq<Byte>)
    requires Adequate(start, secCnt) && Formatted(d, start, secCnt, pad)
    ensures SectorOk(Sectors(d, SuperLba(start), 1), start, secCnt)
  {
    SuperDescribes(start, secCnt, pad);
    SectorOf(MakeSuper(start, secCnt, pad), Sectors(d, SuperLba(start), 1), start, secCnt);
  }

  lemma SectorOf(sb: SuperBlock, b: seq<Byte>, start: nat, secCnt: nat)
    requires Fits(sb) && b == EncodeSuper(sb) && SuperOk(sb, start, secCnt)
    ensures SectorOk(b, start, secCnt)
  {
    EncodedWords(sb, b);
  }

  lemma EncodedWords(sb: SuperBlock, b: seq<Byte>)
    requires Fits(sb) && b == EncodeSuper(sb)
    ensures WordAt(b, 0) == sb.magic && WordAt(b, 4) == sb.secCnt && WordAt(b, 8) == sb.inodeCnt
    ensures WordAt(b, 12) == sb.partLbaBase && WordAt(b, 16) == sb.blockBitmapLba
    ensures WordAt(b, 20) == sb.blockBitmapSects && WordAt(b, 24) == sb.inodeBitmapLba
    ensures WordAt(b, 28) == sb.inodeBitmapSects && WordAt(b, 32) == sb.inodeTableLba
    ensures WordAt(b, 36) == sb.inodeTableSects && WordAt(b, 40) == sb.dataStartLba
    ensures WordAt(b, 44) == sb.rootInodeNo && WordAt(b, 48) == sb.dirEntrySize
  {
    EncodedWord(sb, b, 0, 0);
    EncodedWord(sb, b, 1, 4);
    EncodedWord(sb, b, 2, 8);
    EncodedWord(sb, b, 3, 12);
    EncodedWord(sb, b, 4, 16);
    EncodedWord(sb, b, 5, 20);
    EncodedWord(sb, b, 6, 24);
    EncodedWord(sb, b, 7, 28);
    EncodedWord(sb, b, 8, 32);
    EncodedWord(sb, b, 9, 36);
    EncodedWord(sb, b, 10, 40);
    EncodedWord(sb, b, 11, 44);
    EncodedWord(sb, b, 12, 48);
  }

  lemma EncodedWord(sb: SuperBlock, b: seq<Byte>, k: nat, at: nat)
    requires Fits(sb) && b == EncodeSuper(sb) && k < 13 && at == 4 * k
    ensures WordAt(b, at) == SuperWords(sb)[k]
  {
    SuperWordBack(sb, k);
  }

  /** A directory entry: its name is as many dots and a NUL, then come its inode and its type. */
  predicate DotEntry(b: seq<Byte>, at: nat, dots: nat, inode: nat)
    requires at + 24 <= |b|
  {
    (forall k :: at <= k < at + 16 ==> b[k] == if k < at + dots then 0x2e else 0) &&
    HasWord(b, at + 16, inode) && HasWord(b, at + 20, 2)
  }

  /** From the words of the superblock's sector one gets to the root directory: the inode it numbers
      is the first of the table, is two entries long and lies in the first data sector; "." and ".."
      are there and both are that inode. */
  lemma RootFound(d: seq<Byte>, start: nat, secCnt: nat, pad: seq<Byte>)
    requires Adequate(start, secCnt) && |d| == DISK_BYTES && Formatted(d, start, secCnt, pad)
    ensures var b := Sectors(d, SuperLba(start), 1);
            |b| == SECTOR &&
            var root := WordAt(b, 44);
            var table, dir := Sectors(d, WordAt(b, 32), WordAt(b, 36)), Sectors(d, WordAt(b, 40), 1);
            HasWord(table, 0, root) && HasWord(table, 4, 2 * WordAt(b, 48)) && HasWord(table, 16, WordAt(b, 40)) &&
            |dir| == SECTOR && WordAt(b, 48) == 24 && DotEntry(dir, 0, 1, root) && DotEntry(dir, 24, 2, root)
  {
    var sb := MakeSuper(start, secCnt, pad);
    RootEntries(Sectors(d, sb.dataStartLba, 1));
    InodeWords(Sectors(d, sb.inodeTableLba, sb.inodeTableSects), sb.dataStartLba);
    EncodedWords(sb, Sectors(d, SuperLba(start), 1));
  }

  lemma InodeWords(table: seq<Byte>, data: nat)
    requires InodeTableImage(table, data)
    ensures HasWord(table, 0, 0) && HasWord(table, 4, 48) && HasWord(table, 16, data)
  {
  }

  lemma RootEntries(root: seq<Byte>)
    requires RootDirImage(root)
    ensures DotEntry(root, 0, 1, 0) && DotEntry(root, 24, 2, 0)
  {
  }

  lemma CopiedSectors(r: seq<Byte>, a: seq<Byte>, lba: nat, buf: seq<Byte>, n: nat)
    requires Copied(r, a, lba * SECTOR, buf, 0, n * SECTOR)
    ensures Sectors(r, lba, n) == buf[..n * SECTOR]
    ensures OnlySectors(r, a, lba, n)
  {
    CopiedReads(r, a, lba * SECTOR, buf, 0, n * SECTOR, lba * SECTOR, n * SECTOR);
  }

  lemma OtherSectors(r: seq<Byte>, a: seq<Byte>, lba: nat, n: nat, at: nat, m: nat)
    requires OnlySectors(r, a, lba, n) && (at + m) * SECTOR <= |a| && (at + m <= lba || lba + n <= at)
    ensures Sectors(r, at, m) == Sectors(a, at, m)
  {
  }

  lemma ByteBits(j: nat)
    requires j < 8
    ensures !TestBit(0, j) && TestBit(0xff, j)
  {
    ZeroBits(j);
    FullByteBits(j);
  }

  // ----- the code -----

  method Memset(buf: array<Byte>, pos: nat, value: Byte, size: nat)
    requires pos + size <= buf.Length
    modifies buf
    ensures forall k :: 0 <= k < buf.Length ==> buf[k] == if pos <= k < pos + size then value else old(buf[k])
  {
    for i := 0 to size
      invariant forall k :: 0 <= k < buf.Length ==> buf[k] == if pos <= k < pos + i then value else old(buf[k])
    {
      buf[pos + i] := value;
    }
  }

  /** A 32-bit store into a struct. */
  method StoreWord(buf: array<Byte>, at: nat, w: nat)
    requires at + 4 <= buf.Length && w < WORD
    modifies buf
    ensures HasWord(buf[..], at, w)
    ensures forall k :: 0 <= k < buf.Length && !(at <= k < at + 4) ==> buf[k] == old(buf[k])
  {
    buf[at] := Digit(w, 0);
    buf[at + 1] := Digit(w, 1);
    buf[at + 2] := Digit(w, 2);
    buf[at + 3] := Digit(w, 3);
  }

  /** Lines 130 to 142. */
  method FillBlockBitmap(buf: array<Byte>, bitLen: nat, sects: nat)
    requires sects >= 1 && (sects - 1) * BITS_PER_SECTOR < bitLen <= sects * BITS_PER_SECTOR
    requires (sects + 1) * SECTOR <= buf.Length
    requires forall k :: 0 <= k < buf.Length ==> buf[k] == 0
    modifies buf
    ensures BlockBitmapImage(buf[..sects * SECTOR], bitLen)
  {
    buf[0] := PutBitByte(buf[0], 0, true);
    var lastByte, lastBit := bitLen / 8, bitLen % 8;
    var lastSize := SECTOR - lastByte % SECTOR;
    Memset(buf, lastByte, 0xff, lastSize);
    var bitIdx := 0;
    forall j: nat | j < 8 ensures TestBit(0xff, j) { FullByteBits(j); }
    while bitIdx <= lastBit
      invariant 0 <= bitIdx <= lastBit + 1
      invariant forall k :: 0 <= k < buf.Length && k != lastByte ==>
                  buf[k] == if lastByte <= k < lastByte + lastSize then 0xff
                            else if k == 0 then PutBit(0, 0, true) else 0
      invariant forall j: nat :: j < 8 ==> (TestBit(buf[lastByte], j) <==> j >= bitIdx)
    {
      ghost var was := buf[lastByte];
      buf[lastByte] := PutBitByte(buf[lastByte], bitIdx, false);
      forall j: nat | j < 8 ensures TestBit(buf[lastByte], j) <==> j >= bitIdx + 1 {
        PutBitExact(was, bitIdx, false, j);
      }
      bitIdx := bitIdx + 1;
    }
    var v, w := BitsOf(buf[..sects * SECTOR]), BlockBits(8 * sects * SECTOR, bitLen);
    forall i | 0 <= i < 8 * sects * SECTOR ensures v[i] == w[i] {
      var k, j := i / 8, i % 8;
      ByteBits(j);
      if k < lastByte {
        if k == 0 { PutBitExact(0, 0, true, j); }
      } else if k > lastByte {
        assert lastByte / SECTOR == k / SECTOR == sects - 1;
      }
    }
  }

  class Partition {
    const startLba: nat
    const secCnt: nat
    const devNo: nat
    const name: string
    var sb: SuperBlock
    var blockBitmap: array<Byte>
    var inodeBitmap: array<Byte>

    constructor (start: nat, cnt: nat, dev: nat, nm: string)
      ensures startLba == start && secCnt == cnt && devNo == dev && name == nm
    {
      startLba, secCnt, devNo, name := start, cnt, dev, nm;
      sb := SuperBlock(0, 0, 0, 0, 0, 0, 0, 0, 0, 0, 0, 0, 0, []);
      blockBitmap := new Byte[0];
      inodeBitmap := new Byte[0];
    }
  }

  /** ide_write from the start of a buffer, seen as sectors. */
  method WriteSectors(hd: Controller, devNo: nat, lba: nat, buf: array<Byte>, n: nat)
    requires hd.Valid() && devNo <= 1 && n > 0 && lba + n <= MAX_LBA + 1
    requires n * SECTOR <= buf.Length && buf != hd.master && buf != hd.slave
    modifies hd, hd.Disk(devNo)
    ensures Sectors(hd.Disk(devNo)[..], lba, n) == buf[..n * SECTOR]
    ensures OnlySectors(hd.Disk(devNo)[..], old(hd.Disk(devNo)[..]), lba, n)
  {
    hd.IdeWrite(devNo, lba, buf, 0, n);
    CopiedSectors(hd.Disk(devNo)[..], old(hd.Disk(devNo)[..]), lba, buf[..], n);
  }

  method WriteSuper(hd: Controller, devNo: nat, lba: nat, sb: SuperBlock)
    requires hd.Valid() && devNo <= 1 && lba + 1 <= MAX_LBA + 1 && Fits(sb)
    modifies hd, hd.Disk(devNo)
    ensures Sectors(hd.Disk(devNo)[..], lba, 1) == EncodeSuper(sb)
    ensures OnlySectors(hd.Disk(devNo)[..], old(hd.Disk(devNo)[..]), lba, 1)
  {
    var bytes := EncodeSuper(sb);
    var raw := new Byte[SECTOR](i requires 0 <= i < SECTOR => bytes[i]);
    assert raw[..1 * SECTOR] == bytes;
    WriteSectors(hd, devNo, lba, raw, 1);
  }

  method WriteBlockBitmap(hd: Controller, devNo: nat, lba: nat, buf: array<Byte>, bitLen: nat, sects: nat)
    requires hd.Valid() && devNo <= 1 && lba + sects <= MAX_LBA + 1 && buf != hd.master && buf != hd.slave
    requires sects >= 1 && (sects - 1) * BITS_PER_SECTOR < bitLen <= sects * BITS_PER_SECTOR
    requires (sects + 1) * SECTOR <= buf.Length && forall k :: 0 <= k < buf.Length ==> buf[k] == 0
    modifies hd, hd.Disk(devNo), buf
    ensures BlockBitmapImage(Sectors(hd.Disk(devNo)[..], lba, sects), bitLen)
    ensures OnlySectors(hd.Disk(devNo)[..], old(hd.Disk(devNo)[..]), lba, sects)
  {
    FillBlockBitmap(buf, bitLen, sects);
    WriteSectors(hd, devNo, lba, buf, sects);
  }

  method WriteInodeBitmap(hd: Controller, devNo: nat, lba: nat, buf: array<Byte>, sects: nat)
    requires hd.Valid() && devNo <= 1 && lba + sects <= MAX_LBA + 1 && buf != hd.master && buf != hd.slave
    requires sects >= 1 && sects * SECTOR <= buf.Length
    modifies hd, hd.Disk(devNo), buf
    ensures InodeBitmapImage(Sectors(hd.Disk(devNo)[..], lba, sects))
    ensures OnlySectors(hd.Disk(devNo)[..], old(hd.Disk(devNo)[..]), lba, sects)
  {
    Memset(buf, 0, 0, buf.Length);
    buf[0] := PutBitByte(buf[0], 0, true);
    WriteSectors(hd, devNo, lba, buf, sects);
  }

  method FillInode(buf: array<Byte>, size: nat, dataStart: nat)
    requires INODE_SIZE <= size <= buf.Length && dataStart < WORD
    modifies buf
    ensures InodeTableImage(buf[..size], dataStart)
  {
    Memset(buf, 0, 0, buf.Length);
    StoreWord(buf, 4, DIR_ENTRY_SIZE * 2);
    StoreWord(buf, 0, 0);
    StoreWord(buf, 16, dataStart);
  }

  method FillRootDir(buf: array<Byte>)
    requires SECTOR <= buf.Length
    modifies buf
    ensures RootDirImage(buf[..SECTOR])
  {
    Memset(buf, 0, 0, buf.Length);
    buf[0] := 0x2e;
    StoreWord(buf, 16, 0);
    StoreWord(buf, 20, 2);
    buf[24], buf[25] := 0x2e, 0x2e;
    StoreWord(buf, 40, 0);
    StoreWord(buf, 44, 2);
  }

  method WriteInodeTable(hd: Controller, devNo: nat, lba: nat, buf: array<Byte>, sects: nat, dataStart: nat)
    requires hd.Valid() && devNo <= 1 && lba + sects <= MAX_LBA + 1 && buf != hd.master && buf != hd.slave
    requires sects >= 1 && sects * SECTOR <= buf.Length && dataStart < WORD
    modifies hd, hd.Disk(devNo), buf
    ensures InodeTableImage(Sectors(hd.Disk(devNo)[..], lba, sects), dataStart)
    ensures OnlySectors(hd.Disk(devNo)[..], old(hd.Disk(devNo)[..]), lba, sects)
  {
    FillInode(buf, sects * SECTOR, dataStart);
    WriteSectors(hd, devNo, lba, buf, sects);
  }

  method WriteRootDir(hd: Controller, devNo: nat, lba: nat, buf: array<Byte>)
    requires hd.Valid() && devNo <= 1 && lba + 1 <= MAX_LBA + 1 && buf != hd.master && buf != hd.slave
    requires SECTOR <= buf.Length
    modifies hd, hd.Disk(devNo), buf
    ensures RootDirImage(Sectors(hd.Disk(devNo)[..], lba, 1))
    ensures OnlySectors(hd.Disk(devNo)[..], old(hd.Disk(devNo)[..]), lba, 1)
  {
    FillRootDir(buf);
    WriteSectors(hd, devNo, lba, buf, 1);
  }

  /** Steps 2 and 3 of partition_format. */
  method WriteBitmaps(hd: Controller, devNo: nat, sb: SuperBlock, bitLen: nat, buf: array<Byte>)
    requires hd.Valid() && devNo <= 1 && buf != hd.master && buf != hd.slave
    requires sb.blockBitmapLba + sb.blockBitmapSects == sb.inodeBitmapLba
    requires sb.inodeBitmapLba + sb.inodeBitmapSects <= MAX_LBA + 1
    requires sb.blockBitmapSects >= 1 && sb.inodeBitmapSects >= 1
    requires (sb.blockBitmapSects - 1) * BITS_PER_SECTOR < bitLen <= sb.blockBitmapSects * BITS_PER_SECTOR
    requires (sb.blockBitmapSects + 1) * SECTOR <= buf.Length && sb.inodeBitmapSects * SECTOR <= buf.Length
    requires forall k :: 0 <= k < buf.Length ==> buf[k] == 0
    modifies hd, hd.Disk(devNo), buf
    ensures BlockBitmapImage(Sectors(hd.Disk(devNo)[..], sb.blockBitmapLba, sb.blockBitmapSects), bitLen)
    ensures InodeBitmapImage(Sectors(hd.Disk(devNo)[..], sb.inodeBitmapLba, sb.inodeBitmapSects))
    ensures OnlySectors(hd.Disk(devNo)[..], old(hd.Disk(devNo)[..]), sb.blockBitmapLba,
                        sb.blockBitmapSects + sb.inodeBitmapSects)
  {
    ghost var d0 := hd.Disk(devNo)[..];
    WriteBlockBitmap(hd, devNo, sb.blockBitmapLba, buf, bitLen, sb.blockBitmapSects);
    ghost var d1 := hd.Disk(devNo)[..];
    WriteInodeBitmap(hd, devNo, sb.inodeBitmapLba, buf, sb.inodeBitmapSects);
    ghost var d2 := hd.Disk(devNo)[..];
    OtherSectors(d2, d1, sb.inodeBitmapLba, sb.inodeBitmapSects, sb.blockBitmapLba, sb.blockBitmapSects);
    WritesJoin(d1, d0, sb.blockBitmapLba, sb.blockBitmapSects, d2, sb.inodeBitmapLba, sb.inodeBitmapSects);
  }

  /** Steps 4 and 5. */
  method WriteTables(hd: Controller, devNo: nat, sb: SuperBlock, buf: array<Byte>)
    requires hd.Valid() && devNo <= 1 && buf != hd.master && buf != hd.slave
    requires sb.inodeTableLba + sb.inodeTableSects == sb.dataStartLba <= MAX_LBA
    requires sb.inodeTableSects >= 1 && sb.inodeTableSects * SECTOR <= buf.Length
    modifies hd, hd.Disk(devNo), buf
    ensures InodeTableImage(Sectors(hd.Disk(devNo)[..], sb.inodeTableLba, sb.inodeTableSects), sb.dataStartLba)
    ensures RootDirImage(Sectors(hd.Disk(devNo)[..], sb.dataStartLba, 1))
    ensures OnlySectors(hd.Disk(devNo)[..], old(hd.Disk(devNo)[..]), sb.inodeTableLba, sb.inodeTableSects + 1)
  {
    ghost var d0 := hd.Disk(devNo)[..];
    WriteInodeTable(hd, devNo, sb.inodeTableLba, buf, sb.inodeTableSects, sb.dataStartLba);
    ghost var d1 := hd.Disk(devNo)[..];
    WriteRootDir(hd, devNo, sb.dataStartLba, buf);
    ghost var d2 := hd.Disk(devNo)[..];
    OtherSectors(d2, d1, sb.dataStartLba, 1, sb.inodeTableLba, sb.inodeTableSects);
    WritesJoin(d1, d0, sb.inodeTableLba, sb.inodeTableSects, d2, sb.dataStartLba, 1);
  }

  /** The five writes of partition_format. */
  method WriteImages(hd: Controller, part: Partition, sb: SuperBlock)
    requires hd.Valid() && part.devNo <= 1 && Adequate(part.startLba, part.secCnt) && |sb.pad| == 460
    requires sb == MakeSuper(part.startLba, part.secCnt, sb.pad)
    modifies hd, hd.Disk(part.devNo)
    ensures Formatted(hd.Disk(part.devNo)[..], part.startLba, part.secCnt, sb.pad)
    ensures OnlySectors(hd.Disk(part.devNo)[..], old(hd.Disk(part.devNo)[..]), part.startLba + 1,
                        sb.dataStartLba - part.startLba)
  {
    LayoutSound(part.startLba, part.secCnt, sb.pad);
    MadeSuperFits(part.startLba, part.secCnt, sb.pad);
    ghost var d0 := hd.Disk(part.devNo)[..];
    var at := SuperLba(part.startLba);
    WriteSuper(hd, part.devNo, at, sb);
    ghost var d1 := hd.Disk(part.devNo)[..];

    var bufSects := if sb.blockBitmapSects >= sb.inodeBitmapSects then sb.blockBitmapSects else sb.inodeBitmapSects;
    bufSects := if bufSects >= sb.inodeTableSects then bufSects else sb.inodeTableSects;
    var buf := new Byte[bufSects * SECTOR](_ => 0);
    WriteBitmaps(hd, part.devNo, sb, BitLen(part.secCnt), buf);
    ghost var d2 := hd.Disk(part.devNo)[..];
    WriteTables(hd, part.devNo, sb, buf);
    ghost var d3 := hd.Disk(part.devNo)[..];
    WritesApart(d0, d1, d2, d3, at, sb);
    AllInPlace(d1, d2, d3, part.startLba, part.secCnt, at, sb);
  }

  /** partition_format. The five images are in place, the superblock's sector describes the partition
      it lies on, no write landed on another's sectors, and outside the metadata and the root
      directory's sector not a byte of the drive has changed. */
  method PartitionFormat(hd: Controller, part: Partition, pad: seq<Byte>)
    requires hd.Valid() && part.devNo <= 1 && Adequate(part.startLba, part.secCnt) && |pad| == 460
    modifies hd, hd.Disk(part.devNo)
    ensures Formatted(hd.Disk(part.devNo)[..], part.startLba, part.secCnt, pad)
    ensures SectorOk(Sectors(hd.Disk(part.devNo)[..], SuperLba(part.startLba), 1), part.startLba, part.secCnt)
    ensures OnlySectors(hd.Disk(part.devNo)[..], old(hd.Disk(part.devNo)[..]), part.startLba + 1,
                        MakeSuper(part.startLba, part.secCnt, pad).dataStartLba - part.startLba)
  {
    WriteImages(hd, part, MakeSuper(part.startLba, part.secCnt, pad));
    ghost var d := hd.Disk(part.devNo)[..];
    SectorDescribes(d, part.startLba, part.secCnt, pad);
  }

  lemma AllInPlace(d1: seq<Byte>, d2: seq<Byte>, d3: seq<Byte>, start: nat, secCnt: nat, at: nat, sb: SuperBlock)
    requires secCnt >= USED_SECTS && Fits(sb) && at == SuperLba(start)
    requires sb == MakeSuper(start, secCnt, sb.pad)
    requires Sectors(d1, at, 1) == EncodeSuper(sb)
    requires Sectors(d3, at, 1) == Sectors(d1, at, 1)
    requires BlockBitmapImage(Sectors(d2, sb.blockBitmapLba, sb.blockBitmapSects), BitLen(secCnt))
    requires Sectors(d3, sb.blockBitmapLba, sb.blockBitmapSects) == Sectors(d2, sb.blockBitmapLba, sb.blockBitmapSects)
    requires InodeBitmapImage(Sectors(d2, sb.inodeBitmapLba, sb.inodeBitmapSects))
    requires Sectors(d3, sb.inodeBitmapLba, sb.inodeBitmapSects) == Sectors(d2, sb.inodeBitmapLba, sb.inodeBitmapSects)
    requires InodeTableImage(Sectors(d3, sb.inodeTableLba, sb.inodeTableSects), sb.dataStartLba)
    requires RootDirImage(Sectors(d3, sb.dataStartLba, 1))
    ensures Formatted(d3, start, secCnt, sb.pad)
  {
  }

  lemma WritesApart(d0: seq<Byte>, d1: seq<Byte>, d2: seq<Byte>, d3: seq<Byte>, at: nat, sb: SuperBlock)
    requires |d0| == DISK_BYTES && sb.dataStartLba <= MAX_LBA &&  at + 1 == sb.blockBitmapLba
    requires sb.blockBitmapLba + sb.blockBitmapSects == sb.inodeBitmapLba
    requires sb.inodeBitmapLba + sb.inodeBitmapSects == sb.inodeTableLba
    requires sb.inodeTableLba + sb.inodeTableSects == sb.dataStartLba
    requires OnlySectors(d1, d0, at, 1)
    requires OnlySectors(d2, d1, sb.blockBitmapLba, sb.blockBitmapSects + sb.inodeBitmapSects)
    requires OnlySectors(d3, d2, sb.inodeTableLba, sb.inodeTableSects + 1)
    ensures Sectors(d3, at, 1) == Sectors(d1, at, 1)
    ensures Sectors(d3, sb.blockBitmapLba, sb.blockBitmapSects) == Sectors(d2, sb.blockBitmapLba, sb.blockBitmapSects)
    ensures Sectors(d3, sb.inodeBitmapLba, sb.inodeBitmapSects) == Sectors(d2, sb.inodeBitmapLba, sb.inodeBitmapSects)
    ensures OnlySectors(d3, d0, at, sb.dataStartLba - at + 1)
  {
    OtherSectors(d2, d1, sb.blockBitmapLba, sb.blockBitmapSects + sb.inodeBitmapSects, at, 1);
    OtherSectors(d3, d2, sb.inodeTableLba, sb.inodeTableSects + 1, at, 1);
    OtherSectors(d3, d2, sb.inodeTableLba, sb.inodeTableSects + 1, sb.blockBitmapLba, sb.blockBitmapSects);
    OtherSectors(d3, d2, sb.inodeTableLba, sb.inodeTableSects + 1, sb.inodeBitmapLba, sb.inodeBitmapSects);
    WritesJoin(d1, d0, at, 1, d2, sb.blockBitmapLba, sb.blockBitmapSects + sb.inodeBitmapSects);
    WritesJoin(d2, d0, at, 1 + sb.blockBitmapSects + sb.inodeBitmapSects, d3, sb.inodeTableLba, sb.inodeTableSects + 1);
  }

  lemma WritesJoin(m: seq<Byte>, a: seq<Byte>, lba: nat, n: nat, r: seq<Byte>, at: nat, k: nat)
    requires OnlySectors(m, a, lba, n) && OnlySectors(r, m, at, k) && at == lba + n
    ensures OnlySectors(r, a, lba, n + k)
  {
  }

  // ----- what the formatted bitmap says -----

  /** A block the bitmap offers as free. */
  predicate Offered(secCnt: nat, i: nat)
    requires secCnt >= USED_SECTS
  {
    i < BitmapSects(secCnt) * BITS_PER_SECTOR &&
    !BlockBits(BitmapSects(secCnt) * BITS_PER_SECTOR, BitLen(secCnt))[i]
  }

  /** Every data block but the root's is offered, and at most one number beyond them. */
  lemma OfferedBlocks(start: nat, secCnt: nat, i: nat)
    requires Adequate(start, secCnt)
    ensures 1 <= i < BitLen(secCnt) ==> Offered(secCnt, i)
    ensures Offered(secCnt, i) ==> i <= BitLen(secCnt) && (BitLen(secCnt) >= 8 ==> i >= 1)
  {
    LayoutSound(start, secCnt, []);
  }

  /** Block n = BitLen is offered too, unless the bitmap has no room for its bit. Its sector is
      the one after the partition exactly when the first estimate was already right. */
  lemma OfferedOutsideIff(start: nat, secCnt: nat)
    requires Adequate(start, secCnt)
    ensures (exists i: nat :: Offered(secCnt, i) && MakeSuper(start, secCnt, []).dataStartLba + i >= start + secCnt)
            <==> FirstEstimate(secCnt) == BitmapSects(secCnt) && BitLen(secCnt) % BITS_PER_SECTOR != 0
  {
    LayoutSound(start, secCnt, []);
    var n := BitLen(secCnt);
    forall i: nat | Offered(secCnt, i) ensures i <= n { OfferedBlocks(start, secCnt, i); }
    if FirstEstimate(secCnt) == BitmapSects(secCnt) && n % BITS_PER_SECTOR != 0 {
      assert n < BitmapSects(secCnt) * BITS_PER_SECTOR;
      assert Offered(secCnt, n);
    } else if n % BITS_PER_SECTOR == 0 {
      assert n == BitmapSects(secCnt) * BITS_PER_SECTOR;
    }
  }

  /** A partition of 1000 sectors: its bitmap offers block 388, whose sector is outside it. */
  lemma OfferedOutsideWitness()
    ensures Adequate(63, 1000) && Offered(1000, 388) && MakeSuper(63, 1000, []).dataStartLba + 388 == 63 + 1000
  {
  }

  /** The root directory's block is marked taken exactly when there are at least 8 blocks. */
  lemma RootMarkedIff(start: nat, secCnt: nat)
    requires Adequate(start, secCnt)
    ensures !Offered(secCnt, 0) <==> BitLen(secCnt) >= 8
  {
    LayoutSound(start, secCnt, []);
  }

  /** The smallest partitions lose the mark: with 613 sectors there is one data block, the root
      directory's own, and the bitmap offers it. */
  lemma RootUnmarkedWitness()
    ensures Adequate(63, 613) && BitLen(613) == 1 && Offered(613, 0)
  {
    RootMarkedIff(63, 613);
  }

  // ----- mounting -----

  /** What lies on the disk can be read: the ranges its superblock names are on the disk and not
      empty. */
  ghost predicate Mountable(d: seq<Byte>, start: nat)
  {
    start + 1 <= MAX_LBA &&
    forall sb :: Fits(sb) && EncodeSuper(sb) == Sectors(d, SuperLba(start), 1) ==>
      sb.blockBitmapSects > 0 && sb.blockBitmapLba + sb.blockBitmapSects <= MAX_LBA + 1 &&
      sb.inodeBitmapSects > 0 && sb.inodeBitmapLba + sb.inodeBitmapSects <= MAX_LBA + 1
  }

  method ReadSectors(hd: Controller, devNo: nat, lba: nat, n: nat) returns (buf: array<Byte>)
    requires hd.Valid() && devNo <= 1 && n > 0 && lba + n <= MAX_LBA + 1
    modifies hd
    ensures fresh(buf) && buf[..] == Sectors(hd.Disk(devNo)[..], lba, n)
  {
    buf := new Byte[n * SECTOR](_ => 0);
    hd.IdeRead(devNo, lba, buf, 0, n);
  }

  ghost predicate Mounted(part: Partition, d: seq<Byte>)
    reads part, part.blockBitmap, part.inodeBitmap
  {
    Fits(part.sb) && EncodeSuper(part.sb) == Sectors(d, SuperLba(part.startLba), 1) &&
    part.blockBitmap[..] == Sectors(d, part.sb.blockBitmapLba, part.sb.blockBitmapSects) &&
    part.inodeBitmap[..] == Sectors(d, part.sb.inodeBitmapLba, part.sb.inodeBitmapSects)
  }

  /** mount_partition, called by list_traversal: true stops the traversal. */
  method MountPartition(hd: Controller, part: Partition, partName: string) returns (hit: bool)
    requires hd.Valid() && part.devNo <= 1
    requires part.name == partName ==> Mountable(hd.Disk(part.devNo)[..], part.startLba)
    modifies hd, part
    ensures hit <==> part.name == partName
    ensures !hit ==> unchanged(part)
    ensures hit ==> Mounted(part, hd.Disk(part.devNo)[..])
    ensures hit ==> fresh(part.blockBitmap) && fresh(part.inodeBitmap)
  {
    if part.name != partName {
      return false;
    }
    var sbBuf := ReadSectors(hd, part.devNo, SuperLba(part.startLba), 1);
    part.sb := LoadSuper(sbBuf[..]);
    part.blockBitmap := ReadSectors(hd, part.devNo, part.sb.blockBitmapLba, part.sb.blockBitmapSects);
    part.inodeBitmap := ReadSectors(hd, part.devNo, part.sb.inodeBitmapLba, part.sb.inodeBitmapSects);
    hit := true;
  }

  /** Whatever superblock is read from a formatted partition is the one that was written. */
  lemma FormattedSuper(d: seq<Byte>, start: nat, secCnt: nat, pad: seq<Byte>, sb: SuperBlock)
    requires secCnt >= USED_SECTS && Formatted(d, start, secCnt, pad)
    requires Fits(sb) && EncodeSuper(sb) == Sectors(d, SuperLba(start), 1)
    ensures sb == MakeSuper(start, secCnt, pad)
  {
    EncodeInjective(sb, MakeSuper(start, secCnt, pad));
  }

  lemma FormattedMountable(d: seq<Byte>, start: nat, secCnt: nat, pad: seq<Byte>)
    requires Adequate(start, secCnt) && Formatted(d, start, secCnt, pad)
    ensures Mountable(d, start)
  {
    LayoutSound(start, secCnt, pad);
    forall sb | Fits(sb) && EncodeSuper(sb) == Sectors(d, SuperLba(start), 1)
      ensures sb == MakeSuper(start, secCnt, pad)
    {
      FormattedSuper(d, start, secCnt, pad, sb);
    }
  }

  method FormatMountable(hd: Controller, part: Partition, pad: seq<Byte>)
    requires hd.Valid() && part.devNo <= 1 && Adequate(part.startLba, part.secCnt) && |pad| == 460
    modifies hd, hd.Disk(part.devNo)
    ensures Formatted(hd.Disk(part.devNo)[..], part.startLba, part.secCnt, pad)
    ensures Mountable(hd.Disk(part.devNo)[..], part.startLba)
  {
    PartitionFormat(hd, part, pad);
    ghost var d := hd.Disk(part.devNo)[..];
    FormattedMountable(d, part.startLba, part.secCnt, pad);
  }

  /** Format, then mount: the superblock describes the partition, it is the same field by
      field, and both bitmaps are byte for byte as they were written. */
  method FormatThenMount(hd: Controller, part: Partition, pad: seq<Byte>)
    requires hd.Valid() && part.devNo <= 1 && Adequate(part.startLba, part.secCnt) && |pad| == 460
    modifies hd, hd.Disk(part.devNo), part
    ensures part.sb == MakeSuper(part.startLba, part.secCnt, pad)
    ensures SuperOk(part.sb, part.startLba, part.secCnt)
    ensures BlockBitmapImage(part.blockBitmap[..], BitLen(part.secCnt))
    ensures part.blockBitmap.Length == BitmapSects(part.secCnt) * SECTOR
    ensures InodeBitmapImage(part.inodeBitmap[..]) && part.inodeBitmap.Length == SECTOR
  {
    FormatMountable(hd, part, pad);
    MountFormatted(hd, part, pad);
    SuperDescribes(part.startLba, part.secCnt, pad);
  }

  method MountFormatted(hd: Controller, part: Partition, ghost pad: seq<Byte>)
    requires hd.Valid() && part.devNo <= 1 && Adequate(part.startLba, part.secCnt)
    requires Formatted(hd.Disk(part.devNo)[..], part.startLba, part.secCnt, pad)
    requires Mountable(hd.Disk(part.devNo)[..], part.startLba)
    modifies hd, part
    ensures part.sb == MakeSuper(part.startLba, part.secCnt, pad)
    ensures BlockBitmapImage(part.blockBitmap[..], BitLen(part.secCnt))
    ensures part.blockBitmap.Length == BitmapSects(part.secCnt) * SECTOR
    ensures InodeBitmapImage(part.inodeBitmap[..]) && part.inodeBitmap.Length == SECTOR
  {
    ghost var d := hd.Disk(part.devNo)[..];
    var hit := MountPartition(hd, part, part.name);
    ReadBack(d, part.startLba, part.secCnt, pad, part.sb, part.blockBitmap[..], part.inodeBitmap[..]);
  }

  lemma ReadBack(d: seq<Byte>, start: nat, secCnt: nat, pad: seq<Byte>, sb: SuperBlock, bb: seq<Byte>, ib: seq<Byte>)
    requires Adequate(start, secCnt) && |d| == DISK_BYTES && Formatted(d, start, secCnt, pad)
    requires Fits(sb) && EncodeSuper(sb) == Sectors(d, SuperLba(start), 1)
    requires bb == Sectors(d, sb.blockBitmapLba, sb.blockBitmapSects)
    requires ib == Sectors(d, sb.inodeBitmapLba, sb.inodeBitmapSects)
    ensures sb == MakeSuper(start, secCnt, pad)
    ensures BlockBitmapImage(bb, BitLen(secCnt)) && |bb| == BitmapSects(secCnt) * SECTOR
    ensures InodeBitmapImage(ib) && |ib| == SECTOR
  {
    FormattedSuper(d, start, secCnt, pad, sb);
    LayoutSound(start, secCnt, pad);
  }
}
