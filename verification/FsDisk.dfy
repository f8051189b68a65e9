/**
 The file-system image (fs.h): little-endian words, the free bit map and disk inodes inside
 512-byte blocks, and the block references an inode makes through its address list and its
 indirect block.
 */
module FsDisk {
  import opened Params

  type Byte = x: int | 0 <= x < 256
  type Block = b: seq<Byte> | |b| == BSIZE witness seq(BSIZE, _ => 0)
  type Disk = seq<Block>

  const IPB := 8
  const BPB := 4096
  const DINODE := 64
  const INDIRECT := 12  // index in addrs of the indirect block

  /** memmove into a buffer. */
  function Splice<T>(s: seq<T>, off: nat, t: seq<T>): (r: seq<T>)
    requires off + |t| <= |s|
    ensures |r| == |s|
    ensures r[off..off + |t|] == t
    ensures forall i :: 0 <= i < off || off + |t| <= i < |s| ==> r[i] == s[i]
  {
    s[..off] + t + s[off + |t|..]
  }

  // ---------------------------------------------------------------- little-endian numbers

  function Decode(s: seq<Byte>): (n: nat) {
    if s == [] then 0 else s[0] + 256 * Decode(s[1..])
  }

  function Encode(n: nat, width: nat): (s: seq<Byte>)
    ensures |s| == width
    decreases width
  {
    if width == 0 then [] else [n % 256] + Encode(n / 256, width - 1)
  }

  function Pow256(k: nat): nat {
    if k == 0 then 1 else 256 * Pow256(k - 1)
  }

  lemma {:induction false} DecodeEncode(n: nat, width: nat)
    requires n < Pow256(width)
    ensures Decode(Encode(n, width)) == n
    decreases width
  {
    if width > 0 {
      DecodeEncode(n / 256, width - 1);
      assert Encode(n, width)[1..] == Encode(n / 256, width - 1);
    }
  }

  lemma {:induction false} DecodeZero(s: seq<Byte>)
    requires forall i :: 0 <= i < |s| ==> s[i] == 0
    ensures Decode(s) == 0
  {
    if s != [] {
      DecodeZero(s[1..]);
    }
  }

  // ---------------------------------------------------------------- arrays of words in a block

  function Word(b: Block, j: nat): nat
    requires j < BLOCKWORDS
  {
    Decode(b[4 * j..4 * j + 4])
  }

  function PutWord(b: Block, j: nat, w: nat): (r: Block)
    requires j < BLOCKWORDS
  {
    Splice(b, 4 * j, Encode(w, 4))
  }

  lemma PutWordAt(b: Block, j: nat, w: nat)
    requires j < BLOCKWORDS && w < UINT_MOD
    ensures Word(PutWord(b, j, w), j) == w
    ensures forall i :: 0 <= i < BLOCKWORDS && i != j ==> Word(PutWord(b, j, w), i) == Word(b, i)
  {
    assert Pow256(4) == UINT_MOD by {
      assert Pow256(1) == 256 && Pow256(2) == 65536 && Pow256(3) == 16777216;
    }
    DecodeEncode(w, 4);
    forall i | 0 <= i < BLOCKWORDS && i != j ensures Word(PutWord(b, j, w), i) == Word(b, i) {
      assert PutWord(b, j, w)[4 * i..4 * i + 4] == b[4 * i..4 * i + 4];
    }
  }

  function Zeros(): Block {
    seq(BSIZE, _ => 0)
  }

  lemma ZeroWords(j: nat)
    requires j < BLOCKWORDS
    ensures Word(Zeros(), j) == 0
  {
    DecodeZero(Zeros()[4 * j..4 * j + 4]);
  }

  // ---------------------------------------------------------------- bits

  /** Bit k of x is set. */
  predicate Bit(x: nat, k: nat) {
    if k == 0 then x % 2 == 1 else Bit(x / 2, k - 1)
  }

  /** x with bit k set if v, and cleared if not. */
  function WithBit(x: nat, k: nat, v: bool): (r: nat) {
    if k == 0 then 2 * (x / 2) + (if v then 1 else 0) else 2 * WithBit(x / 2, k - 1, v) + x % 2
  }

  function Pow2(n: nat): nat {
    if n == 0 then 1 else 2 * Pow2(n - 1)
  }

  lemma {:induction false} WithBitAt(x: nat, k: nat, v: bool, j: nat)
    ensures Bit(WithBit(x, k, v), j) <==> if j == k then v else Bit(x, j)
  {
    if k == 0 {
      assert WithBit(x, k, v) / 2 == x / 2;
    } else {
      assert WithBit(x, k, v) / 2 == WithBit(x / 2, k - 1, v) && WithBit(x, k, v) % 2 == x % 2;
      if j > 0 {
        WithBitAt(x / 2, k - 1, v, j - 1);
      }
    }
  }

  lemma {:induction false} WithBitBound(x: nat, k: nat, v: bool, n: nat)
    requires k < n && x < Pow2(n)
    ensures WithBit(x, k, v) < Pow2(n)
  {
    var half := Pow2(n - 1);
    assert Pow2(n) == 2 * half && x / 2 < half;
    if k > 0 {
      WithBitBound(x / 2, k - 1, v, n - 1);
    }
  }

  function WithByteBit(x: Byte, k: nat, v: bool): (r: Byte)
    requires k < 8
  {
    assert Pow2(8) == 256 by {
      assert Pow2(3) == 8 && Pow2(5) == 32;
    }
    WithBitBound(x, k, v, 8);
    WithBit(x, k, v)
  }

  // ---------------------------------------------------------------- disk layout

  datatype Super = Super(size: nat, ninodes: nat, inodestart: nat, bmapstart: nat) {
    /** First block that is not metadata. */
    function Meta(): nat {
      bmapstart + size / BPB + 1
    }

    ghost predicate Valid() {
      && 2 <= inodestart && inodestart + ninodes / IPB < bmapstart
      && Meta() <= size < UINT_MOD
    }

    ghost predicate Fits(d: Disk) {
      Valid() && |d| == size
    }

    function BBlock(b: nat): nat {
      b / BPB + bmapstart
    }

    function IBlock(i: nat): nat {
      i / IPB + inodestart
    }
  }

  /** The bit of block b in the free map. */
  predicate Marked(sb: Super, d: Disk, b: nat)
    requires b < sb.size && sb.BBlock(b) < |d|
  {
    Bit(d[sb.BBlock(b)][b % BPB / 8], b % BPB % 8)
  }

  function WithMark(sb: Super, d: Disk, b: nat, v: bool): (r: Disk)
    requires b < sb.size && sb.BBlock(b) < |d|
    ensures |r| == |d|
    ensures forall x :: 0 <= x < |d| && x != sb.BBlock(b) ==> r[x] == d[x]
  {
    var bi := b % BPB;
    var map0 := d[sb.BBlock(b)];
    d[sb.BBlock(b) := map0[bi / 8 := WithByteBit(map0[bi / 8], bi % 8, v)]]
  }

  lemma WithMarkAt(sb: Super, d: Disk, b: nat, v: bool)
    requires sb.Fits(d) && b < sb.size
    ensures forall x :: 0 <= x < sb.size ==> (Marked(sb, WithMark(sb, d, b, v), x) <==> if x == b then v else Marked(sb, d, x))
  {
    forall x | 0 <= x < sb.size
      ensures Marked(sb, WithMark(sb, d, b, v), x) <==> if x == b then v else Marked(sb, d, x)
    {
      if sb.BBlock(x) == sb.BBlock(b) && x % BPB / 8 == b % BPB / 8 {
        WithBitAt(d[sb.BBlock(b)][b % BPB / 8], b % BPB % 8, v, x % BPB % 8);
        assert x == b <==> x % BPB % 8 == b % BPB % 8;
      }
    }
  }

  // ---------------------------------------------------------------- disk inodes

  datatype Dinode = Dinode(typ: nat, major: nat, minor: nat, nlink: nat, size: nat, addrs: seq<nat>) {
    ghost predicate Valid() {
      && typ < 65536 && major < 65536 && minor < 65536 && nlink < 65536 && size < UINT_MOD
      && |addrs| == NDIRECT + 1
      && forall k :: 0 <= k < |addrs| ==> addrs[k] < UINT_MOD
    }
  }

  function EncodeWords(ws: seq<nat>): (s: seq<Byte>)
    ensures |s| == 4 * |ws|
  {
    if ws == [] then [] else Encode(ws[0], 4) + EncodeWords(ws[1..])
  }

  function EncodeDinode(x: Dinode): (s: seq<Byte>)
    requires |x.addrs| == NDIRECT + 1
    ensures |s| == DINODE
  {
    Encode(x.typ, 2) + Encode(x.major, 2) + Encode(x.minor, 2) + Encode(x.nlink, 2) + Encode(x.size, 4)
    + EncodeWords(x.addrs)
  }

  function DecodeDinode(s: seq<Byte>): (x: Dinode)
    requires |s| == DINODE
    ensures |x.addrs| == NDIRECT + 1
  {
    Dinode(Decode(s[0..2]), Decode(s[2..4]), Decode(s[4..6]), Decode(s[6..8]), Decode(s[8..12]),
           seq(NDIRECT + 1, k requires 0 <= k < NDIRECT + 1 => Decode(s[12 + 4 * k..16 + 4 * k])))
  }

  lemma Dropped(a: seq<Byte>, b: seq<Byte>, lo: nat, hi: nat)
    requires |a| <= lo <= hi <= |a| + |b|
    ensures (a + b)[lo..hi] == b[lo - |a|..hi - |a|]
  {
  }

  lemma {:induction false} EncodeWordsAt(ws: seq<nat>, k: nat)
    requires k < |ws|
    ensures EncodeWords(ws)[4 * k..4 * k + 4] == Encode(ws[k], 4)
  {
    var a, b := Encode(ws[0], 4), EncodeWords(ws[1..]);
    if k > 0 {
      EncodeWordsAt(ws[1..], k - 1);
      var lo, hi := 4 * k, 4 * k + 4;
      Dropped(a, b, lo, hi);
    } else {
      assert (a + b)[0..4] == a;
    }
  }

  lemma Pow256Values()
    ensures Pow256(2) == 65536 && Pow256(4) == UINT_MOD
  {
    assert Pow256(1) == 256 && Pow256(3) == 16777216;
  }

  lemma EncodedFields(x: Dinode)
    requires |x.addrs| == NDIRECT + 1
    ensures var s := EncodeDinode(x);
      && s[0..2] == Encode(x.typ, 2) && s[2..4] == Encode(x.major, 2) && s[4..6] == Encode(x.minor, 2)
      && s[6..8] == Encode(x.nlink, 2) && s[8..12] == Encode(x.size, 4) && s[12..] == EncodeWords(x.addrs)
  {
  }

  lemma FieldsRoundTrip(x: Dinode)
    requires x.Valid()
    ensures DecodeDinode(EncodeDinode(x)).(addrs := x.addrs) == x
  {
    EncodedFields(x);
    Pow256Values();
    DecodeEncode(x.typ, 2);
    DecodeEncode(x.major, 2);
    DecodeEncode(x.minor, 2);
    DecodeEncode(x.nlink, 2);
    DecodeEncode(x.size, 4);
  }

  lemma DropSlice(s: seq<Byte>, n: nat, lo: nat, hi: nat)
    requires n + hi <= |s| && lo <= hi
    ensures s[n + lo..n + hi] == s[n..][lo..hi]
  {
  }

  lemma AddrRoundTrip(x: Dinode, k: nat)
    requires x.Valid() && k < NDIRECT + 1
    ensures DecodeDinode(EncodeDinode(x)).addrs[k] == x.addrs[k]
  {
    var s := EncodeDinode(x);
    EncodeWordsAt(x.addrs, k);
    var lo, hi := 4 * k, 4 * k + 4;
    assert s[12 + lo..12 + hi] == EncodeWords(x.addrs)[lo..hi] by {
      EncodedFields(x);
      DropSlice(s, 12, lo, hi);
    }
    Pow256Values();
    DecodeEncode(x.addrs[k], 4);
  }

  /** Reading back a written disk inode gives the same inode. */
  lemma DinodeRoundTrip(x: Dinode)
    requires x.Valid()
    ensures DecodeDinode(EncodeDinode(x)) == x
  {
    FieldsRoundTrip(x);
    forall k | 0 <= k < NDIRECT + 1 ensures DecodeDinode(EncodeDinode(x)).addrs[k] == x.addrs[k] {
      AddrRoundTrip(x, k);
    }
    assert DecodeDinode(EncodeDinode(x)).addrs == x.addrs;
  }

  /** Two and four bytes as a number, low byte first. */
  function U16(b0: int, b1: int): int {
    b0 + 256 * b1
  }

  function U32(b0: int, b1: int, b2: int, b3: int): int {
    b0 + 256 * b1 + 65536 * b2 + 16777216 * b3
  }

  lemma Decode2(s: seq<Byte>)
    requires |s| == 2
    ensures Decode(s) == U16(s[0], s[1])
  {
    assert Decode(s[1..]) == s[1];
  }

  lemma Decode4(s: seq<Byte>)
    requires |s| == 4
    ensures Decode(s) == U32(s[0], s[1], s[2], s[3])
  {
    Decode2(s[2..]);
    assert s[1..][1..] == s[2..];
  }

  /** struct dinode byte by byte: four 16-bit fields, the size, thirteen addresses. */
  lemma DinodeLayout(s: seq<Byte>, k: nat)
    requires |s| == 64 && k < 13
    ensures var x, a := DecodeDinode(s), 12 + 4 * k;
      && x.typ == U16(s[0], s[1]) && x.major == U16(s[2], s[3]) && x.minor == U16(s[4], s[5]) && x.nlink == U16(s[6], s[7])
      && x.size == U32(s[8], s[9], s[10], s[11]) && x.addrs[k] == U32(s[a], s[a + 1], s[a + 2], s[a + 3])
  {
    Decode2(s[0..2]);
    Decode2(s[2..4]);
    Decode2(s[4..6]);
    Decode2(s[6..8]);
    Decode4(s[8..12]);
    Decode4(s[12 + 4 * k..16 + 4 * k]);
  }

  lemma {:induction false} BitIs(x: nat, k: nat)
    ensures Pow2(k) > 0 && (Bit(x, k) <==> x / Pow2(k) % 2 == 1)
  {
    if k > 0 {
      BitIs(x / 2, k - 1);
      Halved(x, Pow2(k - 1));
    }
  }

  lemma Halved(x: nat, p: nat)
    requires p > 0
    ensures x / 2 / p == x / (2 * p)
  {
    var q, r := x / 2 / p, x / 2 % p;
    assert x == 2 * p * q + (2 * r + x % 2);
    Quotient(x, 2 * p, q, 2 * r + x % 2);
  }

  lemma Quotient(x: nat, m: nat, q: nat, r: nat)
    requires r < m && x == m * q + r
    ensures x / m == q
  {
    var e := x / m;
    assert e < q ==> m * (e + 1) <= m * q;
    assert q < e ==> m * (q + 1) <= m * e;
  }

  /** The free map: 4096 bits to a block, eight to a byte, low bit first. */
  lemma MarkLayout(sb: Super, d: Disk, b: nat, at: nat, x: nat)
    requires sb.Fits(d) && b < sb.size && at == sb.bmapstart + b / 4096
    requires at < |d| ==> x == d[at][b % 4096 / 8]
    ensures at < |d| && Pow2(b % 8) > 0 && (Marked(sb, d, b) <==> x / Pow2(b % 8) % 2 == 1)
  {
    var k := b % 8;
    assert at == sb.BBlock(b) && k == b % BPB % 8;
    BitIs(x, k);
  }

  function GetDinode(sb: Super, d: Disk, i: nat): (x: Dinode)
    requires i < sb.ninodes && sb.IBlock(i) < |d|
    ensures |x.addrs| == NDIRECT + 1
  {
    var off := i % IPB * DINODE;
    DecodeDinode(d[sb.IBlock(i)][off..off + DINODE])
  }

  function PutDinode(sb: Super, d: Disk, i: nat, x: Dinode): (r: Disk)
    requires i < sb.ninodes && sb.IBlock(i) < |d| && |x.addrs| == NDIRECT + 1
    ensures |r| == |d|
    ensures forall b :: 0 <= b < |d| && b != sb.IBlock(i) ==> r[b] == d[b]
  {
    d[sb.IBlock(i) := Splice(d[sb.IBlock(i)], i % IPB * DINODE, EncodeDinode(x))]
  }

  /** iupdate changes one inode and no other. */
  lemma PutDinodeAt(sb: Super, d: Disk, i: nat, x: Dinode)
    requires sb.Fits(d) && i < sb.ninodes && x.Valid()
    ensures forall j :: 0 <= j < sb.ninodes ==>
      GetDinode(sb, PutDinode(sb, d, i, x), j) == if j == i then x else GetDinode(sb, d, j)
  {
    var r := PutDinode(sb, d, i, x);
    DinodeRoundTrip(x);
    forall j | 0 <= j < sb.ninodes && j != i ensures GetDinode(sb, r, j) == GetDinode(sb, d, j) {
      var off := j % IPB * DINODE;
      assert r[sb.IBlock(j)][off..off + DINODE] == d[sb.IBlock(j)][off..off + DINODE];
    }
  }
}
