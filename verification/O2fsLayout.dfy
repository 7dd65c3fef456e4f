/** The on-disk format of O2FS (sys/fs/o2fs/o2fs.h): fields at fixed byte offsets of 16KB
    blocks, integers little-endian. */
module O2fsLayout {
  import opened Common
  import opened BufferCache

  const BSIZE: nat := 0x4000
  const DIRECT: nat := 64
  const BITS: nat := 0x2_0000      // blocks covered by one bitmap block
  const ROOTDISK: nat := 0
  const U64: nat := 0x1_0000_0000_0000_0000

  const SIZE_AT: nat := 16         // BNode.size
  const DIRECT_AT: nat := 24       // BNode.direct[0]
  const BPTR_SIZE: nat := 64
  const BPTR_OFFSET_AT: nat := 40  // BPtr.offset

  function K(off: nat): Key {
    Key(ROOTDISK, off)
  }

  // ---------------------------------------------------------------- little-endian integers

  function GetLE(b: Block, p: nat, n: nat): nat
    requires p + n <= |b|
    decreases n
  {
    if n == 0 then 0 else b[p] + 256 * GetLE(b, p + 1, n - 1)
  }

  function PutLE(b: Block, p: nat, n: nat, v: nat): (r: Block)
    requires p + n <= |b|
    ensures |r| == |b|
    ensures forall q :: 0 <= q < |b| && !(p <= q < p + n) ==> r[q] == b[q]
    decreases n
  {
    if n == 0 then b else PutLE(b[p := v % 256], p + 1, n - 1, v / 256)
  }

  function Pow256(n: nat): nat {
    if n == 0 then 1 else 256 * Pow256(n - 1)
  }

  /** Reading back an integer that fits. */
  lemma {:induction false} GetPut(b: Block, p: nat, n: nat, v: nat)
    requires p + n <= |b| && v < Pow256(n)
    ensures GetLE(PutLE(b, p, n, v), p, n) == v
    decreases n
  {
    if n > 0 {
      GetPut(b[p := v % 256], p + 1, n - 1, v / 256);
    }
  }

  /** Bytes outside a field do not matter to it. */
  lemma {:induction false} GetSame(b: Block, p: nat, c: Block, q: nat, n: nat)
    requires p + n <= |b| && q + n <= |c| && b[p..p + n] == c[q..q + n]
    ensures GetLE(b, p, n) == GetLE(c, q, n)
    decreases n
  {
    if n > 0 {
      assert b[p] == b[p..p + n][0] == c[q..q + n][0] == c[q];
      assert b[p + 1..p + n] == b[p..p + n][1..] == c[q..q + n][1..] == c[q + 1..q + n];
      GetSame(b, p + 1, c, q + 1, n - 1);
    }
  }

  function Get64(b: Block, p: nat): nat
    requires p + 8 <= |b|
  {
    GetLE(b, p, 8)
  }

  function Put64(b: Block, p: nat, v: nat): (r: Block)
    requires p + 8 <= |b|
    ensures |r| == |b|
  {
    PutLE(b, p, 8, v)
  }

  lemma Get64Put64(b: Block, p: nat, v: nat, q: nat)
    requires p + 8 <= |b| && q + 8 <= |b| && v < U64
    ensures p == q ==> Get64(Put64(b, p, v), q) == v
    ensures q + 8 <= p || p + 8 <= q ==> Get64(Put64(b, p, v), q) == Get64(b, q)
  {
    if p == q {
      assert Pow256(8) == U64;
      GetPut(b, p, 8, v);
    } else if q + 8 <= p || p + 8 <= q {
      GetSame(Put64(b, p, v), q, b, q, 8);
    }
  }

  // ---------------------------------------------------------------- block nodes

  function PtrAt(i: nat): nat {
    DIRECT_AT + BPTR_SIZE * i + BPTR_OFFSET_AT
  }

  function NodeSize(b: Block): nat
    requires |b| == BSIZE
  {
    Get64(b, SIZE_AT)
  }

  function NodePtr(b: Block, i: nat): nat
    requires |b| == BSIZE && i <= DIRECT
  {
    Get64(b, PtrAt(i))
  }

  function SetSize(b: Block, v: nat): (r: Block)
    requires |b| == BSIZE
    ensures |r| == BSIZE
  {
    Put64(b, SIZE_AT, v)
  }

  function SetPtr(b: Block, i: nat, v: nat): (r: Block)
    requires |b| == BSIZE && i < DIRECT
    ensures |r| == BSIZE
  {
    Put64(b, PtrAt(i), v)
  }

  lemma SetSizeFacts(b: Block, v: nat)
    requires |b| == BSIZE && v < U64
    ensures NodeSize(SetSize(b, v)) == v
    ensures forall i :: 0 <= i <= DIRECT ==> NodePtr(SetSize(b, v), i) == NodePtr(b, i)
  {
    Get64Put64(b, SIZE_AT, v, SIZE_AT);
    forall i | 0 <= i <= DIRECT ensures NodePtr(SetSize(b, v), i) == NodePtr(b, i) {
      Get64Put64(b, SIZE_AT, v, PtrAt(i));
    }
  }

  lemma SetPtrFacts(b: Block, j: nat, v: nat)
    requires |b| == BSIZE && j < DIRECT && v < U64
    ensures NodeSize(SetPtr(b, j, v)) == NodeSize(b)
    ensures forall i :: 0 <= i <= DIRECT ==> NodePtr(SetPtr(b, j, v), i) == if i == j then v else NodePtr(b, i)
  {
    Get64Put64(b, PtrAt(j), v, SIZE_AT);
    forall i | 0 <= i <= DIRECT ensures NodePtr(SetPtr(b, j, v), i) == if i == j then v else NodePtr(b, i) {
      Get64Put64(b, PtrAt(j), v, PtrAt(i));
    }
  }

  // ---------------------------------------------------------------- the free bitmap

  /** Bit i of x: shift right i times, then test the lowest bit. */
  function Bit(x: nat, i: nat): bool {
    if i == 0 then x % 2 == 1 else Bit(x / 2, i - 1)
  }

  /** x with bit i set. */
  function WithBit(x: nat, i: nat): nat {
    if i == 0 then x / 2 * 2 + 1 else WithBit(x / 2, i - 1) * 2 + x % 2
  }

  function Pow2(n: nat): nat {
    if n == 0 then 1 else 2 * Pow2(n - 1)
  }

  lemma {:induction false} WithBitFits(x: nat, i: nat, n: nat)
    requires i < n && x < Pow2(n)
    ensures WithBit(x, i) < Pow2(n)
  {
    var h, p := x / 2, Pow2(n - 1);
    assert Pow2(n) == 2 * p && h < p;
    if i > 0 {
      WithBitFits(h, i - 1, n - 1);
      assert WithBit(x, i) == 2 * WithBit(h, i - 1) + x % 2;
    } else {
      assert WithBit(x, 0) == 2 * h + 1;
    }
  }

  lemma {:induction false} BitOfWithBit(x: nat, i: nat, j: nat)
    ensures Bit(WithBit(x, i), j) == (i == j || Bit(x, j))
    decreases i, j
  {
    if i > 0 && j > 0 {
      BitOfWithBit(x / 2, i - 1, j - 1);
    } else if i == 0 && j > 0 {
      assert WithBit(x, 0) / 2 == x / 2;
    }
  }

  function SetBit(x: Byte, i: nat): (r: Byte)
    requires i < 8
  {
    assert Pow2(8) == 256;
    WithBitFits(x, i, 8);
    WithBit(x, i)
  }

  // ---------------------------------------------------------------- directory entries

  type Str = seq<Byte>

  const ENTRY_SIZE: nat := 512
  const SLOTS: nat := 32           // entries per block
  const OBJ_AT: nat := 48          // BDirEntry.objId.offset
  const NAME_AT: nat := 256        // BDirEntry.name
  const MAXNAMELEN: nat := 255
  const BDIR_MAGIC: Str := [0x44, 0x49, 0x52, 0x45, 0x4E, 0x54, 0x52, 0x59]
  const BNODE_MAGIC: Str := [0x42, 0x4C, 0x4F, 0x4B, 0x4E, 0x4F, 0x44, 0x45]

  /** A string without the terminating zero. */
  predicate IsStr(s: Str) {
    forall i :: 0 <= i < |s| ==> s[i] != 0
  }

  /** The bytes of b at p are s. */
  predicate BytesAt(b: Block, p: nat, s: Str) {
    p + |s| <= |b| && b[p..p + |s|] == s
  }

  /** strcmp of the string at p with s is 0. */
  predicate StrAt(b: Block, p: nat, s: Str) {
    p + |s| < |b| && BytesAt(b, p, s) && b[p + |s|] == 0
  }

  /** The magic and version test of O2FSLoadVNode. */
  predicate IsNode(b: Block) {
    |b| == BSIZE && BytesAt(b, 0, BNODE_MAGIC) && GetLE(b, 8, 2) == 1 && GetLE(b, 10, 2) == 0
  }

  /** Slot e of a directory block is an entry of the given name. */
  predicate SlotIs(b: Block, e: nat, name: Str)
    requires |b| == BSIZE
  {
    StrAt(b, ENTRY_SIZE * e, BDIR_MAGIC) && StrAt(b, ENTRY_SIZE * e + NAME_AT, name)
  }

  function SlotObj(b: Block, e: nat): nat
    requires |b| == BSIZE && e < SLOTS
  {
    Get64(b, ENTRY_SIZE * e + OBJ_AT)
  }

  /** The first slot from e on that is an entry of the given name. */
  function FindSlot(b: Block, name: Str, e: nat): Option<nat>
    requires |b| == BSIZE && e <= SLOTS
    decreases SLOTS - e
  {
    if e == SLOTS then None
    else if SlotIs(b, e, name) then Some(e)
    else FindSlot(b, name, e + 1)
  }

  lemma {:induction false} FindSlotFacts(b: Block, name: Str, e: nat)
    requires |b| == BSIZE && e <= SLOTS
    ensures FindSlot(b, name, e).None? ==> forall f :: e <= f < SLOTS ==> !SlotIs(b, f, name)
    ensures FindSlot(b, name, e).Some? ==> var f := FindSlot(b, name, e).value;
      e <= f < SLOTS && SlotIs(b, f, name) && forall g :: e <= g < f ==> !SlotIs(b, g, name)
    decreases SLOTS - e
  {
    hide SlotIs;
    if e < SLOTS {
      FindSlotFacts(b, name, e + 1);
    }
  }

  /** Fields past the header do not touch magic and version. */
  lemma NodeStays(b: Block, p: nat, v: nat)
    requires IsNode(b) && 12 <= p && p + 8 <= BSIZE
    ensures IsNode(Put64(b, p, v))
  {
    hide GetLE;
    var c := Put64(b, p, v);
    assert c[0..8] == b[0..8] && c[8..10] == b[8..10] && c[10..12] == b[10..12];
    GetSame(c, 8, b, 8, 2);
    GetSame(c, 10, b, 10, 2);
  }

  lemma SetPtrStays(b: Block, i: nat, v: nat)
    requires IsNode(b) && i < DIRECT
    ensures IsNode(SetPtr(b, i, v))
  {
    NodeStays(b, PtrAt(i), v);
  }

  lemma SetSizeStays(b: Block, v: nat)
    requires IsNode(b)
    ensures IsNode(SetSize(b, v))
  {
    NodeStays(b, SIZE_AT, v);
  }
}
