/**
  The file system's disk image, as typed blocks: two bitmaps, the inode table, and data
  blocks that hold file bytes, pointer tables or directories.
 */
module FsDisk {

  type Byte = bv8

  const BLOCK_SIZE: nat := 4096
  const BLOCK_COUNT: nat := 256
  const MAX_INODES: nat := 64
  const DATA_START: nat := 6
  const JOURNAL_START: nat := 254
  const ROOT_DIR_BLOCK: nat := 1
  const NAME_MAX: nat := 27
  const PATH_MAX: nat := 255
  const MAX_FILE_BLOCKS: nat := 248
  const DIR_ENTRIES: nat := 128
  const PTRS: nat := 1024
  const INVALID: nat := 0xFFFF_FFFF

  datatype Mode = NoMode | FileMode | DirMode

  datatype Inode = Inode(size: nat, mode: Mode, direct: seq<nat>, indirect: nat)

  const NO_DIRECT: seq<nat> := [0, 0, 0, 0, 0, 0, 0, 0]
  const ZERO_INODE: Inode := Inode(0, NoMode, NO_DIRECT, 0)

  datatype Dirent = Dirent(name: string, ino: nat)

  const NO_ENTRY: Dirent := Dirent("", INVALID)

  datatype Content = Data(bytes: seq<Byte>) | Ptrs(ptrs: seq<nat>) | Dir(entries: seq<Dirent>)

  function ZeroBlock(): Content { Data(seq(BLOCK_SIZE, _ => 0 as Byte)) }

  function ZeroPtrs(): seq<nat> { seq(PTRS, _ => 0) }

  /** What create_inode writes into a new file's first block: an empty directory's bytes. */
  function FreshFile(): Content { Data(seq(BLOCK_SIZE, i => if i % 32 >= 28 then 255 as Byte else 0 as Byte)) }

  function FreshDir(self: nat, parent: nat): Content {
    Dir([Dirent(".", self), Dirent("..", parent)] + seq(DIR_ENTRIES - 2, _ => NO_ENTRY))
  }

  datatype Image = Image(blockBits: seq<bool>, inodeBits: seq<bool>, inodes: seq<Inode>, blocks: seq<Content>)

  predicate Sized(img: Image) {
    && |img.blockBits| == |img.blocks| == BLOCK_COUNT && |img.inodeBits| == |img.inodes| == MAX_INODES
    && forall i | 0 <= i < MAX_INODES :: |img.inodes[i].direct| == 8
  }

  /** First clear bit from `k` on, or `end`. */
  function FirstClear(bits: seq<bool>, k: nat, end: nat): (r: nat)
    requires k <= end <= |bits|
    ensures k <= r <= end && (r < end ==> !bits[r]) && forall j | k <= j < r :: bits[j]
    decreases end - k
  {
    if k == end || !bits[k] then k else FirstClear(bits, k + 1, end)
  }

  /** The inode that alloc_inode would take, MAX_INODES for none. */
  function FirstInode(img: Image): nat
    requires Sized(img)
  {
    FirstClear(img.inodeBits, 0, MAX_INODES)
  }

  /** The block that alloc_block would take, JOURNAL_START for none. */
  function FirstBlock(img: Image): nat
    requires Sized(img)
  {
    FirstClear(img.blockBits, DATA_START, JOURNAL_START)
  }

  // ---------------------------------------------------------------- block slots of an inode

  /** Slots 0..7 are the direct pointers, 8 is the pointer table, 9.. are the table's entries. */
  const TABLE: nat := 8
  const SLOTS: nat := 1033

  function PtrsOf(c: Content): (r: seq<nat>)
    ensures |r| == PTRS
  {
    if c.Ptrs? && |c.ptrs| == PTRS then c.ptrs else ZeroPtrs()
  }

  /** The block in slot `n` of inode `ind`, 0 for none. */
  function At(blocks: seq<Content>, ind: Inode, n: nat): nat {
    if n < 8 then if n < |ind.direct| then ind.direct[n] else 0
    else if n == TABLE then ind.indirect
    else if ind.indirect == 0 || ind.indirect >= |blocks| || n >= SLOTS then 0
    else PtrsOf(blocks[ind.indirect])[n - 9]
  }

  /** The slot of a file's `l`-th data block. */
  function DataSlot(l: nat): nat { if l < 8 then l else l + 1 }

  /** Number of blocks that `size` bytes occupy. */
  function BlocksFor(size: nat): nat { (size + BLOCK_SIZE - 1) / BLOCK_SIZE }

  // ---------------------------------------------------------------- directories

  predicate GoodName(s: string) { 0 < |s| <= NAME_MAX && s != "." && s != ".." && '/' !in s }

  function EntriesOf(c: Content): (r: seq<Dirent>)
    ensures |r| == DIR_ENTRIES
  {
    if c.Dir? && |c.entries| == DIR_ENTRIES then c.entries else seq(DIR_ENTRIES, _ => Dirent("", 0))
  }

  predicate Names(e: Dirent, name: string) { e.ino != INVALID && e.name == name }

  /** First entry from `k` on that carries `name`, or DIR_ENTRIES. */
  function FindName(entries: seq<Dirent>, name: string, k: nat): (r: nat)
    requires k <= |entries|
    ensures k <= r <= |entries|
    ensures r < |entries| ==> Names(entries[r], name)
    ensures forall j | k <= j < r :: !Names(entries[j], name)
    decreases |entries| - k
  {
    if k == |entries| || Names(entries[k], name) then k else FindName(entries, name, k + 1)
  }

  /** First unused entry from `k` on, or DIR_ENTRIES. */
  function FindHole(entries: seq<Dirent>, k: nat): (r: nat)
    requires k <= |entries|
    ensures k <= r <= |entries|
    ensures r < |entries| ==> entries[r].ino == INVALID
    ensures forall j | k <= j < r :: entries[j].ino != INVALID
    decreases |entries| - k
  {
    if k == |entries| || entries[k].ino == INVALID then k else FindHole(entries, k + 1)
  }

  datatype Found = Missing | Inum(ino: nat)

  predicate IsDir(img: Image, d: nat)
    requires Sized(img)
  {
    d < MAX_INODES && img.inodes[d].mode == DirMode && 0 < img.inodes[d].direct[0] < BLOCK_COUNT
  }

  function Listing(img: Image, d: nat): (r: seq<Dirent>)
    requires Sized(img) && IsDir(img, d)
    ensures |r| == DIR_ENTRIES
  {
    EntriesOf(img.blocks[img.inodes[d].direct[0]])
  }

  /** dir_find: the inode named `name` in directory `d`. */
  function Lookup(img: Image, d: nat, name: string): Found
    requires Sized(img)
  {
    if !IsDir(img, d) then Missing
    else
      var k := FindName(Listing(img, d), name, 0);
      if k == DIR_ENTRIES then Missing else Inum(Listing(img, d)[k].ino)
  }

  // ---------------------------------------------------------------- block writes

  /** Each of these is one block write of the original: bitmaps, inode table or one data block. */
  datatype Write =
    | BlockBit(block: nat, value: bool)
    | InodeBit(ino: nat, value: bool)
    | PutInode(ino: nat, inode: Inode)
    | PutBlock(block: nat, content: Content)

  predicate Fits(w: Write) {
    match w
    case BlockBit(b, _) => b < BLOCK_COUNT
    case InodeBit(i, _) => i < MAX_INODES
    case PutInode(i, n) => i < MAX_INODES && |n.direct| == 8
    case PutBlock(b, _) => b < BLOCK_COUNT
  }

  function Apply(img: Image, w: Write): (r: Image)
    requires Sized(img) && Fits(w)
    ensures Sized(r)
  {
    match w
    case BlockBit(b, v) => img.(blockBits := img.blockBits[b := v])
    case InodeBit(i, v) => img.(inodeBits := img.inodeBits[i := v])
    case PutInode(i, n) => img.(inodes := img.inodes[i := n])
    case PutBlock(b, c) => img.(blocks := img.blocks[b := c])
  }
}
