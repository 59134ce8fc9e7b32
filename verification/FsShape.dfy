/**
  What a consistent disk image is.  A shape names the live inodes, the directory tree over
  them and the owner of each block; an image is safe when some shape fits it.
 */
module FsShape {
  import opened FsDisk

  datatype Slot = Slot(ino: nat, n: nat)

  /**
    The witness of a consistent image.  `owner` may still name blocks that are no longer in use;
    the files in `solid` have no holes below their size.
   */
  datatype Shape = Shape(
    live: set<nat>, parent: map<nat, nat>, entry: map<nat, nat>, depth: map<nat, nat>,
    owner: map<nat, Slot>, solid: set<nat>)

  /** Stands for "no inode" where one inode may be exempted. */
  const NONE: nat := 64

  // ---------------------------------------------------------------- one inode

  /** Block `b` is marked used, lies in its region, and belongs to slot `n` of inode `i` alone. */
  predicate Owned(img: Image, sh: Shape, i: nat, n: nat, b: nat)
    requires Sized(img)
  {
    && b in sh.owner && sh.owner[b] == Slot(i, n)
    && (DATA_START <= b < JOURNAL_START || (b == ROOT_DIR_BLOCK && i == 0 && n == 0))
    && img.blockBits[b]
  }

  ghost predicate BlocksOwned(img: Image, sh: Shape, i: nat, ind: Inode)
    requires Sized(img)
  {
    && |ind.direct| == 8
    && forall n | 0 <= n < SLOTS && At(img.blocks, ind, n) != 0 :: Owned(img, sh, i, n, At(img.blocks, ind, n))
  }

  predicate IsData(c: Content) { c.Data? && |c.bytes| == BLOCK_SIZE }

  /** A regular file: a size within the limit and typed blocks. */
  ghost predicate FileOk(img: Image, ind: Inode)
    requires Sized(img)
  {
    && ind.size <= MAX_FILE_BLOCKS * BLOCK_SIZE
    && (0 < ind.indirect < BLOCK_COUNT ==> img.blocks[ind.indirect].Ptrs? && |img.blocks[ind.indirect].ptrs| == PTRS)
    && (forall n | 0 <= n < SLOTS && n != TABLE && 0 < At(img.blocks, ind, n) < BLOCK_COUNT ::
          IsData(img.blocks[At(img.blocks, ind, n)]))
  }

  /** Every block below the size is there. */
  ghost predicate HoleFree(blocks: seq<Content>, ind: Inode) {
    forall l | 0 <= l < BlocksFor(ind.size) :: At(blocks, ind, DataSlot(l)) != 0
  }

  /** Entries from slot 2 on name distinct children of `d`. */
  ghost predicate ChildrenOk(sh: Shape, d: nat, entries: seq<Dirent>)
    requires |entries| == DIR_ENTRIES
  {
    && (forall k | 2 <= k < DIR_ENTRIES && entries[k].ino != INVALID ::
          && GoodName(entries[k].name) && entries[k].ino in sh.live && entries[k].ino != 0
          && entries[k].ino in sh.parent && sh.parent[entries[k].ino] == d
          && entries[k].ino in sh.entry && sh.entry[entries[k].ino] == k)
    && (forall j, k | 2 <= j < k < DIR_ENTRIES && entries[j].ino != INVALID && entries[k].ino != INVALID ::
          entries[j].name != entries[k].name)
  }

  ghost predicate DirOk(img: Image, sh: Shape, d: nat, ind: Inode)
    requires Sized(img) && |ind.direct| == 8
  {
    && ind.indirect == 0 && (forall n | 1 <= n < 8 :: ind.direct[n] == 0)
    && 0 < ind.direct[0] < BLOCK_COUNT && img.blocks[ind.direct[0]].Dir?
        && |img.blocks[ind.direct[0]].entries| == DIR_ENTRIES
    && d in sh.parent
    && img.blocks[ind.direct[0]].entries[0] == Dirent(".", d)
    && img.blocks[ind.direct[0]].entries[1] == Dirent("..", sh.parent[d])
    && ChildrenOk(sh, d, img.blocks[ind.direct[0]].entries)
  }

  ghost predicate InodeOk(img: Image, sh: Shape, i: nat, ind: Inode)
    requires Sized(img)
  {
    && BlocksOwned(img, sh, i, ind) && ind.mode != NoMode
    && (ind.mode == FileMode ==> FileOk(img, ind) && (i in sh.solid ==> HoleFree(img.blocks, ind)))
    && (ind.mode == DirMode ==> DirOk(img, sh, i, ind))
  }

  // ---------------------------------------------------------------- the whole image

  /** The live inode `c` hangs in the tree: its parent lists it, one level up. */
  ghost predicate Hangs(img: Image, sh: Shape, c: nat)
    requires Sized(img)
  {
    && c in sh.parent && sh.parent[c] in sh.live && IsDir(img, sh.parent[c])
    && c in sh.entry && 2 <= sh.entry[c] < DIR_ENTRIES && Listing(img, sh.parent[c])[sh.entry[c]].ino == c
    && c in sh.depth && sh.parent[c] in sh.depth && sh.depth[c] == sh.depth[sh.parent[c]] + 1
  }

  ghost predicate RootOk(img: Image, sh: Shape)
    requires Sized(img)
  {
    && 0 in sh.live && 0 in sh.parent && sh.parent[0] == 0 && 0 in sh.depth && sh.depth[0] == 0
    && img.inodes[0].mode == DirMode && img.inodes[0].direct[0] == ROOT_DIR_BLOCK
  }

  /** Safe, but for the blocks of inode `x`. */
  ghost predicate SafeBut(img: Image, sh: Shape, x: nat) {
    && Sized(img) && RootOk(img, sh)
    && (forall i | i in sh.live :: 0 <= i < MAX_INODES && img.inodeBits[i])
    && (forall i {:trigger InodeOk(img, sh, i, img.inodes[i])} | i in sh.live && i != x ::
        InodeOk(img, sh, i, img.inodes[i]))
    && (forall c {:trigger Hangs(img, sh, c)} | c in sh.live && c != 0 :: Hangs(img, sh, c))
  }

  ghost predicate Safe(img: Image, sh: Shape) { SafeBut(img, sh, NONE) }

  /** Some shape fits the image: every operation can go on from it. */
  ghost predicate SafeImage(img: Image) { exists sh :: Safe(img, sh) }

  /** Inode `j`, read from memory (`ind`) when it is `i`. */
  function Via(img: Image, i: nat, ind: Inode, j: nat): Inode
    requires Sized(img) && j < MAX_INODES
  {
    if j == i then ind else img.inodes[j]
  }

  /** The bitmaps say exactly what is in use, with inode `i` as it stands in memory. */
  ghost predicate Tight(img: Image, sh: Shape, i: nat, ind: Inode)
    requires Sized(img)
  {
    && (forall j | 0 <= j < MAX_INODES :: img.inodeBits[j] <==> j in sh.live)
    && (forall b | DATA_START <= b < JOURNAL_START :: img.blockBits[b] <==> b in sh.owner)
    && (forall b | b in sh.owner :: True(img, sh, i, ind, b))
  }

  /** The registered owner of `b` really holds it. */
  ghost predicate True(img: Image, sh: Shape, i: nat, ind: Inode, b: nat)
    requires Sized(img) && b in sh.owner
  {
    && 0 < b && sh.owner[b].ino in sh.live && sh.owner[b].ino < MAX_INODES && sh.owner[b].n < SLOTS
    && At(img.blocks, Via(img, i, ind, sh.owner[b].ino), sh.owner[b].n) == b
  }

  /** In a crash-free run the bitmaps say exactly what is in use. */
  ghost predicate Exact(img: Image, sh: Shape) {
    Safe(img, sh) && Tight(img, sh, NONE, ZERO_INODE)
  }

  // ---------------------------------------------------------------- what safety means

  /** `ino` can be reached from the root by `n` directory entries. */
  predicate Reaches(img: Image, ino: nat, n: nat)
    requires Sized(img)
    decreases n
  {
    if n == 0 then ino == 0
    else exists d: nat, k: nat ::
        && d < MAX_INODES && k < DIR_ENTRIES && Reaches(img, d, n - 1) && IsDir(img, d)
        && Listing(img, d)[k].ino == ino && ino != INVALID
  }

  lemma {:induction false} ReachedIsLive(img: Image, sh: Shape, ino: nat, n: nat)
    requires Safe(img, sh) && Reaches(img, ino, n)
    ensures ino in sh.live
    decreases n
  {
    if n > 0 {
      var d: nat, k: nat :| d < MAX_INODES && k < DIR_ENTRIES && Reaches(img, d, n - 1) && IsDir(img, d)
          && Listing(img, d)[k].ino == ino && ino != INVALID;
      ReachedIsLive(img, sh, d, n - 1);
      assert InodeOk(img, sh, d, img.inodes[d]);
      assert d != 0 ==> Hangs(img, sh, d);
      assert Listing(img, d) == img.blocks[img.inodes[d].direct[0]].entries;
    }
  }

  lemma {:induction false} LiveIsReached(img: Image, sh: Shape, ino: nat)
    requires Safe(img, sh) && ino in sh.live
    ensures ino in sh.depth && Reaches(img, ino, sh.depth[ino])
    decreases if ino in sh.depth then sh.depth[ino] else 0
  {
    if ino != 0 {
      assert Hangs(img, sh, ino);
      LiveIsReached(img, sh, sh.parent[ino]);
      assert InodeOk(img, sh, sh.parent[ino], img.inodes[sh.parent[ino]]);
      var k := sh.entry[ino];
      assert Listing(img, sh.parent[ino])[k].ino == ino;
    }
  }

  ghost predicate Reachable(img: Image, ino: nat)
    requires Sized(img)
  {
    exists n: nat :: Reaches(img, ino, n)
  }

  /** The block in slot `n` of inode `i`. */
  function BlockAt(img: Image, i: nat, n: nat): nat
    requires Sized(img) && i < MAX_INODES
  {
    At(img.blocks, img.inodes[i], n)
  }

  /**
    In a safe image every inode reachable from the root is marked used, every block it holds
    is marked used, and no block is held twice.
   */
  lemma SafeMeans(img: Image, sh: Shape)
    requires Safe(img, sh)
    ensures forall i: nat | Reachable(img, i) :: i < MAX_INODES && img.inodeBits[i]
    ensures forall i: nat, n: nat | Reachable(img, i) && n < SLOTS && BlockAt(img, i, n) != 0 ::
              BlockAt(img, i, n) < JOURNAL_START && img.blockBits[BlockAt(img, i, n)]
    ensures forall i: nat, n: nat, j: nat, m: nat | Reachable(img, i) && Reachable(img, j) && n < SLOTS && m < SLOTS
              && BlockAt(img, i, n) != 0 && BlockAt(img, i, n) == BlockAt(img, j, m) :: i == j && n == m
  {
    forall i: nat | Reachable(img, i)
      ensures i in sh.live && i < MAX_INODES && img.inodeBits[i]
    {
      var n: nat :| Reaches(img, i, n);
      ReachedIsLive(img, sh, i, n);
    }
    forall i: nat, n: nat | Reachable(img, i) && n < SLOTS && BlockAt(img, i, n) != 0
      ensures Owned(img, sh, i, n, BlockAt(img, i, n))
    {
      assert InodeOk(img, sh, i, img.inodes[i]);
    }
  }
}
