/** Giving back the blocks of an inode. */
module FsRelease {
  import opened FsDisk
  import opened FsShape
  import opened FsSteps
  import opened FsFiles

  /** Position of slot `n` in the order of release: direct blocks, table entries, the table itself. */
  function Rank(n: nat): nat { if n < TABLE then n else if n == TABLE then SLOTS - 1 else n - 1 }

  /** Every block `ind` holds is a data block registered to inode `c`. */
  ghost predicate HeldBy(blocks: seq<Content>, sh: Shape, c: nat, ind: Inode) {
    forall n | 0 <= n < SLOTS && At(blocks, ind, n) != 0 ::
      var b := At(blocks, ind, n);
      DATA_START <= b < JOURNAL_START && b in sh.owner && sh.owner[b] == Slot(c, n)
  }

  /** Block `b` is one of the first `p` blocks that inode `c`, as `ind`, gives back. */
  predicate Gone(blocks: seq<Content>, sh: Shape, c: nat, ind: Inode, b: nat, p: nat) {
    b in sh.owner && sh.owner[b].ino == c && sh.owner[b].n < SLOTS && Rank(sh.owner[b].n) < p && b != 0
        && At(blocks, ind, sh.owner[b].n) == b
  }

  /** The first `p` slots of `ind` have been released: exactly their bits are cleared and their blocks unregistered. */
  ghost predicate Released(img0: Image, sh0: Shape, img: Image, sh: Shape, c: nat, ind: Inode, p: nat) {
    && Sized(img0) && Sized(img)
    && img.inodes == img0.inodes && img.inodeBits == img0.inodeBits && img.blocks == img0.blocks
    && (forall b | 0 <= b < BLOCK_COUNT :: img.blockBits[b] <==>
        img0.blockBits[b] && !Gone(img0.blocks, sh0, c, ind, b, p))
    && SameTree(sh0, sh)
    && (forall b :: b in sh.owner <==> b in sh0.owner && !Gone(img0.blocks, sh0, c, ind, b, p))
    && (forall b | b in sh.owner :: sh.owner[b] == sh0.owner[b])
  }

  lemma ReleasedStart(img: Image, sh: Shape, c: nat, ind: Inode)
    requires Sized(img)
    ensures Released(img, sh, img, sh, c, ind, 0)
  {
  }

  function Dropped(sh: Shape, b: nat): Shape { sh.(owner := sh.owner - {b}) }

  /** The slot released `p`-th is empty: nothing to do. */
  lemma ReleaseNothing(img0: Image, sh0: Shape, img: Image, sh: Shape, c: nat, ind: Inode, n: nat)
    requires Released(img0, sh0, img, sh, c, ind, Rank(n)) && n < SLOTS && At(img0.blocks, ind, n) == 0
    ensures Released(img0, sh0, img, sh, c, ind, Rank(n) + 1)
  {
    forall b | Gone(img0.blocks, sh0, c, ind, b, Rank(n) + 1)
      ensures Gone(img0.blocks, sh0, c, ind, b, Rank(n))
    {
    }
  }

  lemma GoneStep(blocks: seq<Content>, sh: Shape, c: nat, ind: Inode, n: nat, b: nat)
    requires HeldBy(blocks, sh, c, ind) && n < SLOTS && b == At(blocks, ind, n) != 0
    ensures forall e :: Gone(blocks, sh, c, ind, e, Rank(n) + 1) <==> Gone(blocks, sh, c, ind, e, Rank(n)) || e == b
  {
    assert Gone(blocks, sh, c, ind, b, Rank(n) + 1);
    forall e: nat
      ensures Gone(blocks, sh, c, ind, e, Rank(n) + 1) <==> Gone(blocks, sh, c, ind, e, Rank(n)) || e == b
    {
      if Gone(blocks, sh, c, ind, e, Rank(n) + 1) && Rank(sh.owner[e].n) == Rank(n) {
        assert sh.owner[e].n == n;
      }
    }
  }

  /** One block given back. */
  lemma ReleaseOne(img0: Image, sh0: Shape, img: Image, sh: Shape, c: nat, ind: Inode, n: nat, b: nat)
    requires Released(img0, sh0, img, sh, c, ind, Rank(n)) && HeldBy(img0.blocks, sh0, c, ind)
    requires n < SLOTS && b == At(img0.blocks, ind, n) != 0
    ensures b < BLOCK_COUNT && Released(img0, sh0, Apply(img, BlockBit(b, false)), Dropped(sh, b), c, ind, Rank(n) + 1)
  {
    GoneStep(img0.blocks, sh0, c, ind, n, b);
  }

  /** It hurts no live inode: the block belongs to `c`, which is dead or the exempted file. */
  lemma ReleaseKeeps(img0: Image, sh0: Shape, img: Image, sh: Shape, c: nat, ind: Inode, n: nat, b: nat, x: nat)
    requires Released(img0, sh0, img, sh, c, ind, Rank(n)) && HeldBy(img0.blocks, sh0, c, ind)
    requires n < SLOTS && b == At(img0.blocks, ind, n) != 0
    requires SafeBut(img, sh, x) && (c !in sh.live || c == x) && (x in sh.live ==> img.inodes[x].mode == FileMode)
    ensures b < BLOCK_COUNT && SafeBut(Apply(img, BlockBit(b, false)), Dropped(sh, b), x)
  {
    UnregisteredUnheld(img, sh, x, b);
    HarmlessKeeps(img, sh, x, BlockBit(b, false));
    var img' := Apply(img, BlockBit(b, false));
    assert forall i: nat, m: nat | i < MAX_INODES && m < SLOTS :: BlockAt(img', i, m) == BlockAt(img, i, m);
    assert Unheld(img', sh, x, b);
    Reregister(img', sh, x, b, sh.owner - {b});
  }

  /** A release of the blocks of `c` may go on: `c` is dead, or the file `x` whose blocks do not count. */
  ghost predicate Releasing(img0: Image, sh0: Shape, img: Image, sh: Shape, c: nat, ind: Inode, p: nat, x: nat) {
    && Released(img0, sh0, img, sh, c, ind, p) && HeldBy(img0.blocks, sh0, c, ind) && SafeBut(img, sh, x)
    && (c !in sh0.live || c == x) && (x in sh0.live ==> img0.inodes[x].mode == FileMode)
  }

  /** The pointer table itself, and its entries, among the slots. */
  lemma TableHeld(blocks: seq<Content>, sh: Shape, c: nat, ind: Inode)
    requires HeldBy(blocks, sh, c, ind) && ind.indirect != 0
    ensures DATA_START <= ind.indirect < JOURNAL_START
  {
    assert At(blocks, ind, TABLE) == ind.indirect;
  }

  lemma EntryAt(blocks: seq<Content>, ind: Inode, k: nat)
    requires 0 < ind.indirect < |blocks| && k < PTRS
    ensures At(blocks, ind, 9 + k) == PtrsOf(blocks[ind.indirect])[k] && Rank(9 + k) == 8 + k
  {
  }

  /** Without a pointer table the release ends after the direct blocks. */
  lemma NoTable(img0: Image, sh0: Shape, img: Image, sh: Shape, c: nat, ind: Inode, x: nat)
    requires Releasing(img0, sh0, img, sh, c, ind, TABLE, x) && ind.indirect == 0
    ensures Releasing(img0, sh0, img, sh, c, ind, SLOTS, x)
  {
    forall b | Gone(img0.blocks, sh0, c, ind, b, SLOTS)
      ensures Gone(img0.blocks, sh0, c, ind, b, TABLE)
    {
    }
  }

  /** Inode `ind` holds block `b`. */
  ghost predicate Keeping(blocks: seq<Content>, ind: Inode, b: nat) {
    b != 0 && exists n: nat :: n < SLOTS && At(blocks, ind, n) == b
  }

  /** When all slots are released, exactly the blocks of the inode have lost their bits. */
  lemma AllGone(img0: Image, sh0: Shape, img: Image, sh: Shape, c: nat, ind: Inode)
    requires Released(img0, sh0, img, sh, c, ind, SLOTS) && HeldBy(img0.blocks, sh0, c, ind)
    ensures forall b | 0 <= b < BLOCK_COUNT :: img.blockBits[b] <==> img0.blockBits[b] && !Keeping(img0.blocks, ind, b)
  {
    forall b: nat | b < BLOCK_COUNT
      ensures Gone(img0.blocks, sh0, c, ind, b, SLOTS) <==> Keeping(img0.blocks, ind, b)
    {
      if Keeping(img0.blocks, ind, b) {
        var n: nat :| n < SLOTS && At(img0.blocks, ind, n) == b;
        assert Rank(n) < SLOTS;
      }
    }
  }

  // ---------------------------------------------------------------- removing an inode

  /** The image after the blocks are back: the inode is zeroed and its bit cleared. */
  function Zeroed(img: Image, c: nat): (r: Image)
    requires Sized(img) && c < MAX_INODES
    ensures Sized(r)
  {
    Apply(img, PutInode(c, ZERO_INODE))
  }

  function Removed(img: Image, c: nat): (r: Image)
    requires Sized(img) && c < MAX_INODES
    ensures Sized(r)
  {
    Apply(Zeroed(img, c), InodeBit(c, false))
  }

  lemma RemoveKeeps(img: Image, sh: Shape, c: nat)
    requires Safe(img, sh) && c !in sh.live && c < MAX_INODES
    ensures Safe(Zeroed(img, c), sh) && Safe(Removed(img, c), sh)
    ensures forall j | j in sh.live :: Untouched(img, Removed(img, c), j)
  {
    HarmlessKeeps(img, sh, NONE, PutInode(c, ZERO_INODE));
    HarmlessKeeps(Zeroed(img, c), sh, NONE, InodeBit(c, false));
  }

  /** A truncated file: no blocks, no bytes. */
  function Emptied(ind: Inode): Inode { Inode(0, ind.mode, NO_DIRECT, 0) }

  lemma EmptiedOk(img: Image, sh: Shape, c: nat, ind: Inode)
    requires Sized(img) && ind.mode == FileMode
    ensures InodeOk(img, sh, c, Emptied(ind)) && Bytes(img.blocks, Emptied(ind)) == []
  {
    assert forall n | 0 <= n < SLOTS :: At(img.blocks, Emptied(ind), n) == 0;
  }
}
