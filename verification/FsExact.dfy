/** Exact accounting: what the two bitmaps say in a run without crashes. */
module FsExact {
  import opened FsDisk
  import opened FsShape
  import opened FsSteps
  import opened FsRelease

  // ---------------------------------------------------------------- what exactness means

  /** An inode that can be reached from the root holds block `b` in slot `n`. */
  ghost predicate Holds(img: Image, i: nat, n: nat, b: nat)
    requires Sized(img)
  {
    Reachable(img, i) && i < MAX_INODES && n < SLOTS && BlockAt(img, i, n) == b
  }

  /** Entry `k` of a directory that can be reached from the root names inode `i` ("." and ".." aside). */
  ghost predicate Lists(img: Image, d: nat, k: nat, i: nat)
    requires Sized(img)
  {
    Reachable(img, d) && IsDir(img, d) && 2 <= k < DIR_ENTRIES && Listing(img, d)[k].ino == i
  }

  lemma LiveIffReachable(img: Image, sh: Shape, i: nat)
    requires Safe(img, sh)
    ensures i in sh.live <==> Reachable(img, i)
  {
    if i in sh.live {
      LiveIsReached(img, sh, i);
    }
    if Reachable(img, i) {
      var n: nat :| Reaches(img, i, n);
      ReachedIsLive(img, sh, i, n);
    }
  }

  /** A data block is marked used exactly when one inode holds it, in one place. */
  lemma BlockExact(img: Image, sh: Shape, b: nat)
    requires Exact(img, sh) && DATA_START <= b < JOURNAL_START
    ensures img.blockBits[b] <==> exists i: nat, n: nat :: Holds(img, i, n, b)
    ensures forall i: nat, n: nat, j: nat, m: nat | Holds(img, i, n, b) && Holds(img, j, m, b) :: i == j && n == m
  {
    SafeMeans(img, sh);
    if img.blockBits[b] {
      assert True(img, sh, NONE, ZERO_INODE, b);
      LiveIffReachable(img, sh, sh.owner[b].ino);
      assert Holds(img, sh.owner[b].ino, sh.owner[b].n, b);
    }
  }

  /** What a live directory lists from entry 2 on. */
  lemma Listed(img: Image, sh: Shape, d: nat, k: nat, i: nat)
    requires Safe(img, sh) && Lists(img, d, k, i) && i != INVALID
    ensures d in sh.live && i in sh.live && i != 0 && i in sh.parent && sh.parent[i] == d && i in sh.entry
    ensures sh.entry[i] == k
  {
    LiveIffReachable(img, sh, d);
    LiveListing(img, sh, d);
  }

  /** An inode is marked used exactly when it is the root or has a directory entry, and then it has one. */
  lemma InodeExact(img: Image, sh: Shape, i: nat)
    requires Exact(img, sh) && i < MAX_INODES
    ensures img.inodeBits[i] <==> i == 0 || exists d: nat, k: nat :: Lists(img, d, k, i)
    ensures forall d: nat, k: nat | Lists(img, d, k, i) :: i != 0
    ensures forall d: nat, k: nat, e: nat, l: nat | Lists(img, d, k, i) && Lists(img, e, l, i) :: d == e && k == l
  {
    if img.inodeBits[i] && i != 0 {
      assert Hangs(img, sh, i);
      LiveIffReachable(img, sh, sh.parent[i]);
      assert Lists(img, sh.parent[i], sh.entry[i], i);
    }
    forall d: nat, k: nat | Lists(img, d, k, i)
      ensures i in sh.live && i != 0 && sh.parent[i] == d && sh.entry[i] == k
    {
      Listed(img, sh, d, k, i);
    }
  }

  /** The bitmaps are determined by which inodes are live and what they hold. */
  lemma BitmapsDetermined(img: Image, sh: Shape, img': Image, sh': Shape)
    requires Exact(img, sh) && Exact(img', sh') && sh.live == sh'.live
    requires forall j: nat, n: nat | j in sh.live && j < MAX_INODES && n < SLOTS ::
               BlockAt(img', j, n) == BlockAt(img, j, n)
    ensures img'.inodeBits == img.inodeBits
    ensures forall b | DATA_START <= b < JOURNAL_START :: img'.blockBits[b] == img.blockBits[b]
  {
    forall b | DATA_START <= b < JOURNAL_START
      ensures img.blockBits[b] == img'.blockBits[b]
    {
      if img.blockBits[b] {
        BitFollows(img, sh, img', sh', b);
      }
      if img'.blockBits[b] {
        BitFollows(img', sh', img, sh, b);
      }
    }
  }

  lemma BitFollows(img: Image, sh: Shape, img': Image, sh': Shape, b: nat)
    requires Exact(img, sh) && Safe(img', sh') && sh.live == sh'.live && DATA_START <= b < JOURNAL_START
    requires img.blockBits[b]
    requires forall j: nat, n: nat | j in sh.live && j < MAX_INODES && n < SLOTS ::
               BlockAt(img', j, n) == BlockAt(img, j, n)
    ensures img'.blockBits[b]
  {
    assert True(img, sh, NONE, ZERO_INODE, b);
    var j, n := sh.owner[b].ino, sh.owner[b].n;
    assert BlockAt(img', j, n) == BlockAt(img, j, n) == b;
    assert InodeOk(img', sh', j, img'.inodes[j]);
    assert Owned(img', sh', j, n, b);
  }

  // ---------------------------------------------------------------- releasing keeps the accounts exact

  /** After all blocks of `c` are back, what is still registered is really held by the others. */
  lemma ReleasedTight(img1: Image, sh0: Shape, sh1: Shape, img2: Image, sh2: Shape, c: nat, ind: Inode, img3: Image)
    requires Sized(img1) && Tight(img1, sh0, NONE, ZERO_INODE) && sh1.owner == sh0.owner && c < MAX_INODES
    requires ind == img1.inodes[c]
    requires Released(img1, sh1, img2, sh2, c, ind, SLOTS) && Sized(img3)
    requires img3.blockBits == img2.blockBits && img3.blocks == img2.blocks
    requires forall j | 0 <= j < MAX_INODES && j != c :: img3.inodes[j] == img1.inodes[j]
    requires forall j | 0 <= j < MAX_INODES :: img3.inodeBits[j] <==> j in sh2.live
    requires forall j | j in sh0.live && j != c :: j in sh2.live
    ensures Tight(img3, sh2, NONE, ZERO_INODE)
  {
    forall b | b in sh2.owner
      ensures True(img3, sh2, NONE, ZERO_INODE, b)
    {
      assert True(img1, sh0, NONE, ZERO_INODE, b);
      assert !Gone(img1.blocks, sh1, c, ind, b, SLOTS);
    }
  }

  /** The blocks of a consistent inode other than the root are registered to it. */
  lemma ConsistentHeld(img: Image, sh: Shape, c: nat, ind: Inode)
    requires Sized(img) && InodeOk(img, sh, c, ind) && c != 0
    ensures HeldBy(img.blocks, sh, c, ind)
  {
  }
}
