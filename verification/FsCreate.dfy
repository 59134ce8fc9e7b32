/** Making a new inode and hanging it into the tree. */
module FsCreate {
  import opened FsDisk
  import opened FsShape
  import opened FsSteps
  import opened FsFiles
  import opened FsGrow

  function Node(mode: Mode, b: nat): (r: Inode)
    ensures |r.direct| == 8
  {
    Inode(0, mode, [b, 0, 0, 0, 0, 0, 0, 0], 0)
  }

  /** First contents of a new inode's block. */
  function Fresh(mode: Mode, i: nat, d: nat): Content {
    if mode == DirMode then FreshDir(i, d) else FreshFile()
  }

  /** Inode `i` and block `b` are both free. */
  predicate Available(img: Image, i: nat, b: nat)
    requires Sized(img)
  {
    i < MAX_INODES && !img.inodeBits[i] && Free(img, b)
  }

  /** The image after the four writes before dir_add: inode bit, block bit, inode, block. */
  function Prepared(img: Image, i: nat, b: nat, mode: Mode, d: nat): (r: Image)
    requires Sized(img) && Available(img, i, b)
    ensures Sized(r)
  {
    Image(img.blockBits[b := true], img.inodeBits[i := true], img.inodes[i := Node(mode, b)],
        img.blocks[b := Fresh(mode, i, d)])
  }

  lemma PreparedUntouched(img: Image, sh: Shape, i: nat, b: nat, mode: Mode, d: nat, j: nat)
    requires Safe(img, sh) && Available(img, i, b) && j in sh.live
    ensures Untouched(img, Prepared(img, i, b, mode, d), j)
  {
    ClearUnheld(img, sh, NONE, b);
    forall n | 0 <= n < SLOTS && 0 < BlockAt(img, j, n) < BLOCK_COUNT
      ensures BlockAt(img, j, n) != b
    {
    }
  }

  lemma NodeAt(blocks: seq<Content>, mode: Mode, b: nat)
    ensures forall n | 0 <= n < SLOTS :: At(blocks, Node(mode, b), n) == if n == 0 then b else 0
  {
  }

  lemma FreshChildren(sh: Shape, i: nat, d: nat)
    ensures |FreshDir(i, d).entries| == DIR_ENTRIES && FreshDir(i, d).entries[0] == Dirent(".", i)
    ensures FreshDir(i, d).entries[1] == Dirent("..", d) && ChildrenOk(sh, i, FreshDir(i, d).entries)
  {
  }

  /** The new inode is consistent as soon as it is entered as entry `k` of directory `d`. */
  lemma PreparedOk(img: Image, sh: Shape, i: nat, b: nat, mode: Mode, d: nat, k: nat)
    requires Sized(img) && Available(img, i, b) && mode != NoMode && d in sh.depth
    ensures InodeOk(Prepared(img, i, b, mode, d), Linked(Registered(sh, b, Slot(i, 0)), d, k, i), i, Node(mode, b))
  {
    var p := Prepared(img, i, b, mode, d);
    NodeAt(p.blocks, mode, b);
    if mode == DirMode {
      FreshChildren(Linked(Registered(sh, b, Slot(i, 0)), d, k, i), i, d);
    }
  }

  // ---------------------------------------------------------------- exactness

  lemma WithEntryAt(img: Image, sh: Shape, d: nat, k: nat, e: Dirent, j: nat, n: nat)
    requires Safe(img, sh) && d in sh.live && img.inodes[d].mode == DirMode && IsDir(img, d) && k < DIR_ENTRIES
    requires j < MAX_INODES && BlocksOwned(img, sh, j, img.inodes[j]) && n < SLOTS
    ensures BlockAt(WithEntry(img, d, k, e), j, n) == BlockAt(img, j, n)
  {
    LiveListing(img, sh, d);
    assert At(img.blocks, img.inodes[j], TABLE) == img.inodes[j].indirect;
  }

  /** Directory entries added or cleared change neither bitmap nor who holds what. */
  lemma CreatedTight(img: Image, sh: Shape, i: nat, b: nat, mode: Mode, d: nat, k: nat)
    requires Exact(img, sh) && Available(img, i, b) && d in sh.depth
    ensures Tight(Prepared(img, i, b, mode, d), Linked(Registered(sh, b, Slot(i, 0)), d, k, i), NONE, ZERO_INODE)
  {
    var p, sh' := Prepared(img, i, b, mode, d), Linked(Registered(sh, b, Slot(i, 0)), d, k, i);
    NodeAt(p.blocks, mode, b);
    forall c | c in sh'.owner
      ensures True(p, sh', NONE, ZERO_INODE, c)
    {
      if c != b {
        assert True(img, sh, NONE, ZERO_INODE, c);
        var j := sh.owner[c].ino;
        PreparedUntouched(img, sh, i, b, mode, d, j);
        UntouchedAt(img, p, j, sh.owner[c].n);
      }
    }
  }

  /** Tightness only depends on the bitmaps and on who holds what. */
  lemma TightKept(img: Image, sh: Shape, img': Image)
    requires Sized(img) && Sized(img') && Tight(img, sh, NONE, ZERO_INODE)
    requires img'.inodeBits == img.inodeBits && img'.blockBits == img.blockBits
    requires forall j, n | j in sh.live && 0 <= j < MAX_INODES && 0 <= n < SLOTS ::
               BlockAt(img', j, n) == BlockAt(img, j, n)
    ensures Tight(img', sh, NONE, ZERO_INODE)
  {
    forall b | b in sh.owner
      ensures True(img', sh, NONE, ZERO_INODE, b)
    {
      assert True(img, sh, NONE, ZERO_INODE, b);
      assert BlockAt(img', sh.owner[b].ino, sh.owner[b].n) == BlockAt(img, sh.owner[b].ino, sh.owner[b].n);
    }
  }

  /** Adding or clearing an entry of a live directory moves no block. */
  lemma EntryTightKept(img: Image, sh: Shape, d: nat, k: nat, e: Dirent)
    requires Safe(img, sh) && Tight(img, sh, NONE, ZERO_INODE)
    requires d in sh.live && img.inodes[d].mode == DirMode && IsDir(img, d) && k < DIR_ENTRIES
    ensures Tight(WithEntry(img, d, k, e), sh, NONE, ZERO_INODE)
  {
    forall j: nat, n: nat | j in sh.live && j < MAX_INODES && n < SLOTS
      ensures BlockAt(WithEntry(img, d, k, e), j, n) == BlockAt(img, j, n)
    {
      assert InodeOk(img, sh, j, img.inodes[j]);
      WithEntryAt(img, sh, d, k, e, j, n);
    }
    TightKept(img, sh, WithEntry(img, d, k, e));
  }

  // ---------------------------------------------------------------- success

  /**
    From (img0, sh0) to (img, sh), inode `i` came into being under `name` in directory `d`, and
    nothing else changed.
   */
  ghost predicate Created(img0: Image, sh0: Shape, img: Image, sh: Shape, d: nat, name: string, mode: Mode, i: nat) {
    && Safe(img0, sh0) && Safe(img, sh) && d in sh0.live && i !in sh0.live && 0 < i < MAX_INODES
    && sh.live == sh0.live + {i} && sh.solid == sh0.solid + {i}
    && IsDir(img0, d) && IsDir(img, d) && img.inodes[d] == img0.inodes[d] && Lookup(img0, d, name) == Missing
    && 2 <= FindHole(Listing(img0, d), 0) < DIR_ENTRIES
    && Listing(img, d) == Listing(img0, d)[FindHole(Listing(img0, d), 0) := Dirent(name, i)]
    && (forall j | j in sh0.live && j != d :: Untouched(img0, img, j))
    && img.inodes[i] == Node(mode, img.inodes[i].direct[0]) && img.inodes == img0.inodes[i := img.inodes[i]]
    && Available(img0, i, img.inodes[i].direct[0]) && i == FirstInode(img0)
        && img.inodes[i].direct[0] == FirstBlock(img0)
    && img.blocks[img.inodes[i].direct[0]] == Fresh(mode, i, d)
    && img.inodeBits == img0.inodeBits[i := true] && img.blockBits == img0.blockBits[img.inodes[i].direct[0] := true]
    && (Exact(img0, sh0) ==> Exact(img, sh))
  }

  /** The first unused entry is never "." or "..". */
  lemma HoleIsFree(img: Image, sh: Shape, d: nat)
    requires Safe(img, sh) && d in sh.live && img.inodes[d].mode == DirMode && IsDir(img, d)
    ensures 2 <= FindHole(Listing(img, d), 0)
  {
    LiveListing(img, sh, d);
    assert d != 0 ==> Hangs(img, sh, d);
  }

  lemma PreparedListing(img: Image, sh: Shape, i: nat, b: nat, mode: Mode, d: nat, e: nat)
    requires Safe(img, sh) && Available(img, i, b) && d in sh.live && IsDir(img, d)
    ensures var p := Prepared(img, i, b, mode, e);
            IsDir(p, d) && Listing(p, d) == Listing(img, d) && forall name: string ::
                Lookup(p, d, name) == Lookup(img, d, name)
  {
    PreparedUntouched(img, sh, i, b, mode, e, d);
    assert BlockAt(img, d, 0) == img.inodes[d].direct[0];
  }

  /** What must hold for the last step of a create. */
  ghost predicate Ready(img: Image, sh: Shape, i: nat, b: nat, d: nat, k: nat, name: string) {
    && Safe(img, sh) && Available(img, i, b) && i == FirstInode(img) && b == FirstBlock(img) && i != 0 && i !in sh.live
    && d in sh.live && img.inodes[d].mode == DirMode && IsDir(img, d) && d in sh.depth
    && 2 <= k == FindHole(Listing(img, d), 0) < DIR_ENTRIES && GoodName(name) && Lookup(img, d, name) == Missing
  }

  lemma LinkSafe(img: Image, sh: Shape, i: nat, b: nat, d: nat, k: nat, name: string, mode: Mode)
    requires Ready(img, sh, i, b, d, k, name) && mode != NoMode
    requires Safe(Prepared(img, i, b, mode, d), Registered(sh, b, Slot(i, 0)))
    ensures var p := Prepared(img, i, b, mode, d);
            IsDir(p, d) && Safe(WithEntry(p, d, k, Dirent(name, i)), Linked(Registered(sh, b, Slot(i, 0)), d, k, i))
  {
    PreparedListing(img, sh, i, b, mode, d, d);
    PreparedOk(img, sh, i, b, mode, d, k);
    PreparedUntouched(img, sh, i, b, mode, d, d);
    LinkKeeps(Prepared(img, i, b, mode, d), Registered(sh, b, Slot(i, 0)), d, k, name, i);
  }

  /** Adding the entry changes no inode, and who holds what stays the same. */
  lemma LinkBlocks(img: Image, sh: Shape, i: nat, b: nat, d: nat, k: nat, name: string, mode: Mode)
    requires Ready(img, sh, i, b, d, k, name) && mode != NoMode
    requires Safe(Prepared(img, i, b, mode, d), Registered(sh, b, Slot(i, 0)))
    ensures var p := Prepared(img, i, b, mode, d);
            IsDir(p, d) && forall j: nat, n: nat | (j in sh.live || j == i) && j < MAX_INODES && n < SLOTS ::
              BlockAt(WithEntry(p, d, k, Dirent(name, i)), j, n) == BlockAt(p, j, n)
  {
    var p, sh1 := Prepared(img, i, b, mode, d), Registered(sh, b, Slot(i, 0));
    PreparedListing(img, sh, i, b, mode, d, d);
    PreparedUntouched(img, sh, i, b, mode, d, d);
    forall j: nat, n: nat | (j in sh.live || j == i) && j < MAX_INODES && n < SLOTS
      ensures BlockAt(WithEntry(p, d, k, Dirent(name, i)), j, n) == BlockAt(p, j, n)
    {
      if j == i {
        NodeAt(p.blocks, mode, b);
        NodeAt(WithEntry(p, d, k, Dirent(name, i)).blocks, mode, b);
      } else {
        assert InodeOk(p, sh1, j, p.inodes[j]);
        WithEntryAt(p, sh1, d, k, Dirent(name, i), j, n);
      }
    }
  }

  lemma LinkUntouched(img: Image, sh: Shape, i: nat, b: nat, d: nat, k: nat, name: string, mode: Mode, j: nat)
    requires Ready(img, sh, i, b, d, k, name) && mode != NoMode
    requires Safe(Prepared(img, i, b, mode, d), Registered(sh, b, Slot(i, 0)))
    requires j in sh.live && j != d
    ensures IsDir(Prepared(img, i, b, mode, d), d)
    ensures Untouched(img, WithEntry(Prepared(img, i, b, mode, d), d, k, Dirent(name, i)), j)
  {
    var p, sh1, e := Prepared(img, i, b, mode, d), Registered(sh, b, Slot(i, 0)), Dirent(name, i);
    PreparedListing(img, sh, i, b, mode, d, d);
    PreparedUntouched(img, sh, i, b, mode, d, d);
    PreparedUntouched(img, sh, i, b, mode, d, j);
    assert InodeOk(p, sh1, j, p.inodes[j]);
    EntryKeeps(p, sh1, d, k, e, sh1, j);
    forall n | 0 <= n < SLOTS && 0 < BlockAt(p, j, n) < BLOCK_COUNT
      ensures WithEntry(p, d, k, e).blocks[BlockAt(p, j, n)] == p.blocks[BlockAt(p, j, n)]
    {
    }
    UntouchedTrans(img, p, WithEntry(p, d, k, e), j);
  }

  /** The last step of a create. */
  lemma LinkCreates(img: Image, sh: Shape, i: nat, b: nat, d: nat, k: nat, name: string, mode: Mode)
    requires Ready(img, sh, i, b, d, k, name) && mode != NoMode
    requires Safe(Prepared(img, i, b, mode, d), Registered(sh, b, Slot(i, 0)))
    ensures IsDir(Prepared(img, i, b, mode, d), d)
    ensures Created(img, sh, WithEntry(Prepared(img, i, b, mode, d), d, k, Dirent(name, i)),
                    Linked(Registered(sh, b, Slot(i, 0)), d, k, i), d, name, mode, i)
  {
    PreparedListing(img, sh, i, b, mode, d, d);
    var img' := WithEntry(Prepared(img, i, b, mode, d), d, k, Dirent(name, i));
    LinkSafe(img, sh, i, b, d, k, name, mode);
    LinkFields(img, sh, i, b, d, k, name, mode);
    forall j | j in sh.live && j != d
      ensures Untouched(img, img', j)
    {
      LinkUntouched(img, sh, i, b, d, k, name, mode, j);
    }
    if Exact(img, sh) {
      LinkTight(img, sh, i, b, d, k, name, mode);
    }
  }

  lemma LinkFields(img: Image, sh: Shape, i: nat, b: nat, d: nat, k: nat, name: string, mode: Mode)
    requires Ready(img, sh, i, b, d, k, name) && mode != NoMode
    requires Safe(Prepared(img, i, b, mode, d), Registered(sh, b, Slot(i, 0)))
    ensures IsDir(Prepared(img, i, b, mode, d), d)
    ensures var img' := WithEntry(Prepared(img, i, b, mode, d), d, k, Dirent(name, i));
            && IsDir(img', d) && Listing(img', d) == Listing(img, d)[k := Dirent(name, i)]
                && img'.inodes == img.inodes[i := Node(mode, b)]
            && img'.inodeBits == img.inodeBits[i := true] && img'.blockBits == img.blockBits[b := true]
            && img'.blocks[b] == Fresh(mode, i, d)
  {
    PreparedListing(img, sh, i, b, mode, d, d);
    LiveListing(img, sh, d);
  }

  lemma LinkTight(img: Image, sh: Shape, i: nat, b: nat, d: nat, k: nat, name: string, mode: Mode)
    requires Ready(img, sh, i, b, d, k, name) && mode != NoMode
    requires Safe(Prepared(img, i, b, mode, d), Registered(sh, b, Slot(i, 0)))
    requires Exact(img, sh)
    ensures IsDir(Prepared(img, i, b, mode, d), d)
    ensures Tight(WithEntry(Prepared(img, i, b, mode, d), d, k, Dirent(name, i)),
                  Linked(Registered(sh, b, Slot(i, 0)), d, k, i), NONE, ZERO_INODE)
  {
    var p, sh' := Prepared(img, i, b, mode, d), Linked(Registered(sh, b, Slot(i, 0)), d, k, i);
    PreparedListing(img, sh, i, b, mode, d, d);
    CreatedTight(img, sh, i, b, mode, d, k);
    LinkBlocks(img, sh, i, b, d, k, name, mode);
    TightKept(p, sh', WithEntry(p, d, k, Dirent(name, i)));
  }

  /** Directories, such as the working directory, stay. */
  lemma CreatedDir(img0: Image, sh0: Shape, img: Image, sh: Shape, d: nat, name: string, mode: Mode, i: nat, e: nat)
    requires Created(img0, sh0, img, sh, d, name, mode, i) && e in sh0.live
    ensures e in sh.live && img.inodes[e] == img0.inodes[e]
  {
  }

  /** What dir_add writes into the first hole completes the creation. */
  lemma EntryCreates(img: Image, sh: Shape, i: nat, b: nat, d: nat, k: nat, name: string, mode: Mode)
    requires Safe(img, sh) && Available(img, i, b) && i == FirstInode(img) && b == FirstBlock(img) && i != 0
    requires i !in sh.live
    requires Safe(Prepared(img, i, b, mode, d), Registered(sh, b, Slot(i, 0))) && mode != NoMode
    requires d in sh.live && IsDir(img, d) && k == FindHole(Listing(img, d), 0) < DIR_ENTRIES
    requires GoodName(name) && Lookup(img, d, name) == Missing
    ensures d in sh.depth && IsDir(Prepared(img, i, b, mode, d), d)
    ensures Created(img, sh, WithEntry(Prepared(img, i, b, mode, d), d, k, Dirent(name, i)),
                    Linked(Registered(sh, b, Slot(i, 0)), d, k, i), d, name, mode, i)
  {
    HoleIsFree(img, sh, d);
    LiveListing(img, sh, d);
    LinkCreates(img, sh, i, b, d, k, name, mode);
  }

  // ---------------------------------------------------------------- failure

  /** A failed create: both bits are cleared again. */
  function Discarded(img: Image, i: nat, b: nat): (r: Image)
    requires Sized(img) && i < MAX_INODES && b < BLOCK_COUNT
    ensures Sized(r)
  {
    Apply(Apply(img, BlockBit(b, false)), InodeBit(i, false))
  }

  lemma DiscardKeeps(img: Image, sh: Shape, i: nat, b: nat, owner: map<nat, Slot>)
    requires Safe(img, sh) && i !in sh.live && i < MAX_INODES && 0 < b < BLOCK_COUNT && b in sh.owner
    requires sh.owner[b].ino == i
    requires forall c | c in sh.owner && c != b :: c in owner && owner[c] == sh.owner[c]
    ensures Safe(Apply(img, BlockBit(b, false)), sh.(owner := owner)) && Safe(Discarded(img, i, b), sh.(owner := owner))
  {
    var img' := Apply(img, BlockBit(b, false));
    UnregisteredUnheld(img, sh, NONE, b);
    HarmlessKeeps(img, sh, NONE, BlockBit(b, false));
    assert forall j: nat, n: nat | j < MAX_INODES && n < SLOTS :: BlockAt(img', j, n) == BlockAt(img, j, n);
    assert Unheld(img', sh, NONE, b);
    Reregister(img', sh, NONE, b, owner);
    HarmlessKeeps(img', sh.(owner := owner), NONE, InodeBit(i, false));
  }

  /** A failed create leaves both bitmaps as they were and every live inode untouched. */
  lemma DiscardedIsOld(img: Image, sh: Shape, i: nat, b: nat, mode: Mode, d: nat)
    requires Safe(img, sh) && Available(img, i, b)
    ensures var r := Discarded(Prepared(img, i, b, mode, d), i, b);
            && r.blockBits == img.blockBits && r.inodeBits == img.inodeBits
            && (forall j | j in sh.live :: Untouched(img, r, j))
            && (Exact(img, sh) ==> Tight(r, sh, NONE, ZERO_INODE))
  {
    var p := Prepared(img, i, b, mode, d);
    var r := Discarded(p, i, b);
    forall j | j in sh.live
      ensures Untouched(img, r, j)
    {
      PreparedUntouched(img, sh, i, b, mode, d, j);
    }
    if Exact(img, sh) {
      forall j: nat, n: nat | j in sh.live && j < MAX_INODES && n < SLOTS
        ensures BlockAt(r, j, n) == BlockAt(img, j, n)
      {
        UntouchedAt(img, r, j, n);
      }
      TightKept(img, sh, r);
    }
  }
}
