/** Taking an inode out of the tree. */
module FsRemove {
  import opened FsDisk
  import opened FsShape
  import opened FsSteps
  import opened FsFiles
  import opened FsRelease
  import opened FsCreate
  import opened FsExact
  import opened FsWalk

  /** Entry `k` of directory `d` names the inode `c`, which may be unlinked: a file or an empty directory. */
  ghost predicate Removable(img: Image, sh: Shape, d: nat, k: nat, c: nat) {
    && Safe(img, sh) && d in sh.live && img.inodes[d].mode == DirMode && IsDir(img, d)
    && 2 <= k < DIR_ENTRIES && Listing(img, d)[k].ino == c && c != INVALID && c < MAX_INODES
    && (img.inodes[c].mode == DirMode && IsDir(img, c) ==> EmptyDir(Listing(img, c)))
  }

  /** From (img0, sh0) to (img, sh), exactly inode `c` and its entry are gone. */
  ghost predicate Deleted(img0: Image, sh0: Shape, img: Image, sh: Shape, d: nat, k: nat, c: nat) {
    && Safe(img0, sh0) && Safe(img, sh) && c in sh0.live && c != 0 && c != d && d in sh0.live
    && sh.live == sh0.live - {c} && sh.solid == sh0.solid && c < MAX_INODES
    && IsDir(img0, d) && IsDir(img, d) && img.inodes[d] == img0.inodes[d] && k < DIR_ENTRIES
    && Listing(img, d) == Listing(img0, d)[k := NO_ENTRY] && img.inodes == img0.inodes[c := ZERO_INODE]
    && img.inodeBits == img0.inodeBits[c := false]
    && (forall b | 0 <= b < BLOCK_COUNT :: img.blockBits[b] <==>
        img0.blockBits[b] && !Keeping(img0.blocks, img0.inodes[c], b))
    && (forall j | j in sh.live && j != d :: Untouched(img0, img, j))
    && (Exact(img0, sh0) ==> Exact(img, sh))
  }

  /** Once the entry is cleared, the blocks of `c` are still registered to it. */
  lemma ClearedHeld(img: Image, sh: Shape, d: nat, k: nat, c: nat)
    requires Removable(img, sh, d, k, c)
    ensures Safe(WithEntry(img, d, k, NO_ENTRY), Unlinked(sh, c)) && c in sh.live && c != 0 && c != d
    ensures HeldBy(WithEntry(img, d, k, NO_ENTRY).blocks, Unlinked(sh, c), c, img.inodes[c])
    ensures forall n | 0 <= n < SLOTS ::
              At(WithEntry(img, d, k, NO_ENTRY).blocks, img.inodes[c], n) == At(img.blocks, img.inodes[c], n)
  {
    UnlinkKeeps(img, sh, d, k, c);
    UnlinkedParentOk(img, sh, d, k, c);
    LiveListing(img, sh, d);
    assert InodeOk(img, sh, c, img.inodes[c]);
    forall n | 0 <= n < SLOTS
      ensures At(WithEntry(img, d, k, NO_ENTRY).blocks, img.inodes[c], n) == At(img.blocks, img.inodes[c], n)
    {
      WithEntryAt(img, sh, d, k, NO_ENTRY, c, n);
      assert BlockAt(img, c, n) == At(img.blocks, img.inodes[c], n);
    }
  }

  lemma DeletedUntouched(img: Image, sh: Shape, d: nat, k: nat, c: nat, img2: Image, sh2: Shape, j: nat)
    requires Removable(img, sh, d, k, c) && j in sh.live && j != c && j != d
    requires Released(WithEntry(img, d, k, NO_ENTRY), Unlinked(sh, c), img2, sh2, c, img.inodes[c], SLOTS)
    ensures Untouched(img, Removed(img2, c), j)
  {
    assert InodeOk(img, sh, j, img.inodes[j]);
    EntryKeeps(img, sh, d, k, NO_ENTRY, sh, j);
    forall n | 0 <= n < SLOTS && 0 < BlockAt(img, j, n) < BLOCK_COUNT
      ensures img2.blocks[BlockAt(img, j, n)] == img.blocks[BlockAt(img, j, n)]
    {
      assert BlockAt(img, j, n) == At(img.blocks, img.inodes[j], n);
    }
  }

  lemma DeletedTight(img: Image, sh: Shape, d: nat, k: nat, c: nat, img2: Image, sh2: Shape)
    requires Removable(img, sh, d, k, c) && Exact(img, sh) && c in sh.live
    requires Released(WithEntry(img, d, k, NO_ENTRY), Unlinked(sh, c), img2, sh2, c, img.inodes[c], SLOTS)
    ensures Tight(Removed(img2, c), sh2, NONE, ZERO_INODE)
  {
    var img1 := WithEntry(img, d, k, NO_ENTRY);
    EntryTightKept(img, sh, d, k, NO_ENTRY);
    ReleasedTight(img1, sh, Unlinked(sh, c), img2, sh2, c, img.inodes[c], Removed(img2, c));
  }

  lemma DeletedParent(img: Image, sh: Shape, d: nat, k: nat, c: nat, img2: Image, sh2: Shape)
    requires Removable(img, sh, d, k, c) && c != d
    requires Released(WithEntry(img, d, k, NO_ENTRY), Unlinked(sh, c), img2, sh2, c, img.inodes[c], SLOTS)
    ensures IsDir(Removed(img2, c), d) && Removed(img2, c).inodes[d] == img.inodes[d]
    ensures Listing(Removed(img2, c), d) == Listing(img, d)[k := NO_ENTRY]
  {
    LiveListing(img, sh, d);
  }

  lemma DeletedBits(img: Image, sh: Shape, d: nat, k: nat, c: nat, img2: Image, sh2: Shape)
    requires Removable(img, sh, d, k, c)
    requires Released(WithEntry(img, d, k, NO_ENTRY), Unlinked(sh, c), img2, sh2, c, img.inodes[c], SLOTS)
    ensures forall b | 0 <= b < BLOCK_COUNT ::
              Removed(img2, c).blockBits[b] <==> img.blockBits[b] && !Keeping(img.blocks, img.inodes[c], b)
  {
    var img1 := WithEntry(img, d, k, NO_ENTRY);
    ClearedHeld(img, sh, d, k, c);
    AllGone(img1, Unlinked(sh, c), img2, sh2, c, img.inodes[c]);
    forall b: nat
      ensures Keeping(img1.blocks, img.inodes[c], b) <==> Keeping(img.blocks, img.inodes[c], b)
    {
      if Keeping(img1.blocks, img.inodes[c], b) {
        var n: nat :| n < SLOTS && At(img1.blocks, img.inodes[c], n) == b;
        assert At(img.blocks, img.inodes[c], n) == b;
      }
      if Keeping(img.blocks, img.inodes[c], b) {
        var n: nat :| n < SLOTS && At(img.blocks, img.inodes[c], n) == b;
        assert At(img1.blocks, img.inodes[c], n) == b;
      }
    }
  }

  /** The steps of an unlink, entry first, add up to a deletion. */
  lemma Deletes(img: Image, sh: Shape, d: nat, k: nat, c: nat, img2: Image, sh2: Shape)
    requires Removable(img, sh, d, k, c) && Safe(img2, sh2)
    requires Released(WithEntry(img, d, k, NO_ENTRY), Unlinked(sh, c), img2, sh2, c, img.inodes[c], SLOTS)
    ensures Safe(Zeroed(img2, c), sh2) && Deleted(img, sh, Removed(img2, c), sh2, d, k, c)
  {
    ClearedHeld(img, sh, d, k, c);
    RemoveKeeps(img2, sh2, c);
    DeletedParent(img, sh, d, k, c, img2, sh2);
    DeletedBits(img, sh, d, k, c, img2, sh2);
    forall j | j in sh2.live && j != d
      ensures Untouched(img, Removed(img2, c), j)
    {
      DeletedUntouched(img, sh, d, k, c, img2, sh2, j);
    }
    if Exact(img, sh) {
      DeletedTight(img, sh, d, k, c, img2, sh2);
    }
  }

  /** What a name finds in a live directory may be unlinked, unless it is a directory with entries. */
  lemma FoundRemovable(img: Image, sh: Shape, d: nat, name: string)
    requires Safe(img, sh) && d in sh.live && GoodName(name) && Lookup(img, d, name).Inum?
    requires var c := Lookup(img, d, name).ino; c < MAX_INODES && img.inodes[c].mode == DirMode && IsDir(img, c) ==>
               EmptyDir(Listing(img, c))
    ensures Lookup(img, d, name).ino in sh.live && Lookup(img, d, name).ino != 0
    ensures Removable(img, sh, d, FindName(Listing(img, d), name, 0), Lookup(img, d, name).ino)
  {
    LookupLive(img, sh, d, name);
    LiveListing(img, sh, d);
  }

  /** Other directories, such as the working directory or the root, stay. */
  lemma DeletedDir(img0: Image, sh0: Shape, img: Image, sh: Shape, d: nat, k: nat, c: nat, e: nat)
    requires Deleted(img0, sh0, img, sh, d, k, c) && e in sh0.live && img0.inodes[e].mode == DirMode
    ensures e != c ==> e in sh.live && img.inodes[e].mode == DirMode
    ensures 0 in sh.live && img.inodes[0].mode == DirMode
  {
  }

  // ---------------------------------------------------------------- truncation

  /** The bytes of a truncated file. */
  lemma TruncatedEmpty(img0: Image, sh0: Shape, img: Image, sh: Shape, c: nat)
    requires Truncated(img0, sh0, img, sh, c)
    ensures Contents(img, c) == []
  {
    EmptiedOk(img, sh, c, img0.inodes[c]);
  }

  /** From (img0, sh0) to (img, sh), file `c` lost its bytes and its blocks, and nothing else changed. */
  ghost predicate Truncated(img0: Image, sh0: Shape, img: Image, sh: Shape, c: nat) {
    && Safe(img0, sh0) && Safe(img, sh) && SameTree(sh0, sh) && c in sh0.live && img0.inodes[c].mode == FileMode
    && img.inodes == img0.inodes[c := Emptied(img0.inodes[c])] && img.inodeBits == img0.inodeBits
    && (forall b | 0 <= b < BLOCK_COUNT :: img.blockBits[b] <==>
        img0.blockBits[b] && !Keeping(img0.blocks, img0.inodes[c], b))
    && (forall j | j in sh0.live && j != c :: Untouched(img0, img, j))
    && (Exact(img0, sh0) ==> Exact(img, sh))
  }

  /** The steps of a truncation: the file is empty, everything else is untouched. */
  lemma Truncates(img: Image, sh: Shape, c: nat, img2: Image, sh2: Shape)
    requires Safe(img, sh) && c in sh.live && img.inodes[c].mode == FileMode && SafeBut(img2, sh2, c)
    requires Released(img, sh, img2, sh2, c, img.inodes[c], SLOTS)
    ensures Truncated(img, sh, Apply(img2, PutInode(c, Emptied(img.inodes[c]))), sh2, c)
  {
    var r := Apply(img2, PutInode(c, Emptied(img.inodes[c])));
    assert InodeOk(img, sh, c, img.inodes[c]);
    ConsistentHeld(img, sh, c, img.inodes[c]);
    AllGone(img, sh, img2, sh2, c, img.inodes[c]);
    EmptiedOk(img2, sh2, c, img.inodes[c]);
    StoreInode(img2, sh2, c, c, Emptied(img.inodes[c]));
    if Exact(img, sh) {
      ReleasedTight(img, sh, sh, img2, sh2, c, img.inodes[c], r);
    }
  }
}
