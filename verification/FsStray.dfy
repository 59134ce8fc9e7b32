/**
  Data written to a block that is not the writer's own: which inodes it may belong to, and when the
  image survives.
 */
module FsStray {
  import opened FsDisk
  import opened FsShape
  import opened FsSteps
  import opened FsFiles
  import opened Pigeonhole

  // ---------------------------------------------------------------- the live inodes, computed

  /** Inode `i` hangs below the root, at whatever depth a disk of this size allows. */
  predicate Attached(img: Image, i: nat)
    requires Sized(img)
  {
    exists n: nat :: n < MAX_INODES && Reaches(img, i, n)
  }

  /** The way up from `i` to the root. */
  ghost function Ancestors(img: Image, sh: Shape, i: nat): (q: seq<nat>)
    requires Safe(img, sh) && i in sh.live && i in sh.depth
    ensures |q| == sh.depth[i] + 1
    ensures forall k | 0 <= k < |q| :: q[k] in sh.live && q[k] in sh.depth && sh.depth[q[k]] == sh.depth[i] - k
    decreases sh.depth[i]
  {
    if i == 0 then [0] else assert Hangs(img, sh, i); [i] + Ancestors(img, sh, sh.parent[i])
  }

  /** The tree is never deeper than there are inodes. */
  lemma DepthBound(img: Image, sh: Shape, i: nat)
    requires Safe(img, sh) && i in sh.live && i in sh.depth
    ensures sh.depth[i] < MAX_INODES
  {
    DistinctFits(Ancestors(img, sh, i), 0, MAX_INODES);
  }

  /** In a safe image the live inodes are the attached ones, whatever the shape. */
  lemma LiveIsAttached(img: Image, sh: Shape, i: nat)
    requires Safe(img, sh)
    ensures i in sh.live <==> Attached(img, i)
  {
    if i in sh.live {
      LiveIsReached(img, sh, i);
      DepthBound(img, sh, i);
    }
    if Attached(img, i) {
      var n: nat :| n < MAX_INODES && Reaches(img, i, n);
      ReachedIsLive(img, sh, i, n);
    }
  }

  // ---------------------------------------------------------------- the condition

  /** Whatever live inode holds block `b` is a file that keeps data in it. */
  predicate OnlyData(img: Image, b: nat)
    requires Sized(img)
  {
    forall i, n | 0 <= i < MAX_INODES && 0 <= n < SLOTS && Attached(img, i) && BlockAt(img, i, n) == b ::
      img.inodes[i].mode == FileMode && n != TABLE
  }

  /** The live inode that block `b` is registered to, if it is. */
  function Holder(sh: Shape, b: nat): set<nat> {
    if b in sh.owner && sh.owner[b].ino in sh.live then {sh.owner[b].ino} else {}
  }

  /** The image after data was written to a block, whoever's it is. */
  function Struck(img: Image, b: nat, bytes: seq<Byte>): (r: Image)
    requires Sized(img) && b < BLOCK_COUNT
    ensures Sized(r)
  {
    Apply(img, PutBlock(b, Data(bytes)))
  }

  // ---------------------------------------------------------------- it suffices

  /** Under the condition the image stays safe and exact, and only the holder of the block is touched. */
  lemma StruckKeeps(img: Image, sh: Shape, b: nat, bytes: seq<Byte>)
    requires Safe(img, sh) && DATA_START <= b < JOURNAL_START && |bytes| == BLOCK_SIZE && OnlyData(img, b)
    ensures Safe(Struck(img, b, bytes), sh)
    ensures forall j | j in sh.live && j !in Holder(sh, b) :: Untouched(img, Struck(img, b, bytes), j)
    ensures Exact(img, sh) ==> Exact(Struck(img, b, bytes), sh)
  {
    var w := PutBlock(b, Data(bytes));
    if i, n :| i in sh.live && 0 <= n < SLOTS && BlockAt(img, i, n) == b {
      LiveIsAttached(img, sh, i);
      HeldStruck(img, sh, i, n, b, bytes);
    } else {
      HarmlessKeeps(img, sh, NONE, w);
      forall j | j in sh.live
        ensures Untouched(img, Struck(img, b, bytes), j)
      {
        HarmlessUntouched(img, sh, NONE, w, j);
      }
    }
    if Exact(img, sh) {
      StruckTight(img, sh, b, bytes);
    }
  }

  /** The block is a data block of a live file. */
  lemma HeldStruck(img: Image, sh: Shape, i: nat, n: nat, b: nat, bytes: seq<Byte>)
    requires Safe(img, sh) && DATA_START <= b < JOURNAL_START && |bytes| == BLOCK_SIZE
    requires i in sh.live && n < SLOTS && BlockAt(img, i, n) == b && img.inodes[i].mode == FileMode && n != TABLE
    ensures Safe(Struck(img, b, bytes), sh) && Holder(sh, b) == {i}
    ensures forall j | j in sh.live && j != i :: Untouched(img, Struck(img, b, bytes), j)
  {
    var w, ind := PutBlock(b, Data(bytes)), img.inodes[i];
    assert InodeOk(img, sh, i, ind);
    assert Owned(img, sh, i, n, At(img.blocks, ind, n));
    OverwriteData(img, sh, i, ind, n, Data(bytes));
    FileWriteKeeps(img, sh, i, b, n, Data(bytes));
    assert SafeBut(img, sh, i);
    UnregisteredUnheld(img, sh, i, b);
    forall j | j in sh.live && j != i
      ensures Untouched(img, Struck(img, b, bytes), j)
    {
      HarmlessUntouched(img, sh, i, w, j);
    }
  }

  /** No pointer has changed. */
  lemma StruckTight(img: Image, sh: Shape, b: nat, bytes: seq<Byte>)
    requires Exact(img, sh) && DATA_START <= b < JOURNAL_START && |bytes| == BLOCK_SIZE && OnlyData(img, b)
    ensures Tight(Struck(img, b, bytes), sh, NONE, ZERO_INODE)
  {
    var img' := Struck(img, b, bytes);
    forall c | c in sh.owner
      ensures True(img', sh, NONE, ZERO_INODE, c)
    {
      assert True(img, sh, NONE, ZERO_INODE, c);
      var j := sh.owner[c].ino;
      LiveIsAttached(img, sh, j);
      assert BlockAt(img, j, TABLE) == img.inodes[j].indirect != b;
    }
  }

  // ---------------------------------------------------------------- it is needed

  /** What lies above the block is still reached. */
  lemma {:induction false} StillReached(img: Image, sh: Shape, b: nat, bytes: seq<Byte>, a: nat)
    requires Safe(img, sh) && 0 < b < BLOCK_COUNT && a in sh.live && a in sh.depth
    requires forall p | p in sh.live && p in sh.depth && IsDir(img, p) && img.inodes[p].direct[0] == b ::
               sh.depth[p] >= sh.depth[a]
    ensures Reaches(Struck(img, b, bytes), a, sh.depth[a])
    decreases sh.depth[a]
  {
    if a != 0 {
      assert Hangs(img, sh, a);
      var p := sh.parent[a];
      StillReached(img, sh, b, bytes, p);
      LiveListing(img, sh, p);
      assert img.inodes[p].direct[0] != b;
      assert Listing(Struck(img, b, bytes), p)[sh.entry[a]].ino == a;
    }
  }

  /** A directory's block holds entries, a file's pointer table pointers. */
  predicate Typed(img: Image, i: nat)
    requires Sized(img) && i < MAX_INODES
  {
    var ind := img.inodes[i];
    && (ind.mode == DirMode && ind.direct[0] < BLOCK_COUNT ==> img.blocks[ind.direct[0]].Dir?)
    && (ind.mode == FileMode && 0 < ind.indirect < BLOCK_COUNT ==> img.blocks[ind.indirect].Ptrs?)
  }

  lemma ReachedIsTyped(img: Image, sh: Shape, i: nat, n: nat)
    requires Safe(img, sh) && Reaches(img, i, n) && i < MAX_INODES
    ensures Typed(img, i)
  {
    ReachedIsLive(img, sh, i, n);
    assert InodeOk(img, sh, i, img.inodes[i]);
  }

  /** Data written over the block of a live directory leaves an image that no shape fits. */
  lemma DirectoryStruck(img: Image, sh: Shape, d: nat, bytes: seq<Byte>)
    requires Safe(img, sh) && d in sh.live && img.inodes[d].mode == DirMode
    ensures IsDir(img, d) && !SafeImage(Struck(img, img.inodes[d].direct[0], bytes))
  {
    LiveListing(img, sh, d);
    var b := img.inodes[d].direct[0];
    forall p | p in sh.live && p in sh.depth && IsDir(img, p) && img.inodes[p].direct[0] == b
      ensures p == d
    {
      LiveListing(img, sh, p);
    }
    StillReached(img, sh, b, bytes, d);
    forall sh'
      ensures Safe(Struck(img, b, bytes), sh') ==> Typed(Struck(img, b, bytes), d)
    {
      if Safe(Struck(img, b, bytes), sh') {
        ReachedIsTyped(Struck(img, b, bytes), sh', d, sh.depth[d]);
      }
    }
  }

  /** Data written over the pointer table of a live file does, too. */
  lemma TableStruck(img: Image, sh: Shape, i: nat, bytes: seq<Byte>)
    requires Safe(img, sh) && i in sh.live && img.inodes[i].mode == FileMode && img.inodes[i].indirect != 0
    ensures img.inodes[i].indirect < BLOCK_COUNT && !SafeImage(Struck(img, img.inodes[i].indirect, bytes))
  {
    var b, ind := img.inodes[i].indirect, img.inodes[i];
    assert InodeOk(img, sh, i, ind);
    assert At(img.blocks, ind, TABLE) == b && Owned(img, sh, i, TABLE, b);
    assert i != 0 ==> Hangs(img, sh, i);
    forall p | p in sh.live && p in sh.depth && IsDir(img, p) && img.inodes[p].direct[0] == b
      ensures false
    {
      LiveListing(img, sh, p);
    }
    StillReached(img, sh, b, bytes, i);
    forall sh'
      ensures Safe(Struck(img, b, bytes), sh') ==> Typed(Struck(img, b, bytes), i)
    {
      if Safe(Struck(img, b, bytes), sh') {
        ReachedIsTyped(Struck(img, b, bytes), sh', i, sh.depth[i]);
      }
    }
  }

  /**
    A data write to a data block keeps the image safe if and only if no live inode keeps anything
    but file data in the block: it must be neither a directory's block nor a pointer table.
   */
  lemma OverwriteIff(img: Image, sh: Shape, b: nat, bytes: seq<Byte>)
    requires Safe(img, sh) && DATA_START <= b < JOURNAL_START && |bytes| == BLOCK_SIZE
    ensures SafeImage(Struck(img, b, bytes)) <==> OnlyData(img, b)
  {
    if OnlyData(img, b) {
      StruckKeeps(img, sh, b, bytes);
    } else {
      var i, n :| 0 <= i < MAX_INODES && 0 <= n < SLOTS && Attached(img, i) && BlockAt(img, i, n) == b
                  && !(img.inodes[i].mode == FileMode && n != TABLE);
      LiveIsAttached(img, sh, i);
      assert InodeOk(img, sh, i, img.inodes[i]);
      if img.inodes[i].mode == FileMode {
        TableStruck(img, sh, i, bytes);
      } else {
        DirectoryStruck(img, sh, i, bytes);
      }
    }
  }
}
