/** How single block writes act on safe images. */
module FsSteps {
  import opened FsDisk
  import opened FsShape

  /** The blocks of `ind` read the same, are still marked used, and keep their owner. */
  ghost predicate Keeps(img: Image, sh: Shape, img': Image, sh': Shape, ind: Inode)
    requires Sized(img) && Sized(img')
  {
    forall n | 0 <= n < SLOTS && 0 < At(img.blocks, ind, n) < BLOCK_COUNT ::
      var b := At(img.blocks, ind, n);
      && img'.blocks[b] == img.blocks[b] && (img.blockBits[b] ==> img'.blockBits[b])
      && (b in sh.owner ==> b in sh'.owner && sh'.owner[b] == sh.owner[b])
  }

  lemma AtKept(img: Image, sh: Shape, img': Image, sh': Shape, ind: Inode, n: nat)
    requires Sized(img) && Sized(img') && Keeps(img, sh, img', sh', ind) && n < SLOTS
    ensures At(img'.blocks, ind, n) == At(img.blocks, ind, n)
  {
    assert At(img.blocks, ind, TABLE) == ind.indirect;
  }

  lemma OwnedKept(img: Image, sh: Shape, img': Image, sh': Shape, i: nat, ind: Inode)
    requires Sized(img) && Sized(img') && Keeps(img, sh, img', sh', ind) && BlocksOwned(img, sh, i, ind)
    ensures BlocksOwned(img', sh', i, ind)
  {
    forall n | 0 <= n < SLOTS && At(img'.blocks, ind, n) != 0
      ensures Owned(img', sh', i, n, At(img'.blocks, ind, n))
    {
      AtKept(img, sh, img', sh', ind, n);
    }
  }

  lemma FileKept(img: Image, sh: Shape, img': Image, sh': Shape, ind: Inode)
    requires Sized(img) && Sized(img') && Keeps(img, sh, img', sh', ind) && FileOk(img, ind)
    ensures FileOk(img', ind)
  {
    assert At(img.blocks, ind, TABLE) == ind.indirect;
    forall n | 0 <= n < SLOTS
      ensures At(img'.blocks, ind, n) == At(img.blocks, ind, n)
    {
      AtKept(img, sh, img', sh', ind, n);
    }
  }

  /** A file without holes that loses no block has none afterwards. */
  lemma NoNewHoles(blocks: seq<Content>, ind: Inode, blocks': seq<Content>, ind': Inode)
    requires HoleFree(blocks, ind) && ind'.size == ind.size <= MAX_FILE_BLOCKS * BLOCK_SIZE
    requires forall n | 0 <= n < SLOTS && At(blocks, ind, n) != 0 :: At(blocks', ind', n) != 0
    ensures HoleFree(blocks', ind')
  {
    forall l | 0 <= l < BlocksFor(ind.size)
      ensures At(blocks', ind', DataSlot(l)) != 0
    {
      assert 0 <= DataSlot(l) < SLOTS && At(blocks, ind, DataSlot(l)) != 0;
    }
  }

  /** A consistent inode stays consistent when its blocks are kept and, for a directory, its children too. */
  lemma InodeKept(img: Image, sh: Shape, img': Image, sh': Shape, i: nat, ind: Inode)
    requires Sized(img) && Sized(img') && InodeOk(img, sh, i, ind) && Keeps(img, sh, img', sh', ind)
    requires ind.mode == DirMode ==>
               i in sh'.parent && sh'.parent[i] == sh.parent[i] && ChildrenOk(sh', i, img.blocks[ind.direct[0]].entries)
    requires ind.mode == FileMode && i in sh'.solid ==> i in sh.solid
    ensures InodeOk(img', sh', i, ind)
  {
    OwnedKept(img, sh, img', sh', i, ind);
    if ind.mode == FileMode {
      FileKept(img, sh, img', sh', ind);
      if i in sh'.solid {
        forall n | 0 <= n < SLOTS
          ensures At(img'.blocks, ind, n) == At(img.blocks, ind, n)
        {
          AtKept(img, sh, img', sh', ind, n);
        }
        NoNewHoles(img.blocks, ind, img'.blocks, ind);
      }
    } else {
      assert At(img.blocks, ind, 0) == ind.direct[0];
    }
  }

  /** Same tree, same live inodes. */
  predicate SameTree(sh: Shape, sh': Shape) {
    && sh'.live == sh.live && sh'.parent == sh.parent && sh'.entry == sh.entry && sh'.depth == sh.depth
    && sh'.solid == sh.solid
  }

  /** An image whose live inodes are untouched and keep their blocks stays safe. */
  lemma SafeKept(img: Image, sh: Shape, img': Image, sh': Shape, x: nat)
    requires SafeBut(img, sh, x) && Sized(img') && SameTree(sh, sh')
    requires x in sh.live ==> img.inodes[x].mode == FileMode
    requires forall i | i in sh.live :: img'.inodes[i] == img.inodes[i] && img'.inodeBits[i]
    requires forall i | i in sh.live && i != x :: Keeps(img, sh, img', sh', img.inodes[i])
    ensures SafeBut(img', sh', x)
  {
    forall i | i in sh'.live && i != x
      ensures InodeOk(img', sh', i, img'.inodes[i])
    {
      var ind := img.inodes[i];
      assert InodeOk(img, sh, i, ind);
      if ind.mode == DirMode {
        SameChildren(sh, sh', i, img.blocks[ind.direct[0]].entries);
      }
      InodeKept(img, sh, img', sh', i, ind);
    }
    forall c | c in sh'.live && c != 0
      ensures Hangs(img', sh', c)
    {
      assert Hangs(img, sh, c);
      ListingKept(img, sh, img', sh', sh.parent[c]);
    }
  }

  lemma SameChildren(sh: Shape, sh': Shape, d: nat, entries: seq<Dirent>)
    requires SameTree(sh, sh') && |entries| == DIR_ENTRIES && ChildrenOk(sh, d, entries)
    ensures ChildrenOk(sh', d, entries)
  {
  }

  lemma ListingKept(img: Image, sh: Shape, img': Image, sh': Shape, d: nat)
    requires Sized(img) && Sized(img') && IsDir(img, d) && img'.inodes[d] == img.inodes[d]
    requires Keeps(img, sh, img', sh', img.inodes[d])
    ensures IsDir(img', d) && Listing(img', d) == Listing(img, d)
  {
    assert At(img.blocks, img.inodes[d], 0) == img.inodes[d].direct[0];
  }

  // ---------------------------------------------------------------- writes that reach nothing live

  /** No live inode but `x` holds block `b`. */
  ghost predicate Unheld(img: Image, sh: Shape, x: nat, b: nat)
    requires Sized(img)
  {
    forall i: nat, n: nat | i in sh.live && i != x && i < MAX_INODES && n < SLOTS :: BlockAt(img, i, n) != b
  }

  /** A block registered to nobody, to a dead inode or to `x` is not held by other live inodes. */
  lemma UnregisteredUnheld(img: Image, sh: Shape, x: nat, b: nat)
    requires SafeBut(img, sh, x) && 0 < b && (b !in sh.owner || sh.owner[b].ino !in sh.live || sh.owner[b].ino == x)
    ensures Unheld(img, sh, x, b)
  {
    forall i: nat, n: nat | i in sh.live && i != x && i < MAX_INODES && n < SLOTS
      ensures BlockAt(img, i, n) != b
    {
      assert InodeOk(img, sh, i, img.inodes[i]);
    }
  }

  /** A block whose bit is clear is held by nothing live. */
  lemma ClearUnheld(img: Image, sh: Shape, x: nat, b: nat)
    requires SafeBut(img, sh, x) && DATA_START <= b < JOURNAL_START && !img.blockBits[b]
    ensures Unheld(img, sh, x, b)
  {
    forall i: nat, n: nat | i in sh.live && i != x && i < MAX_INODES && n < SLOTS
      ensures BlockAt(img, i, n) != b
    {
      assert InodeOk(img, sh, i, img.inodes[i]);
    }
  }

  /** The write does not touch what live inodes other than `x` use. */
  ghost predicate Harmless(img: Image, sh: Shape, x: nat, w: Write)
    requires Sized(img)
  {
    Fits(w) &&
    match w
    case BlockBit(b, v) => v || Unheld(img, sh, x, b)
    case InodeBit(i, v) => v || i !in sh.live
    case PutInode(i, _) => i !in sh.live
    case PutBlock(b, _) => Unheld(img, sh, x, b)
  }

  lemma HarmlessKeeps(img: Image, sh: Shape, x: nat, w: Write)
    requires SafeBut(img, sh, x) && Harmless(img, sh, x, w) && (x in sh.live ==> img.inodes[x].mode == FileMode)
    ensures SafeBut(Apply(img, w), sh, x)
  {
    var img' := Apply(img, w);
    forall i | i in sh.live && i != x
      ensures Keeps(img, sh, img', sh, img.inodes[i])
    {
      forall n | 0 <= n < SLOTS && 0 < At(img.blocks, img.inodes[i], n) < BLOCK_COUNT
        ensures var b := At(img.blocks, img.inodes[i], n);
                img'.blocks[b] == img.blocks[b] && (img.blockBits[b] ==> img'.blockBits[b])
      {
        assert BlockAt(img, i, n) == At(img.blocks, img.inodes[i], n);
      }
    }
    SafeKept(img, sh, img', sh, x);
  }

  /** Registering anew, or unregistering, a block nobody else holds. */
  lemma Reregister(img: Image, sh: Shape, x: nat, b: nat, owner: map<nat, Slot>)
    requires SafeBut(img, sh, x) && Unheld(img, sh, x, b) && (x in sh.live ==> img.inodes[x].mode == FileMode)
    requires forall c | c in sh.owner && c != b :: c in owner && owner[c] == sh.owner[c]
    ensures SafeBut(img, sh.(owner := owner), x)
  {
    var sh' := sh.(owner := owner);
    forall i | i in sh.live && i != x
      ensures Keeps(img, sh, img, sh', img.inodes[i])
    {
      forall n | 0 <= n < SLOTS && 0 < At(img.blocks, img.inodes[i], n) < BLOCK_COUNT
        ensures At(img.blocks, img.inodes[i], n) != b
      {
        assert BlockAt(img, i, n) == At(img.blocks, img.inodes[i], n);
      }
    }
    SafeKept(img, sh, img, sh', x);
  }

  // ---------------------------------------------------------------- an inode being extended in memory

  /** `ind` does not hold block `b`. */
  ghost predicate Lacks(img: Image, ind: Inode, b: nat)
    requires Sized(img)
  {
    forall n | 0 <= n < SLOTS :: At(img.blocks, ind, n) != b
  }

  lemma ClearLacks(img: Image, sh: Shape, i: nat, ind: Inode, b: nat)
    requires Sized(img) && InodeOk(img, sh, i, ind) && DATA_START <= b < JOURNAL_START && !img.blockBits[b]
    ensures Lacks(img, ind, b)
  {
  }

  /** Writes to a block the inode lacks leave it consistent, whatever the block is registered as. */
  lemma LackingKept(img: Image, sh: Shape, i: nat, ind: Inode, b: nat, w: Write, owner: map<nat, Slot>)
    requires Sized(img) && InodeOk(img, sh, i, ind) && ind.mode == FileMode && Lacks(img, ind, b) && Fits(w)
    requires w.BlockBit? || w.PutBlock?
    requires w.block == b
    requires forall c | c in sh.owner && c != b :: c in owner && owner[c] == sh.owner[c]
    ensures InodeOk(Apply(img, w), sh.(owner := owner), i, ind)
  {
    InodeKept(img, sh, Apply(img, w), sh.(owner := owner), i, ind);
  }

  /** Filling an empty direct slot. */
  lemma GainDirect(img: Image, sh: Shape, i: nat, ind: Inode, n: nat, b: nat)
    requires Sized(img) && InodeOk(img, sh, i, ind) && ind.mode == FileMode && n < 8 && ind.direct[n] == 0
    requires Owned(img, sh, i, n, b) && b != ROOT_DIR_BLOCK && IsData(img.blocks[b])
    ensures InodeOk(img, sh, i, ind.(direct := ind.direct[n := b]))
  {
    var ind' := ind.(direct := ind.direct[n := b]);
    forall m | 0 <= m < SLOTS
      ensures At(img.blocks, ind', m) == if m == n then b else At(img.blocks, ind, m)
    {
    }
    if i in sh.solid {
      NoNewHoles(img.blocks, ind, img.blocks, ind');
    }
  }

  /** Gaining an empty pointer table. */
  lemma GainTable(img: Image, sh: Shape, i: nat, ind: Inode, b: nat)
    requires Sized(img) && InodeOk(img, sh, i, ind) && ind.mode == FileMode && ind.indirect == 0
    requires Owned(img, sh, i, TABLE, b) && b != ROOT_DIR_BLOCK && img.blocks[b] == Ptrs(ZeroPtrs())
    ensures InodeOk(img, sh, i, ind.(indirect := b))
  {
    var ind' := ind.(indirect := b);
    forall m | 0 <= m < SLOTS
      ensures At(img.blocks, ind', m) == if m == TABLE then b else At(img.blocks, ind, m)
    {
    }
    if i in sh.solid {
      NoNewHoles(img.blocks, ind, img.blocks, ind');
    }
  }

  /** The image after entry `l` of the pointer table at `t` is set to `b`. */
  function WithPointer(img: Image, t: nat, l: nat, b: nat): (r: Image)
    requires Sized(img) && t < BLOCK_COUNT && l < PTRS
    ensures Sized(r)
  {
    Apply(img, PutBlock(t, Ptrs(PtrsOf(img.blocks[t])[l := b])))
  }

  /** Filling an empty entry of the pointer table. */
  lemma GainEntry(img: Image, sh: Shape, i: nat, ind: Inode, l: nat, b: nat)
    requires Sized(img) && InodeOk(img, sh, i, ind) && ind.mode == FileMode && l < PTRS
    requires 0 < ind.indirect < BLOCK_COUNT && At(img.blocks, ind, 9 + l) == 0
    requires Owned(img, sh, i, 9 + l, b) && b != ROOT_DIR_BLOCK && IsData(img.blocks[b])
    ensures InodeOk(WithPointer(img, ind.indirect, l, b), sh, i, ind)
  {
    var img' := WithPointer(img, ind.indirect, l, b);
    assert At(img.blocks, ind, TABLE) == ind.indirect;
    forall m | 0 <= m < SLOTS
      ensures At(img'.blocks, ind, m) == if m == 9 + l then b else At(img.blocks, ind, m)
    {
    }
    forall m | 0 <= m < SLOTS && m != TABLE && 0 < At(img.blocks, ind, m) < BLOCK_COUNT
      ensures At(img.blocks, ind, m) != ind.indirect
    {
    }
    if i in sh.solid {
      NoNewHoles(img.blocks, ind, img'.blocks, ind);
    }
  }

  /** Overwriting one of the inode's data blocks with other data. */
  lemma OverwriteData(img: Image, sh: Shape, i: nat, ind: Inode, n: nat, c: Content)
    requires Sized(img) && InodeOk(img, sh, i, ind) && ind.mode == FileMode && n < SLOTS && n != TABLE
    requires 0 < At(img.blocks, ind, n) < BLOCK_COUNT && IsData(c)
    ensures InodeOk(Apply(img, PutBlock(At(img.blocks, ind, n), c)), sh, i, ind)
  {
    var b := At(img.blocks, ind, n);
    var img' := Apply(img, PutBlock(b, c));
    assert At(img.blocks, ind, TABLE) == ind.indirect;
    assert ind.indirect != b;
    forall m | 0 <= m < SLOTS
      ensures At(img'.blocks, ind, m) == At(img.blocks, ind, m)
    {
    }
    if i in sh.solid {
      NoNewHoles(img.blocks, ind, img'.blocks, ind);
    }
  }

  /** A file of another size; without holes it stays if its blocks are there. */
  lemma Resize(img: Image, sh: Shape, i: nat, ind: Inode, size: nat)
    requires Sized(img) && InodeOk(img, sh, i, ind) && ind.mode == FileMode && size <= MAX_FILE_BLOCKS * BLOCK_SIZE
    requires i in sh.solid ==> forall l | 0 <= l < BlocksFor(size) :: At(img.blocks, ind, DataSlot(l)) != 0
    ensures InodeOk(img, sh, i, ind.(size := size))
  {
    var ind' := ind.(size := size);
    assert forall m | 0 <= m < SLOTS :: At(img.blocks, ind', m) == At(img.blocks, ind, m);
    if i in sh.solid {
      forall l | 0 <= l < BlocksFor(size)
        ensures At(img.blocks, ind', DataSlot(l)) != 0
      {
        assert At(img.blocks, ind', DataSlot(l)) == At(img.blocks, ind, DataSlot(l));
      }
    }
  }

  /** Forgetting that a file has no holes. */
  function Loosened(sh: Shape, i: nat): Shape { sh.(solid := sh.solid - {i}) }

  lemma LoosenedSafe(img: Image, sh: Shape, i: nat)
    requires Safe(img, sh)
    ensures Safe(img, Loosened(sh, i)) && (Exact(img, sh) ==> Exact(img, Loosened(sh, i)))
  {
    var sh' := Loosened(sh, i);
    forall j | j in sh'.live
      ensures InodeOk(img, sh', j, img.inodes[j])
    {
      assert InodeOk(img, sh, j, img.inodes[j]);
      InodeKept(img, sh, img, sh', j, img.inodes[j]);
    }
    forall c | c in sh'.live && c != 0
      ensures Hangs(img, sh', c)
    {
      assert Hangs(img, sh, c);
    }
    if Exact(img, sh) {
      forall b | b in sh'.owner
        ensures True(img, sh', NONE, ZERO_INODE, b)
      {
        assert True(img, sh, NONE, ZERO_INODE, b);
      }
    }
  }

  // ---------------------------------------------------------------- writes to a live file

  /** A block write inside file `i` that leaves the file consistent keeps the image safe. */
  lemma FileWriteKeeps(img: Image, sh: Shape, i: nat, b: nat, n: nat, c: Content)
    requires Safe(img, sh) && i in sh.live && img.inodes[i].mode == FileMode && b < BLOCK_COUNT
    requires b in sh.owner && sh.owner[b] == Slot(i, n) && 0 < b
    requires InodeOk(Apply(img, PutBlock(b, c)), sh, i, img.inodes[i])
    ensures Safe(Apply(img, PutBlock(b, c)), sh)
  {
    var img' := Apply(img, PutBlock(b, c));
    assert SafeBut(img, sh, i);
    UnregisteredUnheld(img, sh, i, b);
    HarmlessKeeps(img, sh, i, PutBlock(b, c));
  }

  /** Storing a consistent inode over a live file keeps the image safe. */
  lemma StoreInode(img: Image, sh: Shape, x: nat, i: nat, ind: Inode)
    requires SafeBut(img, sh, x) && (x == NONE || x == i) && i in sh.live && img.inodes[i].mode == FileMode
    requires InodeOk(img, sh, i, ind) && ind.mode == FileMode
    ensures Safe(Apply(img, PutInode(i, ind)), sh)
  {
    var img' := Apply(img, PutInode(i, ind));
    forall j | j in sh.live
      ensures InodeOk(img', sh, j, img'.inodes[j])
    {
      var jnd := if j == i then ind else img.inodes[j];
      assert InodeOk(img, sh, j, jnd);
      InodeKept(img, sh, img', sh, j, jnd);
    }
    forall c | c in sh.live && c != 0
      ensures Hangs(img', sh, c)
    {
      assert Hangs(img, sh, c);
    }
  }

  // ---------------------------------------------------------------- directory entries

  /** The image after entry `k` of directory `d` is replaced. */
  function WithEntry(img: Image, d: nat, k: nat, e: Dirent): (r: Image)
    requires Sized(img) && IsDir(img, d) && k < DIR_ENTRIES
    ensures Sized(r)
  {
    Apply(img, PutBlock(img.inodes[d].direct[0], Dir(Listing(img, d)[k := e])))
  }

  function Linked(sh: Shape, d: nat, k: nat, i: nat): Shape
    requires d in sh.depth
  {
    sh.(live := sh.live + {i}, parent := sh.parent[i := d], entry := sh.entry[i := k],
        depth := sh.depth[i := sh.depth[d] + 1], solid := sh.solid + {i})
  }

  /** A live directory's listing is its typed block. */
  lemma LiveListing(img: Image, sh: Shape, d: nat)
    requires Safe(img, sh) && d in sh.live && img.inodes[d].mode == DirMode
    ensures IsDir(img, d) && DirOk(img, sh, d, img.inodes[d]) && d in sh.depth
    ensures Listing(img, d) == img.blocks[img.inodes[d].direct[0]].entries
    ensures var b := img.inodes[d].direct[0]; b in sh.owner && sh.owner[b] == Slot(d, 0)
  {
    assert InodeOk(img, sh, d, img.inodes[d]);
    assert At(img.blocks, img.inodes[d], 0) == img.inodes[d].direct[0];
    assert d != 0 ==> Hangs(img, sh, d);
  }

  /** Inodes other than `d` keep their blocks when an entry of `d` is replaced. */
  lemma EntryKeeps(img: Image, sh: Shape, d: nat, k: nat, e: Dirent, sh': Shape, j: nat)
    requires Safe(img, sh) && d in sh.live && img.inodes[d].mode == DirMode && IsDir(img, d) && k < DIR_ENTRIES
    requires j != d && j < MAX_INODES && BlocksOwned(img, sh, j, img.inodes[j]) && sh'.owner == sh.owner
    ensures Keeps(img, sh, WithEntry(img, d, k, e), sh', img.inodes[j])
  {
    LiveListing(img, sh, d);
  }

  /** A name that dir_find does not find can be added without making a duplicate. */
  lemma ChildAdded(sh: Shape, d: nat, entries: seq<Dirent>, k: nat, name: string, i: nat)
    requires |entries| == DIR_ENTRIES && ChildrenOk(sh, d, entries) && 2 <= k < DIR_ENTRIES && entries[k].ino == INVALID
    requires d in sh.depth && i !in sh.live && 0 < i < MAX_INODES && GoodName(name)
    requires FindName(entries, name, 0) == DIR_ENTRIES
    ensures ChildrenOk(Linked(sh, d, k, i), d, entries[k := Dirent(name, i)])
  {
    var entries' := entries[k := Dirent(name, i)];
    forall j | 2 <= j < DIR_ENTRIES && j != k && entries'[j].ino != INVALID
      ensures entries'[j].name != name
    {
      assert !Names(entries[j], name);
    }
  }

  lemma ChildrenLinked(sh: Shape, d: nat, k: nat, i: nat, j: nat, entries: seq<Dirent>)
    requires |entries| == DIR_ENTRIES && ChildrenOk(sh, j, entries) && d in sh.depth && i !in sh.live
    ensures ChildrenOk(Linked(sh, d, k, i), j, entries)
  {
  }

  /** Adding a directory entry for a prepared inode keeps the image safe. */
  lemma LinkKeeps(img: Image, sh: Shape, d: nat, k: nat, name: string, i: nat)
    requires Safe(img, sh) && d in sh.live && img.inodes[d].mode == DirMode && IsDir(img, d) && d in sh.depth
    requires 2 <= k < DIR_ENTRIES && Listing(img, d)[k].ino == INVALID && GoodName(name)
    requires Lookup(img, d, name) == Missing
    requires i !in sh.live && 0 < i < MAX_INODES && img.inodeBits[i]
    requires InodeOk(img, Linked(sh, d, k, i), i, img.inodes[i])
    ensures Safe(WithEntry(img, d, k, Dirent(name, i)), Linked(sh, d, k, i))
  {
    var sh', e := Linked(sh, d, k, i), Dirent(name, i);
    var img' := WithEntry(img, d, k, e);
    LiveListing(img, sh, d);
    forall j | j in sh'.live && j != d
      ensures InodeOk(img', sh', j, img'.inodes[j])
    {
      var jnd := img.inodes[j];
      assert j in sh.live ==> InodeOk(img, sh, j, jnd);
      EntryKeeps(img, sh, d, k, e, sh', j);
      if j == i {
        InodeKept(img, sh', img', sh', j, jnd);
      } else {
        if jnd.mode == DirMode {
          ChildrenLinked(sh, d, k, i, j, img.blocks[jnd.direct[0]].entries);
        }
        InodeKept(img, sh, img', sh', j, jnd);
      }
    }
    LinkedParentOk(img, sh, d, k, name, i);
    forall c | c in sh'.live && c != 0
      ensures Hangs(img', sh', c)
    {
      if c != i {
        assert Hangs(img, sh, c);
        LinkedHangs(img, sh, d, k, name, i, c);
      }
    }
  }

  lemma LinkedParentOk(img: Image, sh: Shape, d: nat, k: nat, name: string, i: nat)
    requires Safe(img, sh) && d in sh.live && img.inodes[d].mode == DirMode && IsDir(img, d) && d in sh.depth
    requires 2 <= k < DIR_ENTRIES && Listing(img, d)[k].ino == INVALID && GoodName(name)
    requires Lookup(img, d, name) == Missing
    requires i !in sh.live && 0 < i < MAX_INODES
    ensures InodeOk(WithEntry(img, d, k, Dirent(name, i)), Linked(sh, d, k, i), d, img.inodes[d])
  {
    var sh', ind := Linked(sh, d, k, i), img.inodes[d];
    var img' := WithEntry(img, d, k, Dirent(name, i));
    LiveListing(img, sh, d);
    assert InodeOk(img, sh, d, ind);
    ChildAdded(sh, d, Listing(img, d), k, name, i);
    assert forall n | 0 <= n < SLOTS :: At(img'.blocks, ind, n) == At(img.blocks, ind, n);
  }

  lemma LinkedHangs(img: Image, sh: Shape, d: nat, k: nat, name: string, i: nat, c: nat)
    requires Safe(img, sh) && d in sh.live && img.inodes[d].mode == DirMode && IsDir(img, d) && d in sh.depth
    requires 2 <= k < DIR_ENTRIES && Listing(img, d)[k].ino == INVALID && i !in sh.live && i < MAX_INODES
    requires c in sh.live && c != 0 && Hangs(img, sh, c)
    ensures Hangs(WithEntry(img, d, k, Dirent(name, i)), Linked(sh, d, k, i), c)
  {
    var e, p := Dirent(name, i), sh.parent[c];
    LiveListing(img, sh, d);
    if p != d {
      assert InodeOk(img, sh, p, img.inodes[p]);
      EntryKeeps(img, sh, d, k, e, sh, p);
      ListingKept(img, sh, WithEntry(img, d, k, e), sh, p);
    }
  }

  /** No entry beyond "." and "..". */
  predicate EmptyDir(entries: seq<Dirent>)
  {
    forall k | 2 <= k < |entries| :: entries[k].ino == INVALID
  }

  function Unlinked(sh: Shape, c: nat): Shape { sh.(live := sh.live - {c}) }

  lemma ChildrenUnlinked(sh: Shape, c: nat, j: nat, entries: seq<Dirent>)
    requires |entries| == DIR_ENTRIES && ChildrenOk(sh, j, entries)
    requires forall k | 2 <= k < DIR_ENTRIES && entries[k].ino != INVALID :: entries[k].ino != c
    ensures ChildrenOk(Unlinked(sh, c), j, entries)
  {
  }

  /** Clearing the entry of a file or an empty directory keeps the image safe. */
  lemma UnlinkKeeps(img: Image, sh: Shape, d: nat, k: nat, c: nat)
    requires Safe(img, sh) && d in sh.live && img.inodes[d].mode == DirMode && IsDir(img, d)
    requires 2 <= k < DIR_ENTRIES && Listing(img, d)[k].ino == c && c != INVALID && c < MAX_INODES
    requires img.inodes[c].mode == DirMode && IsDir(img, c) ==> EmptyDir(Listing(img, c))
    ensures Safe(WithEntry(img, d, k, NO_ENTRY), Unlinked(sh, c))
  {
    var sh', img' := Unlinked(sh, c), WithEntry(img, d, k, NO_ENTRY);
    LiveListing(img, sh, d);
    assert c in sh.live && c != 0 && sh.parent[c] == d && sh.entry[c] == k;
    UnlinkedParentOk(img, sh, d, k, c);
    forall j | j in sh'.live && j != d
      ensures InodeOk(img', sh', j, img'.inodes[j])
    {
      var jnd := img.inodes[j];
      assert InodeOk(img, sh, j, jnd);
      EntryKeeps(img, sh, d, k, NO_ENTRY, sh', j);
      if jnd.mode == DirMode {
        ChildrenUnlinked(sh, c, j, img.blocks[jnd.direct[0]].entries);
      }
      InodeKept(img, sh, img', sh', j, jnd);
    }
    forall e | e in sh'.live && e != 0
      ensures Hangs(img', sh', e)
    {
      UnlinkedHangs(img, sh, d, k, c, e);
    }
    assert d != c;
  }

  lemma UnlinkedParentOk(img: Image, sh: Shape, d: nat, k: nat, c: nat)
    requires Safe(img, sh) && d in sh.live && img.inodes[d].mode == DirMode && IsDir(img, d)
    requires 2 <= k < DIR_ENTRIES && Listing(img, d)[k].ino == c && c != INVALID
    ensures InodeOk(WithEntry(img, d, k, NO_ENTRY), Unlinked(sh, c), d, img.inodes[d]) && c != d
  {
    var ind := img.inodes[d];
    var img' := WithEntry(img, d, k, NO_ENTRY);
    LiveListing(img, sh, d);
    assert InodeOk(img, sh, d, ind);
    assert forall n | 0 <= n < SLOTS :: At(img'.blocks, ind, n) == At(img.blocks, ind, n);
    assert c in sh.live && c != 0 && Hangs(img, sh, c);
    assert sh.depth[c] == sh.depth[d] + 1;
    var entries' := Listing(img, d)[k := NO_ENTRY];
    ChildrenUnlinked(sh, c, d, entries');
  }

  lemma UnlinkedHangs(img: Image, sh: Shape, d: nat, k: nat, c: nat, e: nat)
    requires Safe(img, sh) && d in sh.live && img.inodes[d].mode == DirMode && IsDir(img, d)
    requires 2 <= k < DIR_ENTRIES && Listing(img, d)[k].ino == c && c != INVALID && c < MAX_INODES
    requires img.inodes[c].mode == DirMode && IsDir(img, c) ==> EmptyDir(Listing(img, c))
    requires e in sh.live && e != c && e != 0
    ensures Hangs(WithEntry(img, d, k, NO_ENTRY), Unlinked(sh, c), e)
  {
    var p := sh.parent[e];
    assert Hangs(img, sh, e);
    LiveListing(img, sh, d);
    if p != d {
      assert InodeOk(img, sh, p, img.inodes[p]);
      EntryKeeps(img, sh, d, k, NO_ENTRY, sh, p);
      ListingKept(img, sh, WithEntry(img, d, k, NO_ENTRY), sh, p);
    }
  }
}
