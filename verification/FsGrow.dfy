/** Allocating blocks for a file that is being extended in memory. */
module FsGrow {
  import opened FsDisk
  import opened FsShape
  import opened FsSteps
  import opened FsFiles

  /** Every allocatable block is marked used. */
  predicate AllUsed(img: Image)
    requires Sized(img)
  {
    forall b | DATA_START <= b < JOURNAL_START :: img.blockBits[b]
  }

  /** No allocatable block has been marked or given back in between. */
  predicate NoneTaken(img: Image, img': Image)
    requires Sized(img) && Sized(img')
  {
    forall b | DATA_START <= b < JOURNAL_START :: img'.blockBits[b] == img.blockBits[b]
  }

  function Marked(img: Image, b: nat): (r: Image)
    requires Sized(img) && b < BLOCK_COUNT
    ensures Sized(r)
  {
    Apply(img, BlockBit(b, true))
  }

  /** The image after alloc_block handed out `b`: marked, then zeroed. */
  function Allocated(img: Image, b: nat): (r: Image)
    requires Sized(img) && b < BLOCK_COUNT
    ensures Sized(r)
  {
    Apply(Marked(img, b), PutBlock(b, ZeroBlock()))
  }

  function Registered(sh: Shape, b: nat, s: Slot): Shape { sh.(owner := sh.owner[b := s]) }

  predicate Free(img: Image, b: nat)
    requires Sized(img)
  {
    DATA_START <= b < JOURNAL_START && !img.blockBits[b]
  }

  /** Both block writes of alloc_block keep the image safe and every live inode untouched. */
  lemma AllocKeeps(img: Image, sh: Shape, b: nat, s: Slot)
    requires Safe(img, sh) && Free(img, b)
    ensures Safe(Marked(img, b), Registered(sh, b, s)) && Safe(Allocated(img, b), Registered(sh, b, s))
    ensures forall j | j in sh.live :: Untouched(img, Allocated(img, b), j)
  {
    var sh', m := Registered(sh, b, s), Marked(img, b);
    ClearUnheld(img, sh, NONE, b);
    Reregister(img, sh, NONE, b, sh'.owner);
    HarmlessKeeps(img, sh', NONE, BlockBit(b, true));
    assert forall i: nat, n: nat | i < MAX_INODES && n < SLOTS :: BlockAt(m, i, n) == BlockAt(img, i, n);
    assert Unheld(m, sh', NONE, b);
    HarmlessKeeps(m, sh', NONE, PutBlock(b, ZeroBlock()));
    forall j | j in sh.live
      ensures Untouched(img, Allocated(img, b), j)
    {
      HarmlessUntouched(img, sh', NONE, BlockBit(b, true), j);
      HarmlessUntouched(m, sh', NONE, PutBlock(b, ZeroBlock()), j);
      UntouchedTrans(img, m, Allocated(img, b), j);
    }
  }

  /** An inode in memory stays consistent, and keeps its blocks, while a fresh block is allocated. */
  lemma AllocKeepsInode(img: Image, sh: Shape, b: nat, s: Slot, i: nat, ind: Inode)
    requires Sized(img) && InodeOk(img, sh, i, ind) && ind.mode == FileMode && Free(img, b)
    ensures InodeOk(Allocated(img, b), Registered(sh, b, s), i, ind)
    ensures forall n | 0 <= n < SLOTS :: At(Allocated(img, b).blocks, ind, n) == At(img.blocks, ind, n) != b
  {
    var owner := sh.owner[b := s];
    ClearLacks(img, sh, i, ind, b);
    LackingKept(img, sh, i, ind, b, BlockBit(b, true), owner);
    assert Lacks(Marked(img, b), ind, b);
    LackingKept(Marked(img, b), Registered(sh, b, s), i, ind, b, PutBlock(b, ZeroBlock()), owner);
    assert At(img.blocks, ind, TABLE) == ind.indirect;
  }

  // ---------------------------------------------------------------- growth

  /**
    From (img, sh, ind) to (img', sh', ind'): file `i`, which need not be live, has at most gained
    blocks, in memory; what it had is where it was, and no other inode is touched.
   */
  ghost predicate Grown(img: Image, sh: Shape, ind: Inode, img': Image, sh': Shape, ind': Inode, i: nat) {
    && Safe(img, sh) && Safe(img', sh') && SameTree(sh, sh')
    && img'.inodes == img.inodes && img'.inodeBits == img.inodeBits
    && ind'.size == ind.size && ind'.mode == ind.mode == FileMode
    && InodeOk(img, sh, i, ind) && InodeOk(img', sh', i, ind')
    && (forall n | 0 <= n < SLOTS && n != TABLE && 0 < At(img.blocks, ind, n) < BLOCK_COUNT ::
          && At(img'.blocks, ind', n) == At(img.blocks, ind, n)
          && img'.blocks[At(img.blocks, ind, n)] == img.blocks[At(img.blocks, ind, n)])
    && (forall n | 0 <= n < SLOTS && n != TABLE && At(img.blocks, ind, n) == 0
        && 0 < At(img'.blocks, ind', n) < BLOCK_COUNT ::
          img'.blocks[At(img'.blocks, ind', n)] == ZeroBlock())
    && (forall j | j in sh.live && j != i :: Untouched(img, img', j))
    && (forall b | 0 <= b < BLOCK_COUNT && img.blockBits[b] :: img'.blockBits[b])
    && (i in sh.live && Tight(img, sh, i, ind) ==> Tight(img', sh', i, ind'))
    && (NoneTaken(img, img') ==> img' == img && sh' == sh && ind' == ind)
  }

  lemma GrownSelf(img: Image, sh: Shape, ind: Inode, i: nat)
    requires Safe(img, sh) && InodeOk(img, sh, i, ind) && ind.mode == FileMode
    ensures Grown(img, sh, ind, img, sh, ind, i)
  {
  }

  lemma GrownTrans(img: Image, sh: Shape, ind: Inode, img': Image, sh': Shape, ind': Inode,
                   img'': Image, sh'': Shape, ind'': Inode, i: nat)
    requires Grown(img, sh, ind, img', sh', ind', i) && Grown(img', sh', ind', img'', sh'', ind'', i)
    ensures Grown(img, sh, ind, img'', sh'', ind'', i)
  {
    forall j | j in sh.live && j != i
      ensures Untouched(img, img'', j)
    {
      UntouchedTrans(img, img', img'', j);
    }
    if NoneTaken(img, img'') {
      assert NoneTaken(img, img');
    }
  }

  /** Growing does not change the bytes, up to whatever size they are read. */
  lemma GrownBytes(img: Image, sh: Shape, ind: Inode, img': Image, sh': Shape, ind': Inode, i: nat, size: nat)
    requires Grown(img, sh, ind, img', sh', ind', i) && size <= MAX_FILE_BLOCKS * BLOCK_SIZE
    ensures Bytes(img'.blocks, ind'.(size := size)) == Bytes(img.blocks, ind.(size := size))
  {
    forall k | 0 <= k < size
      ensures ByteAt(img'.blocks, ind'.(size := size), k) == ByteAt(img.blocks, ind.(size := size), k)
    {
      assert 0 <= k / BLOCK_SIZE < BlocksFor(size) <= MAX_FILE_BLOCKS;
      var n := DataSlot(k / BLOCK_SIZE);
      assert At(img.blocks, ind, n) != 0 ==> Owned(img, sh, i, n, At(img.blocks, ind, n));
      assert At(img'.blocks, ind', n) != 0 ==> Owned(img', sh', i, n, At(img'.blocks, ind', n));
    }
  }

  /** Tightness after one freshly registered block has found its place. */
  lemma TightGain(img: Image, sh: Shape, ind: Inode, img': Image, ind': Inode, i: nat, b: nat, n: nat)
    requires Safe(img, sh) && Tight(img, sh, i, ind) && Sized(img') && i in sh.live && Free(img, b) && n < SLOTS
    requires img'.inodes == img.inodes && img'.inodeBits == img.inodeBits && img'.blockBits == img.blockBits[b := true]
    requires forall j | j in sh.live && j != i :: Untouched(img, img', j)
    requires forall m | 0 <= m < SLOTS && At(img.blocks, ind, m) != 0 ::
               At(img'.blocks, ind', m) == At(img.blocks, ind, m)
    requires At(img'.blocks, ind', n) == b
    ensures Tight(img', Registered(sh, b, Slot(i, n)), i, ind')
  {
    var sh' := Registered(sh, b, Slot(i, n));
    forall c | c in sh'.owner
      ensures True(img', sh', i, ind', c)
    {
      if c != b {
        assert True(img, sh, i, ind, c);
        if sh.owner[c].ino != i {
          UntouchedAt(img, img', sh.owner[c].ino, sh.owner[c].n);
        }
      }
    }
  }

  /** A fresh block for an empty direct slot. */
  lemma GrowDirect(img: Image, sh: Shape, i: nat, ind: Inode, n: nat, b: nat)
    requires Safe(img, sh) && InodeOk(img, sh, i, ind) && ind.mode == FileMode
    requires n < 8 && ind.direct[n] == 0 && Free(img, b)
    ensures Grown(img, sh, ind, Allocated(img, b), Registered(sh, b, Slot(i, n)), ind.(direct := ind.direct[n := b]), i)
  {
    var img', sh', ind' := Allocated(img, b), Registered(sh, b, Slot(i, n)), ind.(direct := ind.direct[n := b]);
    AllocKeeps(img, sh, b, Slot(i, n));
    AllocKeepsInode(img, sh, b, Slot(i, n), i, ind);
    GainDirect(img', sh', i, ind, n, b);
    assert forall m | 0 <= m < SLOTS && m != n :: At(img'.blocks, ind', m) == At(img'.blocks, ind, m);
    assert forall m | 0 <= m < SLOTS && At(img.blocks, ind, m) != 0 ::
        m != n && At(img'.blocks, ind', m) == At(img.blocks, ind, m);
    if i in sh.live && Tight(img, sh, i, ind) {
      TightGain(img, sh, ind, img', ind', i, b, n);
    }
    assert img'.blockBits[b] != img.blockBits[b];
  }

  /** The image after a fresh block became an empty pointer table. */
  function TableMade(img: Image, b: nat): (r: Image)
    requires Sized(img) && b < BLOCK_COUNT
    ensures Sized(r) && r.inodes == img.inodes && r.inodeBits == img.inodeBits
    ensures r.blockBits == img.blockBits[b := true]
  {
    Apply(Allocated(img, b), PutBlock(b, Ptrs(ZeroPtrs())))
  }

  /** A fresh block as the file's pointer table: the image stays safe, nothing live is touched. */
  lemma TableSafe(img: Image, sh: Shape, i: nat, b: nat)
    requires Safe(img, sh) && Free(img, b)
    ensures Safe(TableMade(img, b), Registered(sh, b, Slot(i, TABLE)))
    ensures forall j | j in sh.live :: Untouched(img, TableMade(img, b), j)
  {
    var mid, sh' := Allocated(img, b), Registered(sh, b, Slot(i, TABLE));
    var w := PutBlock(b, Ptrs(ZeroPtrs()));
    AllocKeeps(img, sh, b, Slot(i, TABLE));
    ClearUnheld(img, sh, NONE, b);
    forall j: nat, n: nat | j in sh'.live && j < MAX_INODES && n < SLOTS
      ensures BlockAt(mid, j, n) != b
    {
      UntouchedAt(img, mid, j, n);
    }
    HarmlessKeeps(mid, sh', NONE, w);
    forall j | j in sh.live
      ensures Untouched(img, TableMade(img, b), j)
    {
      HarmlessUntouched(mid, sh', NONE, w, j);
      UntouchedTrans(img, mid, TableMade(img, b), j);
    }
  }

  lemma TableInode(img: Image, sh: Shape, i: nat, ind: Inode, b: nat)
    requires Sized(img) && InodeOk(img, sh, i, ind) && ind.mode == FileMode && ind.indirect == 0 && Free(img, b)
    ensures InodeOk(TableMade(img, b), Registered(sh, b, Slot(i, TABLE)), i, ind.(indirect := b))
    ensures forall m | 0 <= m < SLOTS ::
              At(TableMade(img, b).blocks, ind.(indirect := b), m) == if m == TABLE then b else At(img.blocks, ind, m)
    ensures forall m | 0 <= m < SLOTS :: At(img.blocks, ind, m) != b
  {
    var mid, sh' := Allocated(img, b), Registered(sh, b, Slot(i, TABLE));
    AllocKeepsInode(img, sh, b, Slot(i, TABLE), i, ind);
    assert Lacks(mid, ind, b);
    LackingKept(mid, sh', i, ind, b, PutBlock(b, Ptrs(ZeroPtrs())), sh'.owner);
    GainTable(TableMade(img, b), sh', i, ind, b);
  }

  /** A fresh block as the file's pointer table. */
  lemma GrowTable(img: Image, sh: Shape, i: nat, ind: Inode, b: nat)
    requires Safe(img, sh) && InodeOk(img, sh, i, ind) && ind.mode == FileMode
    requires ind.indirect == 0 && Free(img, b)
    ensures Grown(img, sh, ind, TableMade(img, b), Registered(sh, b, Slot(i, TABLE)), ind.(indirect := b), i)
  {
    TableSafe(img, sh, i, b);
    TableInode(img, sh, i, ind, b);
    if i in sh.live && Tight(img, sh, i, ind) {
      TightGain(img, sh, ind, TableMade(img, b), ind.(indirect := b), i, b, TABLE);
    }
    assert TableMade(img, b).blockBits[b] != img.blockBits[b];
  }

  /** The image after a fresh block was entered into the pointer table. */
  function EntryMade(img: Image, t: nat, l: nat, b: nat): (r: Image)
    requires Sized(img) && b < BLOCK_COUNT && t < BLOCK_COUNT && l < PTRS
    ensures Sized(r) && r.inodes == img.inodes && r.inodeBits == img.inodeBits
    ensures r.blockBits == img.blockBits[b := true]
  {
    WithPointer(Allocated(img, b), t, l, b)
  }

  /** The pointer table of `i`, seen from the inode on disk. */
  lemma TableOnDisk(img: Image, sh: Shape, i: nat, ind: Inode)
    requires Safe(img, sh) && i in sh.live && InodeOk(img, sh, i, ind) && ind.indirect != 0
    ensures var d := img.inodes[i];
            if d.indirect == ind.indirect then forall n | 9 <= n < SLOTS ::
                At(img.blocks, d, n) == At(img.blocks, ind, n)
            else Lacks(img, d, ind.indirect)
  {
    var d := img.inodes[i];
    assert InodeOk(img, sh, i, d);
    assert At(img.blocks, ind, TABLE) == ind.indirect;
    if d.indirect != ind.indirect {
      forall n | 0 <= n < SLOTS
        ensures At(img.blocks, d, n) != ind.indirect
      {
        assert n != TABLE && At(img.blocks, d, n) != 0 ==> Owned(img, sh, i, n, At(img.blocks, d, n));
        assert At(img.blocks, d, TABLE) == d.indirect;
      }
    }
  }

  /** A fresh block for an empty entry of the pointer table: the image stays safe. */
  lemma EntrySafe(img: Image, sh: Shape, i: nat, ind: Inode, l: nat, b: nat)
    requires Safe(img, sh) && InodeOk(img, sh, i, ind) && ind.mode == FileMode
    requires i in sh.live ==> img.inodes[i].mode == FileMode
    requires ind.indirect != 0 && l < PTRS && At(img.blocks, ind, 9 + l) == 0 && Free(img, b)
    ensures ind.indirect < BLOCK_COUNT
    ensures var sh', img' := Registered(sh, b, Slot(i, 9 + l)), EntryMade(img, ind.indirect, l, b);
            Safe(img', sh') && InodeOk(img', sh', i, ind)
  {
    var s := Slot(i, 9 + l);
    var mid, sh', t := Allocated(img, b), Registered(sh, b, s), ind.indirect;
    assert At(img.blocks, ind, TABLE) == t;
    AllocKeeps(img, sh, b, s);
    AllocKeepsInode(img, sh, b, s, i, ind);
    GainEntry(mid, sh', i, ind, l, b);
    var w := PutBlock(t, Ptrs(PtrsOf(mid.blocks[t])[l := b]));
    if i in sh.live {
      EntryOnDisk(mid, sh', i, ind, l, b);
      FileWriteKeeps(mid, sh', i, t, TABLE, w.content);
    } else {
      UnregisteredUnheld(mid, sh', NONE, t);
      HarmlessKeeps(mid, sh', NONE, w);
    }
  }

  /** The inode on disk tolerates the new entry of the pointer table. */
  lemma EntryOnDisk(img: Image, sh: Shape, i: nat, ind: Inode, l: nat, b: nat)
    requires Safe(img, sh) && i in sh.live && img.inodes[i].mode == FileMode && InodeOk(img, sh, i, ind)
    requires 0 < ind.indirect < BLOCK_COUNT && l < PTRS && At(img.blocks, ind, 9 + l) == 0
    requires Owned(img, sh, i, 9 + l, b) && b != ROOT_DIR_BLOCK && IsData(img.blocks[b])
    ensures InodeOk(WithPointer(img, ind.indirect, l, b), sh, i, img.inodes[i])
  {
    var d, t := img.inodes[i], ind.indirect;
    assert InodeOk(img, sh, i, d);
    TableOnDisk(img, sh, i, ind);
    if d.indirect == t {
      GainEntry(img, sh, i, d, l, b);
    } else {
      LackingKept(img, sh, i, d, t, PutBlock(t, Ptrs(PtrsOf(img.blocks[t])[l := b])), sh.owner);
    }
  }

  lemma EntryUntouched(img: Image, sh: Shape, i: nat, ind: Inode, l: nat, b: nat, j: nat)
    requires Safe(img, sh) && InodeOk(img, sh, i, ind)
    requires 0 < ind.indirect < BLOCK_COUNT && l < PTRS && Free(img, b) && j in sh.live && j != i
    ensures Untouched(img, EntryMade(img, ind.indirect, l, b), j)
  {
    var s := Slot(i, 9 + l);
    var mid, sh', t := Allocated(img, b), Registered(sh, b, s), ind.indirect;
    AllocKeeps(img, sh, b, s);
    assert At(img.blocks, ind, TABLE) == t && Owned(img, sh, i, TABLE, t);
    assert SafeBut(mid, sh', i);
    assert sh'.owner[t].ino == i;
    UnregisteredUnheld(mid, sh', i, t);
    HarmlessUntouched(mid, sh', i, PutBlock(t, Ptrs(PtrsOf(mid.blocks[t])[l := b])), j);
    UntouchedTrans(img, mid, EntryMade(img, t, l, b), j);
  }

  /** Allocating a block leaves the pointer table of a file alone. */
  lemma TableKept(img: Image, sh: Shape, i: nat, ind: Inode, b: nat)
    requires Sized(img) && InodeOk(img, sh, i, ind) && ind.mode == FileMode && ind.indirect != 0 && Free(img, b)
    ensures ind.indirect < BLOCK_COUNT && Allocated(img, b).blocks[ind.indirect] == img.blocks[ind.indirect]
    ensures img.blocks[ind.indirect] == Ptrs(PtrsOf(img.blocks[ind.indirect]))
  {
    assert At(img.blocks, ind, TABLE) == ind.indirect;
  }

  /** Where the slots of `ind` point after the new entry, and that their data is where it was. */
  lemma EntrySlots(img: Image, sh: Shape, i: nat, ind: Inode, l: nat, b: nat)
    requires Sized(img) && InodeOk(img, sh, i, ind) && ind.mode == FileMode
    requires 0 < ind.indirect < BLOCK_COUNT && l < PTRS && At(img.blocks, ind, 9 + l) == 0 && Free(img, b)
    ensures forall m | 0 <= m < SLOTS ::
              At(EntryMade(img, ind.indirect, l, b).blocks, ind, m) == if m == 9 + l then b else At(img.blocks, ind, m)
    ensures forall m | 0 <= m < SLOTS && m != TABLE && 0 < At(img.blocks, ind, m) < BLOCK_COUNT ::
              EntryMade(img, ind.indirect, l, b).blocks[At(img.blocks, ind, m)] == img.blocks[At(img.blocks, ind, m)]
  {
    assert At(img.blocks, ind, TABLE) == ind.indirect;
    ClearLacks(img, sh, i, ind, b);
    forall m | 0 <= m < SLOTS && m != TABLE && 0 < At(img.blocks, ind, m) < BLOCK_COUNT
      ensures At(img.blocks, ind, m) != ind.indirect
    {
      SlotsDiffer(img, sh, i, ind, m, TABLE);
    }
  }

  lemma EntryOthers(img: Image, sh: Shape, i: nat, ind: Inode, l: nat, b: nat)
    requires Safe(img, sh) && InodeOk(img, sh, i, ind)
    requires 0 < ind.indirect < BLOCK_COUNT && l < PTRS && Free(img, b)
    ensures forall j | j in sh.live && j != i :: Untouched(img, EntryMade(img, ind.indirect, l, b), j)
  {
    forall j | j in sh.live && j != i
      ensures Untouched(img, EntryMade(img, ind.indirect, l, b), j)
    {
      EntryUntouched(img, sh, i, ind, l, b, j);
    }
  }

  lemma EntryTight(img: Image, sh: Shape, i: nat, ind: Inode, l: nat, b: nat)
    requires Safe(img, sh) && i in sh.live && InodeOk(img, sh, i, ind) && ind.mode == FileMode
    requires 0 < ind.indirect < BLOCK_COUNT && l < PTRS && At(img.blocks, ind, 9 + l) == 0 && Free(img, b)
    requires Tight(img, sh, i, ind)
    ensures Tight(EntryMade(img, ind.indirect, l, b), Registered(sh, b, Slot(i, 9 + l)), i, ind)
  {
    var img' := EntryMade(img, ind.indirect, l, b);
    EntrySlots(img, sh, i, ind, l, b);
    EntryOthers(img, sh, i, ind, l, b);
    TightGain(img, sh, ind, img', ind, i, b, 9 + l);
  }

  /** A fresh block for an empty entry of the pointer table. */
  lemma GrowEntry(img: Image, sh: Shape, i: nat, ind: Inode, l: nat, b: nat)
    requires Safe(img, sh) && InodeOk(img, sh, i, ind) && ind.mode == FileMode
    requires i in sh.live ==> img.inodes[i].mode == FileMode
    requires ind.indirect != 0 && l < PTRS && At(img.blocks, ind, 9 + l) == 0 && Free(img, b)
    ensures ind.indirect < BLOCK_COUNT
    ensures Grown(img, sh, ind, EntryMade(img, ind.indirect, l, b), Registered(sh, b, Slot(i, 9 + l)), ind, i)
  {
    EntrySafe(img, sh, i, ind, l, b);
    EntryOthers(img, sh, i, ind, l, b);
    if i in sh.live && Tight(img, sh, i, ind) {
      EntryTight(img, sh, i, ind, l, b);
    }
    EntrySlots(img, sh, i, ind, l, b);
    assert EntryMade(img, ind.indirect, l, b).blockBits[b] != img.blockBits[b];
  }
}
