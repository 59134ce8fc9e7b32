/** Writing to a file whose inode is kept in memory until the end. */
module FsWrite {
  import opened FsDisk
  import opened FsShape
  import opened FsSteps
  import opened FsFiles
  import opened FsGrow
  import opened FsStray

  // ---------------------------------------------------------------- an inode in memory

  /**
    File `i` is being written since (img0, sh0): its inode stands in memory as `ind`, the one on
    disk is the old one.  If `i` is not live, nothing has happened unless a block was allocated.
   */
  ghost predicate Writing(img0: Image, sh0: Shape, img: Image, sh: Shape, i: nat, ind: Inode) {
    && Safe(img0, sh0) && Safe(img, sh) && SameTree(sh0, sh)
    && 0 < i < MAX_INODES && (i in sh0.live ==> img0.inodes[i].mode == FileMode)
    && img.inodes == img0.inodes && img.inodeBits == img0.inodeBits
    && InodeOk(img, sh, i, ind) && ind.mode == FileMode
    && (forall j | j in sh0.live && j != i :: Untouched(img0, img, j))
    && (forall b | 0 <= b < BLOCK_COUNT && img0.blockBits[b] :: img.blockBits[b])
    && (i in sh0.live && Exact(img0, sh0) ==> Tight(img, sh, i, ind))
    && (i !in sh0.live && NoneTaken(img0, img) ==> img == img0 && sh == sh0 && Blank(ind))
  }

  /** An inode without blocks. */
  predicate Blank(ind: Inode) { ind.direct == NO_DIRECT && ind.indirect == 0 }

  lemma WritingStart(img: Image, sh: Shape, i: nat)
    requires Safe(img, sh) && i in sh.live && img.inodes[i].mode == FileMode
    ensures Writing(img, sh, img, sh, i, img.inodes[i])
  {
    assert InodeOk(img, sh, i, img.inodes[i]);
    if Exact(img, sh) {
      forall b | b in sh.owner
        ensures True(img, sh, i, img.inodes[i], b)
      {
        assert True(img, sh, NONE, ZERO_INODE, b);
      }
    }
  }

  /** An inode that is not live starts with no blocks of its own. */
  lemma WritingBlank(img: Image, sh: Shape, i: nat, ind: Inode)
    requires Safe(img, sh) && 0 < i < MAX_INODES && i !in sh.live && i !in sh.solid
    requires Blank(ind) && ind.mode == FileMode && ind.size <= MAX_FILE_BLOCKS * BLOCK_SIZE
    ensures Writing(img, sh, img, sh, i, ind)
  {
    assert forall n | 0 <= n < SLOTS :: At(img.blocks, ind, n) == 0;
  }

  lemma WritingGrown(img0: Image, sh0: Shape, img: Image, sh: Shape, ind: Inode, img': Image, sh': Shape, ind': Inode,
                     i: nat)
    requires Writing(img0, sh0, img, sh, i, ind) && Grown(img, sh, ind, img', sh', ind', i)
    ensures Writing(img0, sh0, img', sh', i, ind')
  {
    forall j | j in sh0.live && j != i
      ensures Untouched(img0, img', j)
    {
      UntouchedTrans(img0, img, img', j);
    }
    if NoneTaken(img0, img') {
      assert NoneTaken(img0, img);
    }
  }

  // ---------------------------------------------------------------- one data block

  /** The write that puts `data` at offset `o` of the file. */
  function DataWrite(img: Image, ind: Inode, o: nat, data: seq<Byte>): (w: Write)
    requires Sized(img) && o % BLOCK_SIZE + |data| <= BLOCK_SIZE
    requires At(img.blocks, ind, DataSlot(o / BLOCK_SIZE)) < BLOCK_COUNT
    ensures Fits(w) && w.PutBlock? && IsData(w.content)
  {
    var b := At(img.blocks, ind, DataSlot(o / BLOCK_SIZE));
    PutBlock(b, Data(Patch(Raw(img.blocks, b), o % BLOCK_SIZE, data)))
  }

  function Extended(ind: Inode, size: nat): Inode { ind.(size := if size > ind.size then size else ind.size) }

  /** The data block under offset `o`, when it exists. */
  lemma BlockUnder(img: Image, sh: Shape, i: nat, ind: Inode, o: nat)
    requires Sized(img) && InodeOk(img, sh, i, ind) && ind.mode == FileMode && i != 0
    requires o / BLOCK_SIZE < MAX_FILE_BLOCKS
    requires At(img.blocks, ind, DataSlot(o / BLOCK_SIZE)) != 0
    ensures var n := DataSlot(o / BLOCK_SIZE); var b := At(img.blocks, ind, n);
            n < SLOTS && n != TABLE && Owned(img, sh, i, n, b) && DATA_START <= b < JOURNAL_START
                && IsData(img.blocks[b])
  {
    var n := DataSlot(o / BLOCK_SIZE);
    assert Owned(img, sh, i, n, At(img.blocks, ind, n));
  }

  lemma DataInode(img: Image, sh: Shape, i: nat, ind: Inode, o: nat, data: seq<Byte>)
    requires Sized(img) && InodeOk(img, sh, i, ind) && ind.mode == FileMode && i != 0
    requires o / BLOCK_SIZE < MAX_FILE_BLOCKS
    requires (i in sh.solid ==> o <= ind.size) && o % BLOCK_SIZE + |data| <= BLOCK_SIZE
    requires At(img.blocks, ind, DataSlot(o / BLOCK_SIZE)) != 0
    requires var b := At(img.blocks, ind, DataSlot(o / BLOCK_SIZE)); b < BLOCK_COUNT && IsData(img.blocks[b])
    ensures InodeOk(Apply(img, DataWrite(img, ind, o, data)), sh, i, Extended(ind, o + |data|))
    ensures forall m | 0 <= m < SLOTS ::
              At(Apply(img, DataWrite(img, ind, o, data)).blocks, Extended(ind, o + |data|), m)
                  == At(img.blocks, ind, m)
  {
    var n := DataSlot(o / BLOCK_SIZE);
    var w := DataWrite(img, ind, o, data);
    OverwriteData(img, sh, i, ind, n, w.content);
    var img' := Apply(img, w);
    SlotsDiffer(img, sh, i, ind, n, TABLE);
    assert At(img.blocks, ind, TABLE) == ind.indirect;
    assert forall m | 0 <= m < SLOTS :: At(img'.blocks, ind, m) == At(img.blocks, ind, m);
    if o + |data| > ind.size {
      if i in sh.solid {
        forall l | 0 <= l < BlocksFor(o + |data|)
          ensures At(img'.blocks, ind, DataSlot(l)) != 0
        {
          LastBlock(o, |data|, ind.size, l);
        }
      }
      Resize(img', sh, i, ind, o + |data|);
    }
  }

  lemma LastBlock(o: nat, len: nat, size: nat, l: nat)
    requires o <= size && o % BLOCK_SIZE + len <= BLOCK_SIZE && l < BlocksFor(o + len)
    ensures l == o / BLOCK_SIZE || l < BlocksFor(size)
  {
  }

  /** The inode on disk tolerates a data block written under the inode in memory. */
  lemma OldInode(img: Image, sh: Shape, i: nat, d: Inode, n: nat, b: nat, c: Content)
    requires Sized(img) && InodeOk(img, sh, i, d) && d.mode == FileMode && n < SLOTS && n != TABLE
    requires 0 < b < BLOCK_COUNT
    requires Owned(img, sh, i, n, b) && IsData(c)
    ensures InodeOk(Apply(img, PutBlock(b, c)), sh, i, d)
  {
    if At(img.blocks, d, n) == b {
      OverwriteData(img, sh, i, d, n, c);
    } else {
      forall m | 0 <= m < SLOTS
        ensures At(img.blocks, d, m) != b
      {
        assert At(img.blocks, d, m) == b ==> Owned(img, sh, i, m, b);
      }
      LackingKept(img, sh, i, d, b, PutBlock(b, c), sh.owner);
    }
  }

  lemma DataSafe(img: Image, sh: Shape, i: nat, ind: Inode, o: nat, data: seq<Byte>)
    requires Safe(img, sh) && (i in sh.live ==> img.inodes[i].mode == FileMode)
    requires InodeOk(img, sh, i, ind) && ind.mode == FileMode && i != 0 && o / BLOCK_SIZE < MAX_FILE_BLOCKS
    requires o % BLOCK_SIZE + |data| <= BLOCK_SIZE && At(img.blocks, ind, DataSlot(o / BLOCK_SIZE)) != 0
    requires var b := At(img.blocks, ind, DataSlot(o / BLOCK_SIZE)); b < BLOCK_COUNT && IsData(img.blocks[b])
    ensures Safe(Apply(img, DataWrite(img, ind, o, data)), sh)
    ensures forall j | j in sh.live && j != i :: Untouched(img, Apply(img, DataWrite(img, ind, o, data)), j)
  {
    var n := DataSlot(o / BLOCK_SIZE);
    var w := DataWrite(img, ind, o, data);
    BlockUnder(img, sh, i, ind, o);
    if i in sh.live {
      assert InodeOk(img, sh, i, img.inodes[i]);
      OldInode(img, sh, i, img.inodes[i], n, w.block, w.content);
      FileWriteKeeps(img, sh, i, w.block, n, w.content);
    } else {
      UnregisteredUnheld(img, sh, NONE, w.block);
      HarmlessKeeps(img, sh, NONE, w);
    }
    assert SafeBut(img, sh, i);
    UnregisteredUnheld(img, sh, i, w.block);
    forall j | j in sh.live && j != i
      ensures Untouched(img, Apply(img, w), j)
    {
      HarmlessUntouched(img, sh, i, w, j);
    }
  }

  lemma DataTight(img: Image, sh: Shape, i: nat, ind: Inode, img': Image, ind': Inode)
    requires Safe(img, sh) && Tight(img, sh, i, ind) && Sized(img')
    requires img'.inodes == img.inodes && img'.inodeBits == img.inodeBits && img'.blockBits == img.blockBits
    requires forall j | j in sh.live && j != i :: Untouched(img, img', j)
    requires forall m | 0 <= m < SLOTS :: At(img'.blocks, ind', m) == At(img.blocks, ind, m)
    ensures Tight(img', sh, i, ind')
  {
    forall b | b in sh.owner
      ensures True(img', sh, i, ind', b)
    {
      assert True(img, sh, i, ind, b);
      if sh.owner[b].ino != i {
        UntouchedAt(img, img', sh.owner[b].ino, sh.owner[b].n);
      }
    }
  }

  /** The bytes of the file in memory are overwritten, whether the offset lies within it or past its end. */
  lemma DataBytes(img: Image, sh: Shape, i: nat, ind: Inode, o: nat, data: seq<Byte>)
    requires Sized(img) && InodeOk(img, sh, i, ind) && ind.mode == FileMode && i != 0
    requires o / BLOCK_SIZE < MAX_FILE_BLOCKS && (i in sh.solid ==> o <= ind.size)
    requires o % BLOCK_SIZE + |data| <= BLOCK_SIZE && At(img.blocks, ind, DataSlot(o / BLOCK_SIZE)) != 0
    ensures At(img.blocks, ind, DataSlot(o / BLOCK_SIZE)) < BLOCK_COUNT
    ensures Overwritten(Bytes(img.blocks, Extended(ind, o)), o, data,
              Bytes(Apply(img, DataWrite(img, ind, o, data)).blocks, Extended(ind, o + |data|)))
  {
    BlockUnder(img, sh, i, ind, o);
    if o > ind.size {
      Resize(img, sh, i, ind, o);
    }
    PatchOverwrites(img, sh, i, Extended(ind, o), o, data);
  }

  /** One data block written: the image stays safe, and no other inode is touched. */
  lemma WritingData(img0: Image, sh0: Shape, img: Image, sh: Shape, i: nat, ind: Inode, o: nat, data: seq<Byte>)
    requires Writing(img0, sh0, img, sh, i, ind) && o / BLOCK_SIZE < MAX_FILE_BLOCKS
    requires (i in sh.solid ==> o <= ind.size)
    requires o % BLOCK_SIZE + |data| <= BLOCK_SIZE && At(img.blocks, ind, DataSlot(o / BLOCK_SIZE)) != 0
    ensures DATA_START <= At(img.blocks, ind, DataSlot(o / BLOCK_SIZE)) < JOURNAL_START
    ensures var img' := Apply(img, DataWrite(img, ind, o, data)); var ind' := Extended(ind, o + |data|);
            Writing(img0, sh0, img', sh, i, ind')
  {
    BlockUnder(img, sh, i, ind, o);
    var img', ind' := Apply(img, DataWrite(img, ind, o, data)), Extended(ind, o + |data|);
    DataInode(img, sh, i, ind, o, data);
    DataSafe(img, sh, i, ind, o, data);
    if i in sh.live && Exact(img0, sh0) {
      DataTight(img, sh, i, ind, img', ind');
    }
    assert !Blank(ind);
    forall j | j in sh0.live && j != i
      ensures Untouched(img0, img', j)
    {
      UntouchedTrans(img0, img, img', j);
    }
  }

  // ---------------------------------------------------------------- a whole write

  /** A write of `buf` at offset `o` of inode `i`, begun at (img, sh). */
  datatype Job = Job(img: Image, sh: Shape, i: nat, o: nat, buf: seq<Byte>)

  /** The inode that a failed create has left: it reads as a file, but its block is not its own. */
  predicate LeftOver(ind: Inode) {
    && ind.mode == FileMode && ind.size <= MAX_FILE_BLOCKS * BLOCK_SIZE && ind.indirect == 0
    && |ind.direct| == 8 && ind.direct == NO_DIRECT[0 := ind.direct[0]] && DATA_START <= ind.direct[0] < JOURNAL_START
  }

  /** The write goes to the block that a left-over inode names. */
  predicate Strikes(job: Job) { job.i !in job.sh.live && job.o < BLOCK_SIZE && job.buf != [] }

  /** A write that can be made: to a live file, or to a left-over inode unless it would hit the wrong block. */
  ghost predicate JobOk(job: Job) {
    && Safe(job.img, job.sh) && 0 < job.i < MAX_INODES
    && var ind := job.img.inodes[job.i];
       if job.i in job.sh.live then ind.mode == FileMode && (job.i in job.sh.solid ==> job.o <= ind.size)
       else job.i !in job.sh.solid && LeftOver(ind) && (Strikes(job) ==> OnlyData(job.img, ind.direct[0]))
  }

  /** How much goes into the block under the offset, when `done` bytes are written. */
  function Room(o: nat, len: nat, done: nat): (take: nat)
    requires done <= len
    ensures (o + done) % BLOCK_SIZE + take <= BLOCK_SIZE && done + take <= len && (done < len ==> take > 0)
  {
    var left := BLOCK_SIZE - (o + done) % BLOCK_SIZE;
    if left > len - done then len - done else left
  }

  /** The first piece of the buffer. */
  function Head(job: Job): seq<Byte> { job.buf[..Room(job.o, |job.buf|, 0)] }

  /** The image once the block that is not the writer's own is written, if that is to happen. */
  ghost function Hit(job: Job): (r: Image)
    requires JobOk(job)
    ensures Sized(r)
  {
    if Strikes(job) then Apply(job.img, DataWrite(job.img, job.img.inodes[job.i], job.o, Head(job))) else job.img
  }

  /** What of an inode in memory is its own. */
  function Own(sh: Shape, i: nat, ind: Inode): Inode
    requires |ind.direct| == 8
  {
    if i in sh.live then ind else ind.(direct := ind.direct[0 := 0])
  }

  /** The file in memory is `s` with the first `done` bytes of `buf` written over it from `o` on. */
  ghost predicate Filled(img: Image, ind: Inode, s: seq<Byte>, o: nat, buf: seq<Byte>, done: nat) {
    done <= |buf| && Overwritten(s, o, buf[..done], Bytes(img.blocks, ind))
  }

  /** The contents of a file up to offset `o` at least: past its end, what its blocks hold there. */
  function Before(img: Image, i: nat, o: nat): (s: seq<Byte>)
    requires Sized(img) && i < MAX_INODES
    ensures |s| >= o
  {
    Bytes(img.blocks, Extended(img.inodes[i], o))
  }

  /** A write to a live file is under way. */
  ghost predicate Filling(job: Job, img: Image, sh: Shape, ind: Inode, done: nat)
    requires JobOk(job)
  {
    match job
    case Job(img0, _, i, o, buf) =>
      && (i in sh.solid || done > 0 ==> o + done <= ind.size)
      && (done == 0 ==> Bytes(img.blocks, ind) == Contents(img0, i))
      && (o <= MAX_FILE_BLOCKS * BLOCK_SIZE ==> Filled(img, Extended(ind, o), Before(img0, i, o), o, buf, done))
  }

  /** A write to a left-over inode is past its block. */
  ghost predicate Straying(job: Job, img: Image, ind: Inode, done: nat)
    requires JobOk(job) && Sized(img) && |ind.direct| == 8
  {
    && ind.direct[0] == job.img.inodes[job.i].direct[0] && (job.o + done >= BLOCK_SIZE || done == |job.buf|)
    && (job.o + |job.buf| <= BLOCK_SIZE ==> NoneTaken(job.img, img))
  }

  /** The write has come to `done`, with the inode in memory as `ind`. */
  ghost predicate Copying(job: Job, img: Image, sh: Shape, ind: Inode, done: nat) {
    match job
    case Job(img0, sh0, i, _, buf) =>
      && JobOk(job) && done <= |buf| && |ind.direct| == 8 && ind.mode == FileMode
      && if Strikes(job) && done == 0 then img == img0 && sh == sh0 && ind == img.inodes[i]
         else
           && Writing(Hit(job), sh0, img, sh, i, Own(sh0, i, ind))
           && if i in sh0.live then Filling(job, img, sh, ind, done) else Straying(job, img, ind, done)
  }

  lemma CopyingStart(job: Job)
    requires JobOk(job)
    ensures Copying(job, job.img, job.sh, job.img.inodes[job.i], 0)
  {
    var ind := job.img.inodes[job.i];
    if job.i in job.sh.live {
      WritingStart(job.img, job.sh, job.i);
    } else {
      assert Own(job.sh, job.i, ind).direct == NO_DIRECT;
      WritingBlank(job.img, job.sh, job.i, Own(job.sh, job.i, ind));
    }
  }

  /** What the inode has of its own is consistent all along. */
  lemma CopyingOwn(job: Job, img: Image, sh: Shape, ind: Inode, done: nat)
    requires Copying(job, img, sh, ind, done)
    ensures Safe(img, sh) && SameTree(job.sh, sh) && InodeOk(img, sh, job.i, Own(sh, job.i, ind))
    ensures job.i in sh.live ==> img.inodes[job.i].mode == FileMode
    ensures job.i !in sh.live ==> ind.direct[0] != 0
  {
    if Strikes(job) && done == 0 {
      CopyingStart(job.(buf := []));
    }
  }

  lemma CopyingGrown(job: Job, img: Image, sh: Shape, ind: Inode, img': Image, sh': Shape, ind': Inode, done: nat)
    requires Copying(job, img, sh, ind, done) && done < |job.buf|
    requires |ind'.direct| == 8 && (job.i !in sh.live ==> ind'.direct[0] == ind.direct[0])
    requires Grown(img, sh, Own(sh, job.i, ind), img', sh', Own(sh, job.i, ind'), job.i)
    requires Strikes(job) && done == 0 ==> img' == img && sh' == sh && ind' == ind
    ensures Copying(job, img', sh', ind', done)
  {
    if !(Strikes(job) && done == 0) {
      WritingGrown(Hit(job), job.sh, img, sh, Own(sh, job.i, ind), img', sh', Own(sh, job.i, ind'), job.i);
      if job.i in job.sh.live {
        FillingGrown(job, img, sh, ind, img', sh', ind', done);
      }
    }
  }

  lemma FillingGrown(job: Job, img: Image, sh: Shape, ind: Inode, img': Image, sh': Shape, ind': Inode, done: nat)
    requires JobOk(job) && Filling(job, img, sh, ind, done) && Grown(img, sh, ind, img', sh', ind', job.i)
    ensures Filling(job, img', sh', ind', done)
  {
    GrownBytes(img, sh, ind, img', sh', ind', job.i, ind.size);
    assert ind.(size := ind.size) == ind && ind'.(size := ind.size) == ind';
    var z := Extended(ind, job.o).size;
    if job.o <= MAX_FILE_BLOCKS * BLOCK_SIZE {
      GrownBytes(img, sh, ind, img', sh', ind', job.i, z);
      assert Extended(ind, job.o) == ind.(size := z) && Extended(ind', job.o) == ind'.(size := z);
    }
  }

  /** The guard of the write loop never fires for a file without holes. */
  lemma CopyingRoom(job: Job, img: Image, sh: Shape, ind: Inode, done: nat)
    requires Copying(job, img, sh, ind, done)
    ensures job.i in job.sh.solid ==> (job.o + done) / BLOCK_SIZE < MAX_FILE_BLOCKS
  {
    if job.i in job.sh.solid {
      NeverFull(img, sh, job.i, ind);
    }
  }

  /** One more piece of the buffer, written under offset `at`. */
  lemma CopyingPiece(job: Job, img: Image, sh: Shape, ind: Inode, done: nat, take: nat, at: nat)
    requires Copying(job, img, sh, ind, done) && done < |job.buf| && take == Room(job.o, |job.buf|, done)
    requires at == job.o + done && at / BLOCK_SIZE < MAX_FILE_BLOCKS
    requires At(img.blocks, ind, DataSlot(at / BLOCK_SIZE)) != 0
    ensures DATA_START <= At(img.blocks, ind, DataSlot(at / BLOCK_SIZE)) < JOURNAL_START
    ensures var img' := Apply(img, DataWrite(img, ind, at, job.buf[done..][..take]));
            Copying(job, img', sh, Extended(ind, at + take), done + take)
  {
    if job.i in job.sh.live {
      LivePiece(job, img, sh, ind, done, take, at);
    } else if Strikes(job) && done == 0 {
      FirstPiece(job, take);
    } else {
      LaterPiece(job, img, sh, ind, done, take, at);
    }
  }

  lemma LivePiece(job: Job, img: Image, sh: Shape, ind: Inode, done: nat, take: nat, at: nat)
    requires Copying(job, img, sh, ind, done) && done < |job.buf| && take == Room(job.o, |job.buf|, done)
    requires job.i in job.sh.live && at == job.o + done && at / BLOCK_SIZE < MAX_FILE_BLOCKS
    requires At(img.blocks, ind, DataSlot(at / BLOCK_SIZE)) != 0
    ensures DATA_START <= At(img.blocks, ind, DataSlot(at / BLOCK_SIZE)) < JOURNAL_START
    ensures var img' := Apply(img, DataWrite(img, ind, at, job.buf[done..][..take]));
            Copying(job, img', sh, Extended(ind, at + take), done + take)
  {
    var piece := job.buf[done..][..take];
    WritingData(job.img, job.sh, img, sh, job.i, ind, at, piece);
    FillingPiece(job, img, sh, ind, done, take, at);
  }

  lemma FillingPiece(job: Job, img: Image, sh: Shape, ind: Inode, done: nat, take: nat, at: nat)
    requires JobOk(job) && Sized(img) && InodeOk(img, sh, job.i, ind) && ind.mode == FileMode
    requires Filling(job, img, sh, ind, done) && done < |job.buf| && take == Room(job.o, |job.buf|, done)
    requires at == job.o + done && at / BLOCK_SIZE < MAX_FILE_BLOCKS
    requires 0 < At(img.blocks, ind, DataSlot(at / BLOCK_SIZE)) < BLOCK_COUNT
    ensures var img' := Apply(img, DataWrite(img, ind, at, job.buf[done..][..take]));
            Filling(job, img', sh, Extended(ind, at + take), done + take)
  {
    var piece := job.buf[done..][..take];
    DataBytes(img, sh, job.i, ind, at, piece);
    FilledMore(img, ind, Apply(img, DataWrite(img, ind, at, piece)), Before(job.img, job.i, job.o), job.o, job.buf,
        done, take, at);
  }

  lemma FilledMore(img: Image, ind: Inode, img': Image, s: seq<Byte>, o: nat, buf: seq<Byte>, done: nat, take: nat,
                   at: nat)
    requires Filled(img, Extended(ind, o), s, o, buf, done) && 0 < take && done + take <= |buf| && at == o + done
    requires done > 0 ==> at <= ind.size
    requires Overwritten(Bytes(img.blocks, Extended(ind, at)), at, buf[done..][..take],
               Bytes(img'.blocks, Extended(ind, at + take)))
    ensures Filled(img', Extended(Extended(ind, at + take), o), s, o, buf, done + take)
  {
    assert Extended(ind, at) == Extended(ind, o);
    assert Extended(Extended(ind, at + take), o) == Extended(ind, at + take);
    OverwriteMore(s, o, buf, done, take, Bytes(img.blocks, Extended(ind, o)),
        Bytes(img'.blocks, Extended(ind, at + take)));
  }

  /** The block of a left-over inode. */
  lemma FirstPiece(job: Job, take: nat)
    requires JobOk(job) && Strikes(job) && take == Room(job.o, |job.buf|, 0)
    ensures var ind := job.img.inodes[job.i];
            && DATA_START <= At(job.img.blocks, ind, DataSlot(job.o / BLOCK_SIZE)) < JOURNAL_START
            && Hit(job) == Apply(job.img, DataWrite(job.img, ind, job.o, job.buf[0..][..take]))
            && Copying(job, Hit(job), job.sh, Extended(ind, job.o + take), take)
  {
    var ind := job.img.inodes[job.i];
    var b := ind.direct[0];
    assert At(job.img.blocks, ind, DataSlot(job.o / BLOCK_SIZE)) == b;
    StruckKeeps(job.img, job.sh, b, DataWrite(job.img, ind, job.o, Head(job)).content.bytes);
    var own := Own(job.sh, job.i, Extended(ind, job.o + take));
    assert own.direct == NO_DIRECT;
    WritingBlank(Hit(job), job.sh, job.i, own);
    assert job.buf[0..][..take] == Head(job);
  }

  /** A block that the inode has got during this write. */
  lemma LaterPiece(job: Job, img: Image, sh: Shape, ind: Inode, done: nat, take: nat, at: nat)
    requires Copying(job, img, sh, ind, done) && done < |job.buf| && take == Room(job.o, |job.buf|, done)
    requires job.i !in job.sh.live && !(Strikes(job) && done == 0)
    requires at == job.o + done && at / BLOCK_SIZE < MAX_FILE_BLOCKS
    requires At(img.blocks, ind, DataSlot(at / BLOCK_SIZE)) != 0
    ensures DATA_START <= At(img.blocks, ind, DataSlot(at / BLOCK_SIZE)) < JOURNAL_START
    ensures var img' := Apply(img, DataWrite(img, ind, at, job.buf[done..][..take]));
            Copying(job, img', sh, Extended(ind, at + take), done + take)
  {
    var own := Own(job.sh, job.i, ind);
    assert at / BLOCK_SIZE >= 1;
    assert At(img.blocks, own, DataSlot(at / BLOCK_SIZE)) == At(img.blocks, ind, DataSlot(at / BLOCK_SIZE));
    WritingData(Hit(job), job.sh, img, sh, job.i, own, at, job.buf[done..][..take]);
    assert Own(job.sh, job.i, Extended(ind, at + take)) == Extended(own, at + take);
  }

  // ---------------------------------------------------------------- the end

  /** A write past the end may leave a hole; a left-over inode is not known to have none. */
  function Aimed(img: Image, sh: Shape, i: nat, o: nat): Shape
    requires i < |img.inodes|
  {
    if i in sh.live && o <= img.inodes[i].size then sh else Loosened(sh, i)
  }

  lemma AimedSafe(img: Image, sh: Shape, i: nat, o: nat)
    requires Safe(img, sh) && i < MAX_INODES
    ensures Safe(img, Aimed(img, sh, i, o)) && (Exact(img, sh) ==> Exact(img, Aimed(img, sh, i, o)))
  {
    LoosenedSafe(img, sh, i);
  }

  /**
    From (img0, sh0) to (img, sh), `data` was written at offset `o` of file `i`: exactly those bytes
    are replaced, and no other inode is touched.
   */
  ghost predicate Wrote(img0: Image, sh0: Shape, img: Image, sh: Shape, i: nat, o: nat, data: seq<Byte>) {
    && Safe(img0, sh0) && Safe(img, sh) && i in sh0.live && SameTree(Aimed(img0, sh0, i, o), sh)
    && img0.inodes[i].mode == FileMode && img.inodes[i].mode == FileMode
    && img.inodes == img0.inodes[i := img.inodes[i]] && img.inodeBits == img0.inodeBits
    && (|data| == 0 ==> Contents(img, i) == Contents(img0, i))
    && (|data| > 0 ==> Overwritten(Before(img0, i, o), o, data, Contents(img, i)))
    && (forall j | j in sh0.live && j != i :: Untouched(img0, img, j))
    && (forall b | 0 <= b < BLOCK_COUNT && img0.blockBits[b] :: img.blockBits[b])
    && (Exact(img0, sh0) ==> Exact(img, sh))
  }

  /** A write leaves directories, such as the working directory, in place. */
  lemma WroteDir(img0: Image, sh0: Shape, img: Image, sh: Shape, i: nat, o: nat, data: seq<Byte>, d: nat)
    requires Wrote(img0, sh0, img, sh, i, o, data) && d in sh0.live && img0.inodes[d].mode == DirMode
    ensures d in sh.live && img.inodes[d].mode == DirMode
  {
    assert Untouched(img0, img, d);
  }

  /** Storing the inode ends the write: its bytes are the file's contents. */
  lemma WritingEnd(img0: Image, sh0: Shape, img: Image, sh: Shape, i: nat, ind: Inode)
    requires Writing(img0, sh0, img, sh, i, ind) && i in sh0.live
    ensures var img' := Apply(img, PutInode(i, ind));
            && Safe(img', sh) && Contents(img', i) == Bytes(img.blocks, ind) && img'.inodes[i].mode == FileMode
            && (forall j | j in sh0.live && j != i :: Untouched(img0, img', j))
            && (Exact(img0, sh0) ==> Exact(img', sh))
            && img'.inodes == img0.inodes[i := ind] && img'.inodeBits == img0.inodeBits
            && (forall b | 0 <= b < BLOCK_COUNT && img0.blockBits[b] :: img'.blockBits[b])
  {
    var img' := Apply(img, PutInode(i, ind));
    StoreInode(img, sh, NONE, i, ind);
    if Exact(img0, sh0) {
      forall b | b in sh.owner
        ensures True(img', sh, NONE, ZERO_INODE, b)
      {
        assert True(img, sh, i, ind, b);
      }
    }
  }

  /** The end of a write to a live file. */
  lemma WroteEnd(job: Job, sh0: Shape, img: Image, sh: Shape, ind: Inode, n: nat)
    requires Copying(job, img, sh, ind, n) && Safe(job.img, sh0) && job.i in sh0.live
    requires job.sh == Aimed(job.img, sh0, job.i, job.o)
    ensures Wrote(job.img, sh0, Apply(img, PutInode(job.i, ind)), sh, job.i, job.o, job.buf[..n])
  {
    WritingEnd(job.img, job.sh, img, sh, job.i, ind);
    AimedSafe(job.img, sh0, job.i, job.o);
    if n > 0 {
      assert Extended(ind, job.o) == ind;
    }
  }

  /**
    From the job to (img, sh), a left-over inode was written to: every live inode is as it is once
    the block that the inode names is written; beyond that, nothing has happened unless blocks
    were allocated.
   */
  ghost predicate Strayed(job: Job, img: Image, sh: Shape) {
    && JobOk(job) && job.i !in job.sh.live && Safe(Hit(job), job.sh) && Safe(img, sh) && SameTree(job.sh, sh)
    && img.inodes == job.img.inodes[job.i := img.inodes[job.i]] && img.inodeBits == job.img.inodeBits
    && img.inodes[job.i].mode == FileMode
    && (forall j | j in sh.live :: Untouched(Hit(job), img, j))
    && (forall b | 0 <= b < BLOCK_COUNT && job.img.blockBits[b] :: img.blockBits[b])
    && (NoneTaken(job.img, img) ==>
        && sh == job.sh && img.blocks == Hit(job).blocks && img.blockBits == job.img.blockBits
        && LeftOver(img.inodes[job.i]))
    && (job.o + |job.buf| <= BLOCK_SIZE ==> NoneTaken(job.img, img))
  }

  lemma StrayedEnd(job: Job, img: Image, sh: Shape, ind: Inode, n: nat)
    requires Copying(job, img, sh, ind, n) && job.i !in job.sh.live && !(Strikes(job) && n == 0)
    ensures Strayed(job, Apply(img, PutInode(job.i, ind)), sh)
  {
    var w, own := PutInode(job.i, ind), Own(job.sh, job.i, ind);
    HarmlessKeeps(img, sh, NONE, w);
    forall j | j in sh.live
      ensures Untouched(Hit(job), Apply(img, w), j)
    {
      HarmlessUntouched(img, sh, NONE, w, j);
      UntouchedTrans(Hit(job), img, Apply(img, w), j);
    }
    if NoneTaken(job.img, img) {
      assert own.direct == NO_DIRECT;
      assert ind.direct == own.direct[0 := ind.direct[0]];
    }
  }

  /** Without an allocation the bitmaps stay exact. */
  lemma StrayedExact(job: Job, img: Image, sh: Shape)
    requires Strayed(job, img, sh) && Exact(job.img, job.sh) && NoneTaken(job.img, img)
    ensures Exact(img, sh)
  {
    if Strikes(job) {
      var ind := job.img.inodes[job.i];
      assert At(job.img.blocks, ind, DataSlot(job.o / BLOCK_SIZE)) == ind.direct[0];
      StruckKeeps(job.img, job.sh, ind.direct[0], DataWrite(job.img, ind, job.o, Head(job)).content.bytes);
    }
    assert Exact(Hit(job), sh);
    forall b | b in sh.owner
      ensures True(img, sh, NONE, ZERO_INODE, b)
    {
      assert True(Hit(job), sh, NONE, ZERO_INODE, b);
    }
  }

  // ---------------------------------------------------------------- reading

  lemma ContentsAt(img: Image, i: nat, j: nat)
    requires Sized(img) && i < MAX_INODES && j < img.inodes[i].size
    ensures Contents(img, i)[j] == ByteAt(img.blocks, img.inodes[i], j)
  {
  }

  /** The block under offset `o` holds the file's bytes from there on. */
  lemma ChunkRead(img: Image, i: nat, o: nat, take: nat)
    requires Sized(img) && i < MAX_INODES && o + take <= img.inodes[i].size && o % BLOCK_SIZE + take <= BLOCK_SIZE
    ensures var b := At(img.blocks, img.inodes[i], DataSlot(o / BLOCK_SIZE));
            Raw(img.blocks, b)[o % BLOCK_SIZE..o % BLOCK_SIZE + take] == Contents(img, i)[o..o + take]
  {
    var b := At(img.blocks, img.inodes[i], DataSlot(o / BLOCK_SIZE));
    var s, c := Raw(img.blocks, b)[o % BLOCK_SIZE..o % BLOCK_SIZE + take], Contents(img, i)[o..o + take];
    forall k | 0 <= k < take
      ensures s[k] == c[k]
    {
      SameBlock(o, o + k, take);
      ContentsAt(img, i, o + k);
    }
  }

  /** Below its size a live file without holes has a block everywhere. */
  lemma SolidBlock(img: Image, sh: Shape, i: nat, o: nat)
    requires Safe(img, sh) && i in sh.live && i in sh.solid && img.inodes[i].mode == FileMode && o < img.inodes[i].size
    ensures At(img.blocks, img.inodes[i], DataSlot(o / BLOCK_SIZE)) != 0
  {
    assert InodeOk(img, sh, i, img.inodes[i]);
    assert o / BLOCK_SIZE < BlocksFor(img.inodes[i].size);
  }
}
