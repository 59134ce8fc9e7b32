/** Crash points: what the disk may look like between two block writes of an operation. */
module FsCrash {
  import opened FsDisk
  import opened FsShape
  import opened FsSteps
  import opened FsFiles
  import opened FsGrow
  import opened FsStray
  import opened FsWrite
  import opened FsCreate
  import opened FsRelease
  import opened FsRemove

  /**
    What an operation may do: it starts from `img` with the live inodes `live`, at one point turns
    them into `next`, and changes no live inode outside `target`; the files in `solid` stay
    without holes.
   */
  datatype Scope = Scope(img: Image, live: set<nat>, next: set<nat>, target: set<nat>, solid: set<nat>)

  ghost predicate InScope(sc: Scope, img: Image, sh: Shape) {
    && Safe(img, sh) && Sized(sc.img) && sc.live - sc.target <= sc.next
    && (sh.live == sc.live || sh.live == sc.next)
    && sc.solid <= sh.solid && sh.live - sc.live <= sh.solid
    && (forall j | j in sc.live && j !in sc.target :: 0 <= j < MAX_INODES && Untouched(sc.img, img, j))
  }

  /**
    An image between two block writes: it is safe and shows the old or the new tree, with all other
    inodes untouched.
   */
  ghost predicate Point(sc: Scope, img: Image) { exists sh :: InScope(sc, img, sh) }

  lemma ScopeStart(img: Image, sh: Shape, next: set<nat>, target: set<nat>)
    requires Safe(img, sh) && sh.live - target <= next
    ensures InScope(Scope(img, sh.live, next, target, sh.solid), img, sh)
  {
  }

  /** A step that touches at most the target `x` stays in scope. */
  lemma ScopeMove(sc: Scope, img: Image, sh: Shape, img': Image, sh': Shape, x: nat)
    requires InScope(sc, img, sh) && Safe(img', sh') && (x in sc.target || x == NONE)
    requires sh'.live == sh.live || (sh.live == sc.live && sh'.live == sc.next && sh'.live - sc.live <= sh'.solid)
    requires sh.solid <= sh'.solid
    requires forall j | j in sc.live && j !in sc.target && j != x && j in sh.live :: Untouched(img, img', j)
    ensures InScope(sc, img', sh')
  {
    forall j | j in sc.live && j !in sc.target
      ensures 0 <= j < MAX_INODES && Untouched(sc.img, img', j)
    {
      UntouchedTrans(sc.img, img, img', j);
    }
  }

  /** A write that is harmless to everything live stays in scope. */
  lemma ScopeHarmless(sc: Scope, img: Image, sh: Shape, w: Write)
    requires InScope(sc, img, sh) && Harmless(img, sh, NONE, w)
    ensures InScope(sc, Apply(img, w), sh)
  {
    HarmlessKeeps(img, sh, NONE, w);
    forall j | j in sh.live
      ensures Untouched(img, Apply(img, w), j)
    {
      HarmlessUntouched(img, sh, NONE, w, j);
    }
    ScopeMove(sc, img, sh, Apply(img, w), sh, NONE);
  }

  /** Setting or clearing a bit touches no inode. */
  lemma ScopeBits(sc: Scope, img: Image, sh: Shape, w: Write, sh': Shape)
    requires InScope(sc, img, sh) && Fits(w) && (w.BlockBit? || w.InodeBit?)
    requires Safe(Apply(img, w), sh') && sh'.live == sh.live && sh.solid <= sh'.solid
    ensures InScope(sc, Apply(img, w), sh')
  {
    ScopeMove(sc, img, sh, Apply(img, w), sh', NONE);
  }

  lemma ScopeAlloc(sc: Scope, img: Image, sh: Shape, b: nat, s: Slot)
    requires InScope(sc, img, sh) && Free(img, b)
    ensures InScope(sc, Marked(img, b), Registered(sh, b, s)) && InScope(sc, Allocated(img, b), Registered(sh, b, s))
  {
    AllocKeeps(img, sh, b, s);
    ScopeBits(sc, img, sh, BlockBit(b, true), Registered(sh, b, s));
    ScopeMove(sc, img, sh, Allocated(img, b), Registered(sh, b, s), NONE);
  }

  lemma ScopeGrown(sc: Scope, img: Image, sh: Shape, ind: Inode, img': Image, sh': Shape, ind': Inode, i: nat)
    requires InScope(sc, img, sh) && Grown(img, sh, ind, img', sh', ind', i) && i in sc.target
    ensures InScope(sc, img', sh')
  {
    ScopeMove(sc, img, sh, img', sh', i);
  }

  // ---------------------------------------------------------------- the scopes of the operations

  /** A write: it may touch its own inode and the one whose block a left-over inode names. */
  ghost function WriteScope(job: Job): Scope
    requires JobOk(job)
  {
    var struck := if Strikes(job) then Holder(job.sh, job.img.inodes[job.i].direct[0]) else {};
    Scope(job.img, job.sh.live, job.sh.live, {job.i} + struck, job.sh.solid)
  }

  lemma ScopeHit(job: Job)
    requires JobOk(job)
    ensures InScope(WriteScope(job), Hit(job), job.sh)
  {
    if Strikes(job) {
      var ind := job.img.inodes[job.i];
      assert At(job.img.blocks, ind, DataSlot(job.o / BLOCK_SIZE)) == ind.direct[0];
      StruckKeeps(job.img, job.sh, ind.direct[0], DataWrite(job.img, ind, job.o, Head(job)).content.bytes);
    }
  }

  /** Every state of a write is a crash point. */
  lemma ScopeCopying(job: Job, img: Image, sh: Shape, ind: Inode, done: nat)
    requires Copying(job, img, sh, ind, done)
    ensures InScope(WriteScope(job), img, sh)
  {
    var sc := WriteScope(job);
    if Strikes(job) && done == 0 {
      ScopeStart(img, sh, sc.next, sc.target);
    } else {
      ScopeHit(job);
      ScopeMove(sc, Hit(job), job.sh, img, sh, job.i);
    }
  }

  /** So is its end. */
  lemma ScopeStored(job: Job, img: Image, sh: Shape, ind: Inode, done: nat)
    requires Copying(job, img, sh, ind, done) && !(Strikes(job) && done == 0)
    ensures InScope(WriteScope(job), Apply(img, PutInode(job.i, ind)), sh)
  {
    var sc := WriteScope(job);
    ScopeCopying(job, img, sh, ind, done);
    if job.i in job.sh.live {
      WritingEnd(job.img, job.sh, img, sh, job.i, ind);
      ScopeMove(sc, job.img, job.sh, Apply(img, PutInode(job.i, ind)), sh, job.i);
    } else {
      ScopeHarmless(sc, img, sh, PutInode(job.i, ind));
    }
  }

  /** The data write of one turn of the write loop. */
  lemma ScopePiece(job: Job, img: Image, sh: Shape, ind: Inode, done: nat, take: nat, at: nat)
    requires Copying(job, img, sh, ind, done) && done < |job.buf| && take == Room(job.o, |job.buf|, done)
    requires at == job.o + done && at / BLOCK_SIZE < MAX_FILE_BLOCKS
    requires At(img.blocks, ind, DataSlot(at / BLOCK_SIZE)) != 0
    ensures At(img.blocks, ind, DataSlot(at / BLOCK_SIZE)) < BLOCK_COUNT
    ensures var w := DataWrite(img, ind, at, job.buf[done..][..take]);
            Homed(w) && InScope(WriteScope(job), Apply(img, w), sh)
  {
    CopyingPiece(job, img, sh, ind, done, take, at);
    var w := DataWrite(img, ind, at, job.buf[done..][..take]);
    ScopeCopying(job, Apply(img, w), sh, Extended(ind, at + take), done + take);
  }

  /** A creation in directory `d`. */
  function CreateScope(img: Image, sh: Shape, d: nat): Scope
    requires Sized(img)
  {
    Scope(img, sh.live, sh.live + {FirstInode(img)}, {d}, sh.solid)
  }

  lemma ScopeCreated(img0: Image, sh0: Shape, img: Image, sh: Shape, d: nat, name: string, mode: Mode, i: nat)
    requires Created(img0, sh0, img, sh, d, name, mode, i)
    ensures InScope(CreateScope(img0, sh0, d), img, sh)
  {
  }

  /** The removal of inode `c` from directory `d`. */
  function DeleteScope(img: Image, sh: Shape, d: nat, c: nat): Scope {
    Scope(img, sh.live, sh.live - {c}, {d, c}, sh.solid)
  }

  lemma ScopeCleared(img: Image, sh: Shape, d: nat, k: nat, c: nat)
    requires Removable(img, sh, d, k, c)
    ensures InScope(DeleteScope(img, sh, d, c), WithEntry(img, d, k, NO_ENTRY), Unlinked(sh, c))
  {
    UnlinkKeeps(img, sh, d, k, c);
    forall j | j in sh.live && j != d && j != c
      ensures 0 <= j < MAX_INODES && Untouched(img, WithEntry(img, d, k, NO_ENTRY), j)
    {
      assert InodeOk(img, sh, j, img.inodes[j]);
      EntryKeeps(img, sh, d, k, NO_ENTRY, sh, j);
      KeepsUntouched(img, sh, WithEntry(img, d, k, NO_ENTRY), sh, j);
    }
  }

  lemma KeepsUntouched(img: Image, sh: Shape, img': Image, sh': Shape, j: nat)
    requires Sized(img) && Sized(img') && j < MAX_INODES && img'.inodes[j] == img.inodes[j]
    requires Keeps(img, sh, img', sh', img.inodes[j])
    ensures Untouched(img, img', j)
  {
    forall n | 0 <= n < SLOTS && 0 < BlockAt(img, j, n) < BLOCK_COUNT
      ensures img'.blocks[BlockAt(img, j, n)] == img.blocks[BlockAt(img, j, n)]
    {
      assert BlockAt(img, j, n) == At(img.blocks, img.inodes[j], n);
    }
  }

  /** The truncation of file `c`, apart from the images in between. */
  function TruncateScope(img: Image, sh: Shape, c: nat): Scope { Scope(img, sh.live, sh.live, {c}, sh.solid) }

  lemma ScopeTruncated(img0: Image, sh0: Shape, img: Image, sh: Shape, c: nat)
    requires Truncated(img0, sh0, img, sh, c)
    ensures InScope(TruncateScope(img0, sh0, c), img, sh)
  {
  }

  // ---------------------------------------------------------------- histories of images

  /** Whether the write goes to a metadata block, the root directory or a data block. */
  predicate Homed(w: Write) {
    Fits(w) && (w.PutBlock? ==> w.block == ROOT_DIR_BLOCK || DATA_START <= w.block < JOURNAL_START)
  }

  /** One block write apart. */
  ghost predicate OneWrite(a: Image, b: Image) { Sized(a) && exists w :: Homed(w) && b == Apply(a, w) }

  ghost predicate StepOk(h: seq<Image>, k: nat) { 0 < k < |h| && OneWrite(h[k - 1], h[k]) }

  /** The history grew by single block writes only. */
  ghost predicate Logged(h: seq<Image>, h': seq<Image>) {
    && |h| <= |h'| && h'[..|h|] == h
    && (forall k | |h| <= k < |h'| :: StepOk(h', k))
  }

  /** Moreover, every new image is a crash point in scope. */
  ghost predicate Extends(h: seq<Image>, h': seq<Image>, sc: Scope) {
    Logged(h, h') && forall k | |h| <= k < |h'| :: Point(sc, h'[k])
  }

  lemma LoggedOne(h: seq<Image>, img: Image, w: Write)
    requires |h| > 0 && h[|h| - 1] == img && Sized(img) && Homed(w)
    ensures Logged(h, h + [Apply(img, w)])
  {
    assert StepOk(h + [Apply(img, w)], |h|);
  }

  lemma LoggedTrans(h: seq<Image>, h': seq<Image>, h'': seq<Image>)
    requires Logged(h, h') && Logged(h', h'')
    ensures Logged(h, h'') && forall k | 0 <= k < |h'| :: h''[k] == h'[k]
  {
    assert forall k | 0 <= k < |h'| :: h''[k] == h''[..|h'|][k];
    forall k | |h| <= k < |h'|
      ensures StepOk(h'', k)
    {
      assert StepOk(h', k);
    }
    assert h''[..|h|] == h''[..|h'|][..|h|];
  }

  lemma ExtendsTrans(h: seq<Image>, h': seq<Image>, h'': seq<Image>, sc: Scope)
    requires Extends(h, h', sc) && Extends(h', h'', sc)
    ensures Extends(h, h'', sc)
  {
    LoggedTrans(h, h', h'');
  }

  lemma ExtendsOne(h: seq<Image>, img: Image, w: Write, sc: Scope, sh: Shape)
    requires |h| > 0 && h[|h| - 1] == img && Sized(img) && Homed(w) && InScope(sc, Apply(img, w), sh)
    ensures Extends(h, h + [Apply(img, w)], sc)
  {
    LoggedOne(h, img, w);
  }

  function Span(lo: nat, hi: nat): (r: set<nat>)
    ensures forall k :: k in r <==> lo <= k < hi
    decreases hi
  {
    if hi <= lo then {} else Span(lo, hi - 1) + {hi - 1}
  }

  /**
    How a release goes on: tidily, by crash points in scope; or not, and then the indices of the
    new images are put down in `torn`.
   */
  ghost predicate Goes(h: seq<Image>, torn: set<nat>, h': seq<Image>, torn': set<nat>, sc: Scope, tidy: bool) {
    && Logged(h, h')
    && (if tidy then Extends(h, h', sc) && torn' == torn else torn' == torn + Span(|h|, |h'|))
  }

  lemma GoesTrans(h: seq<Image>, t: set<nat>, h': seq<Image>, t': set<nat>, h'': seq<Image>, t'': set<nat>,
                  sc: Scope, tidy: bool)
    requires Goes(h, t, h', t', sc, tidy) && Goes(h', t', h'', t'', sc, tidy)
    ensures Goes(h, t, h'', t'', sc, tidy)
  {
    LoggedTrans(h, h', h'');
    assert Span(|h|, |h''|) == Span(|h|, |h'|) + Span(|h'|, |h''|);
  }

  lemma GoesSelf(h: seq<Image>, t: set<nat>, sc: Scope, tidy: bool)
    ensures Goes(h, t, h, t, sc, tidy)
  {
    assert Span(|h|, |h|) == {};
  }

  /** A release of the blocks of inode `c`, as `ind`, begun at (img, sh). */
  datatype Releases = Releases(img: Image, sh: Shape, c: nat, ind: Inode)

  /** It has come to position `p`; a tidy one, of a dead inode, stays in scope. */
  ghost predicate Going(r: Releases, img: Image, sh: Shape, p: nat, tidy: bool, sc: Scope) {
    && Releasing(r.img, r.sh, img, sh, r.c, r.ind, p, if tidy then NONE else r.c)
    && (tidy ==> InScope(sc, img, sh))
  }

  lemma GoingOne(r: Releases, img: Image, sh: Shape, n: nat, b: nat, tidy: bool, sc: Scope)
    requires Going(r, img, sh, Rank(n), tidy, sc) && n < SLOTS && b == At(r.img.blocks, r.ind, n) != 0
    ensures DATA_START <= b < JOURNAL_START
    ensures Going(r, Apply(img, BlockBit(b, false)), Dropped(sh, b), Rank(n) + 1, tidy, sc)
  {
    ReleaseOne(r.img, r.sh, img, sh, r.c, r.ind, n, b);
    ReleaseKeeps(r.img, r.sh, img, sh, r.c, r.ind, n, b, if tidy then NONE else r.c);
    if tidy {
      ScopeBits(sc, img, sh, BlockBit(b, false), Dropped(sh, b));
    }
  }

  /** A live directory's block is one that may be written. */
  lemma DirHome(img: Image, sh: Shape, d: nat)
    requires Safe(img, sh) && d in sh.live && IsDir(img, d)
    ensures var b := img.inodes[d].direct[0]; b == ROOT_DIR_BLOCK || DATA_START <= b < JOURNAL_START
  {
    assert InodeOk(img, sh, d, img.inodes[d]);
    assert At(img.blocks, img.inodes[d], 0) == img.inodes[d].direct[0];
  }
}
