/**
  The file system's operations.  Every block write goes through `Put` or `PutTorn`, which record
  the resulting image, so the history shows what a crash between two block writes would leave.
 */
module FileSystems {
  import opened FsDisk
  import opened FsPaths
  import opened FsShape
  import opened FsSteps
  import opened FsFiles
  import opened FsGrow
  import opened FsStray
  import opened FsWrite
  import opened FsRelease
  import opened FsCreate
  import opened FsExact
  import opened FsWalk
  import opened FsRemove
  import opened FsPwd
  import opened FsCrash

  const MAX_FD: nat := 16

  /** Access mode (0 = read only) and the creation flags of an open call. */
  datatype Flags = Flags(access: nat, create: bool, trunc: bool, append: bool)

  datatype Fd = Fd(used: bool, ino: nat, offset: nat, flags: Flags)

  const NO_FD: Fd := Fd(false, 0, 0, Flags(0, false, false, false))

  // ---------------------------------------------------------------- descriptors

  lemma OneChanged(fds: seq<Fd>, fds': seq<Fd>, fd: int)
    requires |fds'| == |fds| && forall k | 0 <= k < |fds| && k != fd :: fds'[k] == fds[k]
    ensures fds' == if 0 <= fd < |fds| then fds[fd := fds'[fd]] else fds
  {
  }

  /** The descriptor's inode is live if it is marked used; it may have been unlinked, and reused, meanwhile. */
  ghost predicate Known(img: Image, sh: Shape, f: Fd) {
    f.ino < MAX_INODES && f.ino < |img.inodeBits| && (img.inodeBits[f.ino] ==> f.ino in sh.live)
  }

  /** The descriptor's inode is free, yet reads as a file: a failed create left it so. */
  predicate Stale(img: Image, f: Fd)
    requires Sized(img)
  {
    f.ino < MAX_INODES && img.inodes[f.ino].mode == FileMode && !img.inodeBits[f.ino]
  }

  /** A write through the descriptor would go to a left-over inode. */
  predicate Strays(img: Image, f: Fd)
    requires Sized(img)
  {
    f.used && f.flags.access != 0 && Stale(img, f)
  }

  /**
    When a write of `len` bytes through a stale descriptor does no harm: the block that the inode
    names is not written, or it holds nothing but file data.
   */
  predicate Tolerable(img: Image, f: Fd, len: nat)
    requires Sized(img) && f.ino < MAX_INODES
  {
    var ind := img.inodes[f.ino];
    LeftOver(ind) && (f.offset < BLOCK_SIZE && len > 0 ==> OnlyData(img, ind.direct[0]))
  }

  /** The write of `buf` through a descriptor. */
  function Started(img: Image, sh: Shape, f: Fd, buf: seq<Byte>): Job
    requires f.ino < |img.inodes|
  {
    Job(img, Aimed(img, sh, f.ino, f.offset), f.ino, f.offset, buf)
  }

  lemma StartedOk(img: Image, sh: Shape, f: Fd, buf: seq<Byte>)
    requires Safe(img, sh) && Known(img, sh, f) && img.inodes[f.ino].mode == FileMode
    requires Stale(img, f) ==> Tolerable(img, f, |buf|)
    ensures JobOk(Started(img, sh, f, buf))
  {
    AimedSafe(img, sh, f.ino, f.offset);
  }

  /**
    What writing `n` bytes of `buf` through a descriptor does: it writes to a live file, or strays
    from a left-over inode; bytes are left over only when the disk is full or the file has reached
    its last block.
   */
  ghost predicate Written(img0: Image, sh0: Shape, h0: seq<Image>, f: Fd, buf: seq<Byte>, n: nat,
                          img: Image, sh: Shape, h: seq<Image>)
    requires f.ino < |img0.inodes|
  {
    match f
    case Fd(_, i, o, _) =>
      var job := Started(img0, sh0, f, buf);
      && Sized(img) && n <= |buf| && JobOk(job) && Extends(h0, h, WriteScope(job))
      && (if i in sh0.live then Wrote(img0, sh0, img, sh, i, o, buf[..n]) else Strayed(job, img, sh))
      && (n < |buf| ==> AllUsed(img) || (o + n) / BLOCK_SIZE >= MAX_FILE_BLOCKS)
  }

  /** The descriptor refers to a live file without holes and does not point past its end. */
  ghost predicate FdOk(img: Image, sh: Shape, f: Fd) {
    && f.ino in sh.live && f.ino in sh.solid && f.ino < |img.inodes|
    && img.inodes[f.ino].mode == FileMode && f.offset <= img.inodes[f.ino].size
  }

  ghost predicate AllKnown(img: Image, sh: Shape, fds: seq<Fd>) {
    forall k | 0 <= k < |fds| && fds[k].used :: Known(img, sh, fds[k])
  }

  /** Descriptors stay known as long as inodes are marked only when they become live, and unmarked when they die. */
  lemma KnownKept(img0: Image, sh0: Shape, img: Image, sh: Shape, fds: seq<Fd>)
    requires Sized(img0) && Sized(img) && AllKnown(img0, sh0, fds)
    requires forall j | 0 <= j < MAX_INODES && img.inodeBits[j] ::
               j in sh.live || (img0.inodeBits[j] && j !in sh0.live)
    ensures AllKnown(img, sh, fds)
  {
  }

  /** After a removal, descriptors are known and directories other than the removed one stay. */
  lemma AfterDelete(img0: Image, sh0: Shape, img: Image, sh: Shape, d: nat, k: nat, c: nat, cwd: nat, fds: seq<Fd>)
    requires Deleted(img0, sh0, img, sh, d, k, c) && AllKnown(img0, sh0, fds)
    requires cwd in sh0.live && img0.inodes[cwd].mode == DirMode
    ensures AllKnown(img, sh, fds) && 0 in sh.live && img.inodes[0].mode == DirMode
    ensures cwd != c ==> cwd in sh.live && img.inodes[cwd].mode == DirMode
  {
    DeletedDir(img0, sh0, img, sh, d, k, c, cwd);
    KnownKept(img0, sh0, img, sh, fds);
  }

  lemma AfterCreate(img0: Image, sh0: Shape, img: Image, sh: Shape, d: nat, name: string, mode: Mode, i: nat,
                    cwd: nat, fds: seq<Fd>)
    requires Created(img0, sh0, img, sh, d, name, mode, i) && AllKnown(img0, sh0, fds) && cwd in sh0.live
    ensures AllKnown(img, sh, fds) && cwd in sh.live && img.inodes[cwd] == img0.inodes[cwd]
  {
    CreatedDir(img0, sh0, img, sh, d, name, mode, i, cwd);
    KnownKept(img0, sh0, img, sh, fds);
  }

  lemma AfterWrite(img0: Image, sh0: Shape, img: Image, sh: Shape, i: nat, o: nat, data: seq<Byte>,
                   cwd: nat, fds: seq<Fd>, fds': seq<Fd>)
    requires Wrote(img0, sh0, img, sh, i, o, data) && AllKnown(img0, sh0, fds) && |fds'| == |fds|
    requires forall k | 0 <= k < |fds| :: fds'[k].used == fds[k].used && fds'[k].ino == fds[k].ino
    requires cwd in sh0.live && img0.inodes[cwd].mode == DirMode
    ensures AllKnown(img, sh, fds') && cwd in sh.live && img.inodes[cwd].mode == DirMode
  {
    WroteDir(img0, sh0, img, sh, i, o, data, cwd);
  }

  lemma AfterStray(job: Job, img: Image, sh: Shape, cwd: nat, fds: seq<Fd>, fds': seq<Fd>)
    requires Strayed(job, img, sh) && AllKnown(job.img, job.sh, fds) && |fds'| == |fds|
    requires forall k | 0 <= k < |fds| :: fds'[k].used == fds[k].used && fds'[k].ino == fds[k].ino
    requires cwd in job.sh.live && job.img.inodes[cwd].mode == DirMode
    ensures AllKnown(img, sh, fds') && cwd in sh.live && img.inodes[cwd].mode == DirMode
  {
  }

  lemma AfterFailure(img0: Image, sh0: Shape, img: Image, sh: Shape, cwd: nat, fds: seq<Fd>)
    requires Restored(img0, sh0, img, sh) && AllKnown(img0, sh0, fds) && cwd in sh0.live
    ensures AllKnown(img, sh, fds) && cwd in sh.live && img.inodes[cwd] == img0.inodes[cwd]
  {
  }

  /** How many bytes a read may return at most. */
  function Wanted(size: nat, offset: nat, count: nat): (n: nat)
    ensures n <= count && (n > 0 ==> offset + n <= size) && (n < count ==> offset + n >= size)
  {
    if offset >= size then 0 else if count > size - offset then size - offset else count
  }

  // ---------------------------------------------------------------- creating

  /** What create_inode returns. */
  function CreateCode(img: Image, parent: nat, name: string): int
    requires Sized(img)
  {
    if Lookup(img, parent, name).Inum? then -2
    else if FirstInode(img) == MAX_INODES then -3
    else if FirstBlock(img) == JOURNAL_START then -4
    else if !IsDir(img, parent) || FindHole(Listing(img, parent), 0) == DIR_ENTRIES then -5
    else 0
  }

  /** Entry of `d` that dir_add would take. */
  predicate HasHole(img: Image, d: nat)
    requires Sized(img)
  {
    IsDir(img, d) && exists k | 0 <= k < DIR_ENTRIES :: Listing(img, d)[k].ino == INVALID
  }

  predicate InodeLeft(img: Image)
    requires Sized(img)
  {
    exists i | 0 <= i < MAX_INODES :: !img.inodeBits[i]
  }

  predicate BlockLeft(img: Image)
    requires Sized(img)
  {
    exists b | DATA_START <= b < JOURNAL_START :: !img.blockBits[b]
  }

  /** What create_inode's codes mean; it succeeds if the name is new and an inode, a block and an entry are free. */
  lemma CreateCodes(img: Image, d: nat, name: string)
    requires Sized(img)
    ensures var code, known := CreateCode(img, d, name), Lookup(img, d, name) != Missing;
            && (code == -2 <==> known)
            && (code == -3 <==> !known && !InodeLeft(img))
            && (code == -4 <==> !known && InodeLeft(img) && !BlockLeft(img))
            && (code == -5 <==> !known && InodeLeft(img) && BlockLeft(img) && !HasHole(img, d))
            && (code == 0 <==> !known && InodeLeft(img) && BlockLeft(img) && HasHole(img, d))
  {
    var i, b := FirstInode(img), FirstBlock(img);
    assert i < MAX_INODES ==> !img.inodeBits[i];
    assert b < JOURNAL_START ==> !img.blockBits[b];
    if IsDir(img, d) {
      var k := FindHole(Listing(img, d), 0);
      assert k < DIR_ENTRIES ==> Listing(img, d)[k].ino == INVALID;
    }
  }

  /** The image after a create that failed with -5: its inode and block are free again, but still written. */
  function Litter(img: Image, mode: Mode, parent: nat): Image
    requires Sized(img) && Available(img, FirstInode(img), FirstBlock(img))
  {
    var i, b := FirstInode(img), FirstBlock(img);
    Discarded(Prepared(img, i, b, mode, parent), i, b)
  }

  /** What a failed create leaves: nothing at all, or its litter. */
  predicate LeftBy(img0: Image, img: Image, mode: Mode, parent: nat, name: string)
    requires Sized(img0)
  {
    if CreateCode(img0, parent, name) == -5
    then Available(img0, FirstInode(img0), FirstBlock(img0)) && img == Litter(img0, mode, parent)
    else img == img0
  }

  /** A failed operation: the bitmaps and all live inodes are as before. */
  ghost predicate Restored(img0: Image, sh0: Shape, img: Image, sh: Shape) {
    && Safe(img0, sh0) && Safe(img, sh) && sh == sh0
    && img.blockBits == img0.blockBits && img.inodeBits == img0.inodeBits
    && (forall j | j in sh0.live :: Untouched(img0, img, j))
    && (Exact(img0, sh0) ==> Exact(img, sh))
  }

  lemma RestoredSelf(img: Image, sh: Shape)
    requires Safe(img, sh)
    ensures Restored(img, sh, img, sh)
  {
  }

  /**
    From (img0, sh0) to (img, sh), the path was opened as file `ino`: it was there or came into
    being, and then lost its contents if that was asked for.
   */
  ghost predicate Opened(img0: Image, sh0: Shape, img: Image, sh: Shape, path: string, cwd: nat, trunc: bool, ino: nat)
    requires Sized(img0)
  {
    exists mid, midsh ::
      && MidOpen(img0, sh0, mid, midsh, path, cwd, ino)
      && if trunc then Truncated(mid, midsh, img, sh, ino) else img == mid && sh == midsh
  }

  /** The first half: found or created. */
  ghost predicate MidOpen(img0: Image, sh0: Shape, mid: Image, midsh: Shape, path: string, cwd: nat, ino: nat)
    requires Sized(img0)
  {
    match Resolve(img0, path, cwd)
    case Inum(i) => ino == i && mid == img0 && midsh == sh0
    case Missing =>
      match Split(img0, path, cwd)
      case NoParent => false
      case ParentOf(d, name) => Created(img0, sh0, mid, midsh, d, name, FileMode, ino)
  }

  // ---------------------------------------------------------------- removing

  /** What fs_unlink returns. */
  function UnlinkCode(img: Image, path: string, cwd: nat): int
    requires Sized(img)
  {
    match Split(img, path, cwd)
    case NoParent => -2
    case ParentOf(d, name) =>
      match Lookup(img, d, name)
      case Missing => -3
      case Inum(c) => if c == 0 then -4 else if IsDir(img, c) && !EmptyDir(Listing(img, c)) then -5 else 0
  }

  /** What fs_unlink's codes mean; it succeeds for every file and every empty directory but the root. */
  lemma UnlinkCodes(img: Image, path: string, cwd: nat)
    requires Sized(img)
    ensures var code, p := UnlinkCode(img, path, cwd), Split(img, path, cwd);
            && (code == -2 <==> p == NoParent)
            && (p.ParentOf? ==>
                var r := Lookup(img, p.dir, p.name);
                && (code == -3 <==> r == Missing)
                && (code == -4 <==> r == Inum(0))
                && (r.Inum? && r.ino != 0 ==>
                    && code in {0, -5}
                    && (code == -5 <==> IsDir(img, r.ino)
                                        && exists k | 2 <= k < DIR_ENTRIES :: Listing(img, r.ino)[k].ino != INVALID)))
  {
  }

  /** Whether inode `c` is something other than a directory with entries. */
  method CheckEmpty(img: Image, c: nat) returns (empty: bool)
    requires Sized(img)
    ensures empty <==> IsDir(img, c) ==> EmptyDir(Listing(img, c))
  {
    if !IsDir(img, c) {
      return true;
    }
    var entries := Listing(img, c);
    var k := 2;
    while k < DIR_ENTRIES
      invariant 2 <= k <= DIR_ENTRIES && forall j | 2 <= j < k :: entries[j].ino == INVALID
    {
      if entries[k].ino != INVALID {
        return false;
      }
      k := k + 1;
    }
    return true;
  }

  // ---------------------------------------------------------------- opening

  /** What fs_open returns before it comes to truncation and descriptors, 0 for no error. */
  function OpenError(img: Image, path: string, cwd: nat, create: bool): int
    requires Sized(img)
  {
    match Resolve(img, path, cwd)
    case Inum(i) => if i < MAX_INODES && img.inodes[i].mode == FileMode then 0 else -5
    case Missing =>
      if !create then -2
      else match Split(img, path, cwd)
        case NoParent => -3
        case ParentOf(d, name) => if CreateCode(img, d, name) != 0 then -4 else 0
  }

  /** The path leads to a file, or one can be created there as asked. */
  predicate Openable(img: Image, path: string, cwd: nat, create: bool)
    requires Sized(img)
  {
    match Resolve(img, path, cwd)
    case Inum(i) => i < MAX_INODES && img.inodes[i].mode == FileMode
    case Missing =>
      match Split(img, path, cwd)
      case NoParent => false
      case ParentOf(d, name) =>
        create && Lookup(img, d, name) == Missing && InodeLeft(img) && BlockLeft(img) && HasHole(img, d)
  }

  /** What fs_open's codes mean. */
  lemma OpenCodes(img: Image, path: string, cwd: nat, create: bool)
    requires Sized(img)
    ensures var code, r, p := OpenError(img, path, cwd, create), Resolve(img, path, cwd), Split(img, path, cwd);
            && (code == 0 <==> Openable(img, path, cwd, create))
            && (code == -5 <==> r.Inum? && !(r.ino < MAX_INODES && img.inodes[r.ino].mode == FileMode))
            && (code == -2 <==> r.Missing? && !create)
            && (code == -3 <==> r.Missing? && create && p == NoParent)
            && (code == -4 <==> r.Missing? && create && p.ParentOf? && !Openable(img, path, cwd, create))
  {
    var p := Split(img, path, cwd);
    if p.ParentOf? {
      CreateCodes(img, p.dir, p.name);
    }
  }

  lemma OpenSucceeds(img: Image, path: string, cwd: nat, create: bool)
    requires Sized(img)
    ensures OpenError(img, path, cwd, create) == 0 <==> Openable(img, path, cwd, create)
  {
    OpenCodes(img, path, cwd, create);
  }

  /** What a failed open leaves. */
  predicate OpenLitter(img0: Image, img: Image, path: string, cwd: nat, create: bool)
    requires Sized(img0)
  {
    if OpenError(img0, path, cwd, create) == -4
    then var p := Split(img0, path, cwd); LeftBy(img0, img, FileMode, p.dir, p.name)
    else img == img0
  }

  /** What the creation part of an open may do. */
  function OpenScope(img: Image, sh: Shape, path: string, cwd: nat): Scope
    requires Sized(img)
  {
    match Split(img, path, cwd)
    case NoParent => Scope(img, sh.live, sh.live, {}, sh.solid)
    case ParentOf(d, _) => CreateScope(img, sh, d)
  }

  lemma RootLives(img: Image, sh: Shape)
    requires Safe(img, sh)
    ensures 0 in sh.live && img.inodes[0].mode == DirMode
  {
  }

  class FileSystem {
    var img: Image
    const fds: array<Fd>
    var cwd: nat
    var history: seq<Image>
    /** Indices of the images that lie inside a truncation. */
    var torn: set<nat>
    ghost var shape: Shape

    /**
      The history goes by single block writes up to the current image, and all of it is safe but for
      what lies inside truncations.
     */
    ghost predicate Recorded()
      reads this
    {
      && |history| > 0 && Sized(history[0]) && Logged(history[..1], history) && history[|history| - 1] == img
      && forall k | 0 <= k < |history| && k !in torn :: SafeImage(history[k])
    }

    /** The image is consistent, the working directory is a live directory, and descriptors are known. */
    ghost predicate Valid()
      reads this, fds
    {
      && fds.Length == MAX_FD && Recorded() && Safe(img, shape)
      && cwd in shape.live && img.inodes[cwd].mode == DirMode
      && AllKnown(img, shape, fds[..])
    }

    /** fs_init on a disk without a valid superblock: fs_format, which does not go through the journal. */
    constructor Format()
      ensures Valid() && Exact(img, shape) && img == Formatted() && shape == ROOT_SHAPE
      ensures cwd == 0 && history == [img] && torn == {} && fresh(fds)
      ensures forall k | 0 <= k < MAX_FD :: !fds[k].used
    {
      var disk := Image(seq(BLOCK_COUNT, _ => false), seq(MAX_INODES, _ => false),
                        seq(MAX_INODES, _ => ZERO_INODE), seq(BLOCK_COUNT, _ => ZeroBlock()));
      var i: nat := 0;
      while i < DATA_START
        invariant i <= DATA_START && Sized(disk)
        invariant forall b | 0 <= b < BLOCK_COUNT :: disk.blockBits[b] <==> b < i
        invariant disk.inodeBits == seq(MAX_INODES, _ => false)
        invariant disk.inodes == seq(MAX_INODES, _ => ZERO_INODE) && disk.blocks == seq(BLOCK_COUNT, _ => ZeroBlock())
      {
        disk := Apply(disk, BlockBit(i, true));
        i := i + 1;
      }
      i := JOURNAL_START;
      while i < BLOCK_COUNT
        invariant JOURNAL_START <= i <= BLOCK_COUNT && Sized(disk)
        invariant forall b | 0 <= b < BLOCK_COUNT :: disk.blockBits[b] <==> b < DATA_START || JOURNAL_START <= b < i
        invariant disk.inodeBits == seq(MAX_INODES, _ => false)
        invariant disk.inodes == seq(MAX_INODES, _ => ZERO_INODE) && disk.blocks == seq(BLOCK_COUNT, _ => ZeroBlock())
      {
        disk := Apply(disk, BlockBit(i, true));
        i := i + 1;
      }
      disk := Apply(disk, InodeBit(0, true));
      disk := Apply(disk, PutInode(0, ROOT));
      disk := Apply(disk, PutBlock(ROOT_DIR_BLOCK, FreshDir(0, 0)));
      assert disk == Formatted();
      FormattedExact();
      img, cwd, history, torn, shape := disk, 0, [disk], {}, ROOT_SHAPE;
      fds := new Fd[MAX_FD](_ => NO_FD);
      new;
      RootLives(img, shape);
    }

    /** fs_init on a disk with a valid superblock, for instance after a crash: any safe image will do. */
    constructor Mount(disk: Image, ghost sh: Shape)
      requires Safe(disk, sh)
      ensures Valid() && img == disk && shape == sh && cwd == 0 && history == [disk] && torn == {} && fresh(fds)
      ensures forall k | 0 <= k < MAX_FD :: !fds[k].used
    {
      img, cwd, history, torn, shape := disk, 0, [disk], {}, sh;
      fds := new Fd[MAX_FD](_ => NO_FD);
      new;
      RootLives(img, shape);
    }

    // -------------------------------------------------------------- block writes

    /** ramdisk_write_block, at a point where a crash is covered. */
    method Put(w: Write, ghost sh: Shape, ghost sc: Scope)
      requires Sized(img) && Recorded() && Homed(w) && InScope(sc, Apply(img, w), sh)
      modifies this`img, this`shape, this`history
      ensures img == Apply(old(img), w) && shape == sh && Recorded() && Extends(old(history), history, sc)
      ensures |history| == |old(history)| + 1
    {
      ExtendsOne(history, img, w, sc, sh);
      LoggedTrans(history[..1], history, history + [Apply(img, w)]);
      img := Apply(img, w);
      history := history + [img];
      shape := sh;
    }

    /** ramdisk_write_block inside a truncation. */
    method PutTorn(w: Write, ghost sh: Shape, ghost sc: Scope)
      requires Sized(img) && Recorded() && Homed(w)
      modifies this`img, this`shape, this`history, this`torn
      ensures img == Apply(old(img), w) && shape == sh && Recorded()
      ensures Goes(old(history), old(torn), history, torn, sc, false)
    {
      LoggedOne(history, img, w);
      LoggedTrans(history[..1], history, history + [Apply(img, w)]);
      torn := torn + {|history|};
      img := Apply(img, w);
      history := history + [img];
      shape := sh;
      assert Span(|history| - 1, |history|) == {|history| - 1};
    }

    /** alloc_block: the lowest free block, marked and zeroed, or -1 when none is left. */
    method AllocBlock(ghost s: Slot, ghost sc: Scope) returns (b: int)
      requires Recorded() && InScope(sc, img, shape)
      modifies this`img, this`shape, this`history
      ensures Recorded() && InScope(sc, img, shape) && Extends(old(history), history, sc)
      ensures b == if FirstBlock(old(img)) == JOURNAL_START then -1 else FirstBlock(old(img))
      ensures b == -1 ==> AllUsed(img) && img == old(img) && shape == old(shape) && history == old(history)
      ensures b >= 0 ==> Free(old(img), b) && img == Allocated(old(img), b) && shape == Registered(old(shape), b, s)
    {
      var c := DATA_START;
      while c < JOURNAL_START
        invariant DATA_START <= c <= JOURNAL_START
        invariant FirstBlock(img) == FirstClear(img.blockBits, c, JOURNAL_START)
        invariant img == old(img) && shape == old(shape) && history == old(history)
      {
        if !img.blockBits[c] {
          ScopeAlloc(sc, img, shape, c, s);
          Put(BlockBit(c, true), Registered(shape, c, s), sc);
          ghost var h := history;
          Put(PutBlock(c, ZeroBlock()), shape, sc);
          ExtendsTrans(old(history), h, history, sc);
          return c;
        }
        c := c + 1;
      }
      return -1;
    }

    /** alloc_inode: the lowest free inode, marked, or -1. */
    method AllocInode(ghost sc: Scope) returns (i: int)
      requires Recorded() && InScope(sc, img, shape)
      modifies this`img, this`shape, this`history
      ensures Recorded() && InScope(sc, img, shape) && shape == old(shape) && Extends(old(history), history, sc)
      ensures i == if FirstInode(old(img)) == MAX_INODES then -1 else FirstInode(old(img))
      ensures i == -1 ==> img == old(img) && history == old(history)
      ensures i >= 0 ==> img == Apply(old(img), InodeBit(i, true)) && i !in shape.live && i != 0
    {
      var j := 0;
      while j < MAX_INODES
        invariant 0 <= j <= MAX_INODES && FirstInode(img) == FirstClear(img.inodeBits, j, MAX_INODES)
        invariant img == old(img) && shape == old(shape) && history == old(history)
      {
        if !img.inodeBits[j] {
          assert j !in shape.live;
          ScopeHarmless(sc, img, shape, InodeBit(j, true));
          Put(InodeBit(j, true), shape, sc);
          return j;
        }
        j := j + 1;
      }
      return -1;
    }

    // -------------------------------------------------------------- the blocks of a file

    /**
      block_for_inode with allocation: the block behind the `logical`-th block of a file, allocated on
      demand.  The inode need not be live; then its first direct block is not its own.
     */
    method BlockForInode(ghost i: nat, ind: Inode, logical: nat, ghost sc: Scope) returns (b: int, ind': Inode)
      requires Recorded() && InScope(sc, img, shape) && i in sc.target && 0 < i < MAX_INODES
      requires i in shape.live ==> img.inodes[i].mode == FileMode
      requires |ind.direct| == 8 && ind.mode == FileMode && InodeOk(img, shape, i, Own(shape, i, ind))
      requires i !in shape.live ==> ind.direct[0] != 0
      modifies this`img, this`shape, this`history
      ensures Recorded() && Extends(old(history), history, sc)
      ensures |ind'.direct| == 8 && (i !in old(shape).live ==> ind'.direct[0] == ind.direct[0])
      ensures Grown(old(img), old(shape), Own(old(shape), i, ind), img, shape, Own(old(shape), i, ind'), i)
      ensures logical < 8 && ind.direct[logical] != 0 ==> img == old(img) && shape == old(shape) && ind' == ind && b > 0
      ensures b == -1 ==> logical >= 8 + PTRS || AllUsed(img)
      ensures b != -1 ==> logical < 8 + PTRS && b == At(img.blocks, ind', DataSlot(logical)) != 0
    {
      ind' := ind;
      ghost var own := Own(shape, i, ind);
      if logical < 8 {
        b, ind' := DirectBlock(i, ind, logical, sc);
        return;
      }
      var l := logical - 8;
      if l >= PTRS {
        GrownSelf(img, shape, own, i);
        return -1, ind';
      }
      if ind.indirect != 0 {
        b := TableEntry(i, own, ind.indirect, l, sc);
      } else {
        var t;
        b, t := FirstEntry(i, own, l, sc);
        ind' := ind.(indirect := t);
      }
    }

    /** A direct slot. */
    method DirectBlock(ghost i: nat, ind: Inode, n: nat, ghost sc: Scope) returns (b: int, ind': Inode)
      requires Recorded() && InScope(sc, img, shape)
      requires |ind.direct| == 8 && ind.mode == FileMode && InodeOk(img, shape, i, Own(shape, i, ind)) && n < 8
      requires i !in shape.live ==> ind.direct[0] != 0
      modifies this`img, this`shape, this`history
      ensures Recorded() && Extends(old(history), history, sc)
      ensures |ind'.direct| == 8 && (i !in old(shape).live ==> ind'.direct[0] == ind.direct[0])
      ensures Grown(old(img), old(shape), Own(old(shape), i, ind), img, shape, Own(old(shape), i, ind'), i)
      ensures ind.direct[n] != 0 ==> img == old(img) && shape == old(shape) && ind' == ind && b > 0
      ensures if b == -1 then AllUsed(img) else b == At(img.blocks, ind', n) != 0
    {
      ind' := ind;
      ghost var own := Own(shape, i, ind);
      GrownSelf(img, shape, own, i);
      if ind.direct[n] == 0 {
        var c := AllocBlock(Slot(i, n), sc);
        if c < 0 {
          return -1, ind';
        }
        GrowDirect(old(img), old(shape), i, own, n, c);
        ind' := ind.(direct := ind.direct[n := c]);
        assert Own(old(shape), i, ind').direct == own.direct[n := c];
      }
      return ind'.direct[n], ind';
    }

    /** An entry of a pointer table that does not exist yet; `t` is the new table, 0 for none. */
    method FirstEntry(ghost i: nat, ghost ind: Inode, l: nat, ghost sc: Scope) returns (b: int, t: nat)
      requires Recorded() && InScope(sc, img, shape) && i in sc.target
      requires i in shape.live ==> img.inodes[i].mode == FileMode
      requires InodeOk(img, shape, i, ind) && ind.mode == FileMode && ind.indirect == 0
      requires 0 < i < MAX_INODES && l < PTRS
      modifies this`img, this`shape, this`history
      ensures Recorded() && Extends(old(history), history, sc)
      ensures Grown(old(img), old(shape), ind, img, shape, ind.(indirect := t), i)
      ensures if b == -1 then AllUsed(img) else b == At(img.blocks, ind.(indirect := t), 9 + l) != 0
    {
      var c := AddTable(i, ind, sc);
      if c < 0 {
        GrownSelf(img, shape, ind, i);
        assert ind.(indirect := 0) == ind;
        return -1, 0;
      }
      t := c;
      ghost var mid, sh, h, ind' := img, shape, history, ind.(indirect := t);
      ScopeGrown(sc, old(img), old(shape), ind, mid, sh, ind', i);
      b := TableEntry(i, ind', t, l, sc);
      GrownTrans(old(img), old(shape), ind, mid, sh, ind', img, shape, ind', i);
      ExtendsTrans(old(history), h, history, sc);
    }

    /** The `l`-th entry of the pointer table `t` of a file. */
    method TableEntry(ghost i: nat, ghost ind: Inode, t: nat, l: nat, ghost sc: Scope) returns (b: int)
      requires Recorded() && InScope(sc, img, shape) && i in sc.target
      requires i in shape.live ==> img.inodes[i].mode == FileMode
      requires InodeOk(img, shape, i, ind) && ind.mode == FileMode && t == ind.indirect != 0
      requires 0 < i < MAX_INODES && l < PTRS
      modifies this`img, this`shape, this`history
      ensures Recorded() && Extends(old(history), history, sc)
      ensures Grown(old(img), old(shape), ind, img, shape, ind, i)
      ensures b == -1 ==> AllUsed(img)
      ensures b != -1 ==> b == At(img.blocks, ind, 9 + l) != 0
    {
      assert At(img.blocks, ind, TABLE) == t;
      GrownSelf(img, shape, ind, i);
      var ptrs := img.blocks[t].ptrs;
      b := ptrs[l];
      if b == 0 {
        b := NewEntry(i, ind, t, ptrs, l, sc);
      }
    }

    /** A fresh block for an empty entry of the pointer table. */
    method NewEntry(ghost i: nat, ghost ind: Inode, t: nat, ptrs: seq<nat>, l: nat, ghost sc: Scope)
      returns (b: int)
      requires Recorded() && InScope(sc, img, shape) && i in sc.target
      requires i in shape.live ==> img.inodes[i].mode == FileMode
      requires InodeOk(img, shape, i, ind) && ind.mode == FileMode && t == ind.indirect
      requires DATA_START <= t < JOURNAL_START && img.blocks[t] == Ptrs(ptrs)
      requires |ptrs| == PTRS && l < PTRS && ptrs[l] == 0
      modifies this`img, this`shape, this`history
      ensures Recorded() && Extends(old(history), history, sc)
      ensures Grown(old(img), old(shape), ind, img, shape, ind, i)
      ensures if b == -1 then AllUsed(img) else b == At(img.blocks, ind, 9 + l) != 0
    {
      GrownSelf(img, shape, ind, i);
      b := AllocBlock(Slot(i, 9 + l), sc);
      if b >= 0 {
        ghost var h := history;
        GrowEntry(old(img), old(shape), i, ind, l, b);
        TableKept(old(img), old(shape), i, ind, b);
        ScopeGrown(sc, old(img), old(shape), ind, EntryMade(old(img), t, l, b), shape, ind, i);
        Put(PutBlock(t, Ptrs(ptrs[l := b])), shape, sc);
        ExtendsTrans(old(history), h, history, sc);
      }
    }

    /** The pointer table of a file that has none. */
    method AddTable(ghost i: nat, ghost ind: Inode, ghost sc: Scope) returns (t: int)
      requires Recorded() && InScope(sc, img, shape) && i in sc.target
      requires InodeOk(img, shape, i, ind) && ind.mode == FileMode && ind.indirect == 0
      modifies this`img, this`shape, this`history
      ensures Recorded() && Extends(old(history), history, sc) && t >= -1
      ensures t == -1 ==> AllUsed(img) && img == old(img) && shape == old(shape) && history == old(history)
      ensures t >= 0 ==> t != 0 && Grown(old(img), old(shape), ind, img, shape, ind.(indirect := t), i)
    {
      t := AllocBlock(Slot(i, TABLE), sc);
      if t >= 0 {
        ghost var h := history;
        GrowTable(old(img), old(shape), i, ind, t);
        ScopeGrown(sc, old(img), old(shape), ind, TableMade(old(img), t), shape, ind.(indirect := t), i);
        Put(PutBlock(t, Ptrs(ZeroPtrs())), shape, sc);
        ExtendsTrans(old(history), h, history, sc);
      }
    }

    /** block_for_inode without allocation; 0 is a hole. */
    method FindBlock(ind: Inode, logical: nat) returns (b: int)
      requires Sized(img) && |ind.direct| == 8
      ensures b == if logical < 8 + PTRS then At(img.blocks, ind, DataSlot(logical)) else -1
    {
      if logical < 8 {
        return ind.direct[logical];
      }
      if logical - 8 >= PTRS {
        return -1;
      }
      if ind.indirect == 0 || ind.indirect >= BLOCK_COUNT {
        return 0;
      }
      return PtrsOf(img.blocks[ind.indirect])[logical - 8];
    }

    // -------------------------------------------------------------- writing

    /**
      fs_write, for any descriptor, but through a stale one only where that is tolerable.  No live
      inode but the file is touched, and every block write is a crash point that shows all others
      untouched.  From an offset within the file, exactly the bytes taken are replaced, extending
      the file as needed.  Bytes are left over only when the disk is full or, past the end, when the
      file has reached its last block.  A write through a stale descriptor amounts, for everything
      live, to one write of the block that its inode names.
     */
    method Write(fd: int, buf: seq<Byte>) returns (n: int)
      requires Valid()
      requires 0 <= fd < MAX_FD && Strays(img, fds[fd]) ==> Tolerable(img, fds[fd], |buf|)
      modifies this`img, this`shape, this`history, fds
      ensures Valid()
      ensures n == -1 <==>
                !(0 <= fd < MAX_FD && old(fds[fd]).used && old(fds[fd]).flags.access != 0
                  && old(img).inodes[old(fds[fd]).ino].mode == FileMode)
      ensures n == -1 ==> img == old(img) && shape == old(shape) && history == old(history)
      ensures n == -1 ==> fds[..] == old(fds[..])
      ensures n != -1 ==>
                0 <= n <= |buf| && fds[..] == old(fds[..])[fd := old(fds[fd]).(offset := old(fds[fd]).offset + n)]
      ensures n != -1 ==>
                Written(old(img), old(shape), old(history), old(fds[fd]), buf, n, img, shape, history)
      ensures 0 <= n < |buf| && FdOk(old(img), old(shape), old(fds[fd])) ==> AllUsed(img)
    {
      if fd < 0 || fd >= MAX_FD || !fds[fd].used {
        return -1;
      }
      if fds[fd].flags.access == 0 {
        return -1;
      }
      var i := fds[fd].ino;
      if img.inodes[i].mode != FileMode {
        return -1;
      }
      StartedOk(img, shape, fds[fd], buf);
      n := WriteThrough(fd, i, buf);
      OneChanged(old(fds[..]), fds[..], fd);
    }

    /** The call goes through. */
    method WriteThrough(fd: nat, i: nat, buf: seq<Byte>) returns (n: nat)
      requires Valid() && fd < MAX_FD && fds[fd].used && fds[fd].ino == i
      requires JobOk(Started(img, shape, fds[fd], buf))
      modifies this`img, this`shape, this`history, fds
      ensures Valid() && fds[fd] == old(fds[fd]).(offset := old(fds[fd]).offset + n)
      ensures forall k | 0 <= k < MAX_FD && k != fd :: fds[k] == old(fds[k])
      ensures Written(old(img), old(shape), old(history), old(fds[fd]), buf, n, img, shape, history)
      ensures n < |buf| && FdOk(old(img), old(shape), old(fds[fd])) ==> AllUsed(img)
    {
      ghost var o, job := fds[fd].offset, Started(img, shape, fds[fd], buf);
      n := WriteFile(fd, i, buf);
      if i in old(shape).live {
        AfterWrite(old(img), old(shape), img, shape, i, o, buf[..n], cwd, old(fds[..]), fds[..]);
      } else {
        AfterStray(job, img, shape, cwd, old(fds[..]), fds[..]);
      }
    }

    /** The body of fs_write. */
    method WriteFile(fd: nat, i: nat, buf: seq<Byte>) returns (n: nat)
      requires Recorded() && Safe(img, shape) && fds.Length == MAX_FD && fd < MAX_FD && fds[fd].ino == i < MAX_INODES
      requires JobOk(Started(img, shape, fds[fd], buf))
      modifies this`img, this`shape, this`history, fds
      ensures Recorded() && n <= |buf| && fds[fd] == old(fds[fd]).(offset := old(fds[fd]).offset + n)
      ensures forall k | 0 <= k < MAX_FD && k != fd :: fds[k] == old(fds[k])
      ensures Written(old(img), old(shape), old(history), old(fds[fd]), buf, n, img, shape, history)
      ensures n < |buf| && FdOk(old(img), old(shape), old(fds[fd])) ==> AllUsed(img)
    {
      ghost var job := Started(img, shape, fds[fd], buf);
      shape := job.sh;
      var ind;
      ind, n := CopyIn(fd, i, buf, job);
      ghost var h := history;
      FinishWrite(i, ind, job, old(shape), n);
      ExtendsTrans(old(history), h, history, WriteScope(job));
    }

    /** The loop of fs_write: block by block, with the inode in memory. */
    method CopyIn(fd: nat, i: nat, buf: seq<Byte>, ghost job: Job) returns (ind: Inode, done: nat)
      requires Recorded() && fds.Length == MAX_FD && fd < MAX_FD && fds[fd].ino == i < MAX_INODES
      requires JobOk(job) && job == Job(img, shape, i, fds[fd].offset, buf)
      modifies this`img, this`shape, this`history, fds
      ensures Recorded() && Extends(old(history), history, WriteScope(job))
      ensures Copying(job, img, shape, ind, done) && !(Strikes(job) && done == 0)
      ensures fds[fd] == old(fds[fd]).(offset := job.o + done)
      ensures forall k | 0 <= k < MAX_FD && k != fd :: fds[k] == old(fds[k])
      ensures done < |buf| ==> AllUsed(img) || (job.o + done) / BLOCK_SIZE >= MAX_FILE_BLOCKS
      ensures done < |buf| && i in job.sh.solid ==> AllUsed(img)
    {
      ind := img.inodes[i];
      CopyingStart(job);
      done := 0;
      while done < |buf|
        invariant Recorded() && Extends(old(history), history, WriteScope(job))
        invariant Copying(job, img, shape, ind, done)
        invariant fds[fd] == old(fds[fd]).(offset := job.o + done)
        invariant forall k | 0 <= k < MAX_FD && k != fd :: fds[k] == old(fds[k])
      {
        CopyingRoom(job, img, shape, ind, done);
        if fds[fd].offset / BLOCK_SIZE >= MAX_FILE_BLOCKS {
          break;
        }
        ghost var h := history;
        var b;
        b, ind, done := CopyTurn(fd, i, ind, buf, done, job);
        ExtendsTrans(old(history), h, history, WriteScope(job));
        if b <= 0 {
          break;
        }
      }
    }

    /** One turn of the loop, with the offset moved on. */
    method CopyTurn(fd: nat, i: nat, ind: Inode, buf: seq<Byte>, done: nat, ghost job: Job)
      returns (b: int, ind': Inode, done': nat)
      requires Recorded() && Copying(job, img, shape, ind, done) && i == job.i && buf == job.buf && done < |buf|
      requires fds.Length == MAX_FD && fd < MAX_FD && fds[fd].offset == job.o + done
      requires (job.o + done) / BLOCK_SIZE < MAX_FILE_BLOCKS
      modifies this`img, this`shape, this`history, fds
      ensures Recorded() && Extends(old(history), history, WriteScope(job))
      ensures Copying(job, img, shape, ind', done')
      ensures if b <= 0 then AllUsed(img) && done' == done && !(Strikes(job) && done == 0) else done < done'
      ensures fds[fd] == old(fds[fd]).(offset := job.o + done')
      ensures forall k | 0 <= k < MAX_FD && k != fd :: fds[k] == old(fds[k])
    {
      var take;
      b, ind', take := WriteChunk(i, ind, fds[fd].offset, buf, done, job);
      done' := if b <= 0 then done else done + take;
      fds[fd] := fds[fd].(offset := fds[fd].offset + (done' - done));
    }

    /** The inode goes back to disk. */
    method FinishWrite(i: nat, ind: Inode, ghost job: Job, ghost sh0: Shape, ghost n: nat)
      requires Recorded() && Copying(job, img, shape, ind, n) && i == job.i && !(Strikes(job) && n == 0)
      requires Safe(job.img, sh0) && job.sh == Aimed(job.img, sh0, i, job.o)
      modifies this`img, this`shape, this`history
      ensures Recorded() && Extends(old(history), history, WriteScope(job)) && img.blockBits == old(img).blockBits
      ensures if i in sh0.live then Wrote(job.img, sh0, img, shape, i, job.o, job.buf[..n])
              else Strayed(job, img, shape)
    {
      if i in sh0.live {
        WroteEnd(job, sh0, img, shape, ind, n);
      } else {
        StrayedEnd(job, img, shape, ind, n);
      }
      ScopeStored(job, img, shape, ind, n);
      Put(PutInode(i, ind), shape, WriteScope(job));
    }

    /** One turn of the loop: the block under `at` takes what fits of the rest of `buf`. */
    method WriteChunk(i: nat, ind: Inode, at: nat, buf: seq<Byte>, done: nat, ghost job: Job)
      returns (b: int, ind': Inode, take: nat)
      requires Recorded() && Copying(job, img, shape, ind, done) && i == job.i && buf == job.buf
      requires done < |buf| && at == job.o + done && at / BLOCK_SIZE < MAX_FILE_BLOCKS
      modifies this`img, this`shape, this`history
      ensures Recorded() && Extends(old(history), history, WriteScope(job))
      ensures b <= 0 ==> AllUsed(img) && Copying(job, img, shape, ind', done) && !(Strikes(job) && done == 0)
      ensures b > 0 ==> 0 < take <= |buf| - done && Copying(job, img, shape, ind', done + take)
    {
      b, ind' := BlockUnderway(i, ind, at, job, done);
      if b <= 0 {
        return b, ind', 0;
      }
      ghost var h := history;
      ind', take := PatchBlock(ind', at, buf, done, job);
      ExtendsTrans(old(history), h, history, WriteScope(job));
    }

    /** The block under `at`, allocated if need be. */
    method BlockUnderway(i: nat, ind: Inode, at: nat, ghost job: Job, ghost done: nat) returns (b: int, ind': Inode)
      requires Recorded() && Copying(job, img, shape, ind, done) && i == job.i
      requires done < |job.buf| && at == job.o + done && at / BLOCK_SIZE < MAX_FILE_BLOCKS
      modifies this`img, this`shape, this`history
      ensures Recorded() && Extends(old(history), history, WriteScope(job)) && Copying(job, img, shape, ind', done)
      ensures if b <= 0 then AllUsed(img) && !(Strikes(job) && done == 0)
              else At(img.blocks, ind', DataSlot(at / BLOCK_SIZE)) != 0
    {
      CopyingOwn(job, img, shape, ind, done);
      ScopeCopying(job, img, shape, ind, done);
      b, ind' := BlockForInode(i, ind, at / BLOCK_SIZE, WriteScope(job));
      CopyingGrown(job, old(img), old(shape), ind, img, shape, ind', done);
    }

    /** Read, patch and write back the data block under `at`; the size grows in memory. */
    method PatchBlock(ind: Inode, at: nat, buf: seq<Byte>, done: nat, ghost job: Job) returns (ind': Inode, take: nat)
      requires Recorded() && Copying(job, img, shape, ind, done) && buf == job.buf
      requires done < |buf| && at == job.o + done && at / BLOCK_SIZE < MAX_FILE_BLOCKS
      requires At(img.blocks, ind, DataSlot(at / BLOCK_SIZE)) != 0
      modifies this`img, this`shape, this`history
      ensures Recorded() && Extends(old(history), history, WriteScope(job))
      ensures 0 < take <= |buf| - done && Copying(job, img, shape, ind', done + take)
    {
      take := BLOCK_SIZE - at % BLOCK_SIZE;
      if take > |buf| - done {
        take := |buf| - done;
      }
      CopyingPiece(job, img, shape, ind, done, take, at);
      var w := DataWrite(img, ind, at, buf[done..][..take]);
      ghost var after := Apply(img, w);
      ind' := Extended(ind, at + take);
      ScopePiece(job, img, shape, ind, done, take, at);
      Put(w, shape, WriteScope(job));
      assert img == after;
    }

    // -------------------------------------------------------------- reading

    /**
      fs_read, for any descriptor: the bytes from the offset on, up to the count, the size or the
      first hole; a descriptor on a file without holes gets exactly min(count, size - offset).
     */
    method Read(fd: int, buf: array<Byte>, count: nat) returns (n: int)
      requires (fds as object) != (buf as object)
      requires Valid() && count <= buf.Length
      modifies fds, buf
      ensures Valid()
      ensures n == -1 <==> !(0 <= fd < MAX_FD && old(fds[fd]).used && img.inodes[old(fds[fd]).ino].mode == FileMode)
      ensures n == -1 ==> buf[..] == old(buf[..])
      ensures n != -1 ==>
                var f := old(fds[fd]);
                var ind := img.inodes[f.ino];
                && 0 <= n <= Wanted(ind.size, f.offset, count)
                && (n < Wanted(ind.size, f.offset, count) ==>
                    At(img.blocks, ind, DataSlot((f.offset + n) / BLOCK_SIZE)) == 0)
                && Got(buf[..], old(buf[..]), Contents(img, f.ino), f.offset, n)
                && fds[fd] == f.(offset := f.offset + n)
      ensures n != -1 && FdOk(img, shape, old(fds[fd])) ==>
                n == Wanted(img.inodes[old(fds[fd]).ino].size, old(fds[fd]).offset, count)
      ensures forall k | 0 <= k < MAX_FD && (n == -1 || k != fd) :: fds[k] == old(fds[k])
    {
      if fd < 0 || fd >= MAX_FD || !fds[fd].used {
        return -1;
      }
      var i := fds[fd].ino;
      var ind := img.inodes[i];
      if ind.mode != FileMode {
        return -1;
      }
      if fds[fd].offset >= ind.size {
        return 0;
      }
      var todo := count;
      if todo > ind.size - fds[fd].offset {
        todo := ind.size - fds[fd].offset;
      }
      ghost var o := fds[fd].offset;
      n := CopyOut(fd, i, ind, buf, todo);
      if i in shape.live && i in shape.solid && n < todo {
        SolidBlock(img, shape, i, o + n);
      }
    }

    /** The loop of fs_read. */
    method CopyOut(fd: nat, i: nat, ind: Inode, buf: array<Byte>, count: nat) returns (done: nat)
      requires Sized(img) && fds.Length == MAX_FD && fd < MAX_FD && fds[fd].ino == i < MAX_INODES
      requires ind == img.inodes[i] && count <= buf.Length && fds[fd].offset + count <= ind.size
      requires (fds as object) != (buf as object)
      modifies fds, buf
      ensures done <= count && fds[fd] == old(fds[fd]).(offset := old(fds[fd]).offset + done)
      ensures done < count ==> At(img.blocks, ind, DataSlot((old(fds[fd]).offset + done) / BLOCK_SIZE)) == 0
      ensures forall k | 0 <= k < MAX_FD && k != fd :: fds[k] == old(fds[k])
      ensures Got(buf[..], old(buf[..]), Contents(img, i), old(fds[fd]).offset, done)
    {
      ghost var o := fds[fd].offset;
      done := 0;
      while done < count
        invariant done <= count && fds[fd] == old(fds[fd]).(offset := o + done)
        invariant forall k | 0 <= k < MAX_FD && k != fd :: fds[k] == old(fds[k])
        invariant Got(buf[..], old(buf[..]), Contents(img, i), o, done)
      {
        var b, take := ReadChunk(i, ind, fds[fd].offset, buf, done, count, old(buf[..]), o);
        if b <= 0 {
          break;
        }
        done := done + take;
        fds[fd] := fds[fd].(offset := fds[fd].offset + take);
      }
    }

    /** One turn of the loop: what the block under `at` holds of the rest. */
    method ReadChunk(i: nat, ind: Inode, at: nat, buf: array<Byte>, done: nat, count: nat, ghost was: seq<Byte>,
                     ghost o: nat)
      returns (b: int, take: nat)
      requires Sized(img) && i < MAX_INODES && ind == img.inodes[i]
      requires done < count <= buf.Length == |was| && at == o + done && o + count <= ind.size
      requires Got(buf[..], was, Contents(img, i), o, done)
      modifies buf
      ensures b <= 0 ==> At(img.blocks, ind, DataSlot(at / BLOCK_SIZE)) == 0 && buf[..] == old(buf[..])
      ensures b > 0 ==> 0 < take <= count - done
      ensures b > 0 ==> Got(buf[..], was, Contents(img, i), o, done + take)
    {
      var off := at % BLOCK_SIZE;
      take := BLOCK_SIZE - off;
      if take > count - done {
        take := count - done;
      }
      b := FindBlock(ind, at / BLOCK_SIZE);
      if b > 0 {
        var bytes := Raw(img.blocks, b);
        assert bytes[off..off + take] == Contents(img, i)[at..at + take] by {
          ChunkRead(img, i, at, take);
        }
        CopyChunk(buf, done, bytes, off, take, was, Contents(img, i), o);
      }
    }

    // -------------------------------------------------------------- creating

    /** dir_add: the entry goes into the first hole of a directory that does not list the name yet. */
    method DirAdd(d: nat, name: string, child: nat,
                  ghost img0: Image, ghost sh0: Shape, ghost b: nat, ghost mode: Mode) returns (ok: bool)
      requires Recorded() && Safe(img0, sh0) && child == FirstInode(img0) && b == FirstBlock(img0)
      requires Available(img0, child, b)
      requires child != 0 && child !in sh0.live && mode != NoMode
      requires img == Prepared(img0, child, b, mode, d) && shape == Registered(sh0, b, Slot(child, 0))
      requires Safe(img, shape)
      requires d in sh0.live && '/' !in name && name != "." && name != ".."
      modifies this`img, this`shape, this`history
      ensures Recorded() && Extends(old(history), history, CreateScope(img0, sh0, d))
      ensures ok <==>
                && 0 < |name| <= NAME_MAX && IsDir(img0, d) && Lookup(img0, d, name) == Missing
                && FindHole(Listing(img0, d), 0) < DIR_ENTRIES
      ensures ok ==> Created(img0, sh0, img, shape, d, name, mode, child)
      ensures !ok ==> img == old(img) && shape == old(shape) && history == old(history)
    {
      PreparedUntouched(img0, sh0, child, b, mode, d, d);
      if name == "" || |name| > NAME_MAX || !IsDir(img, d) {
        return false;
      }
      PreparedListing(img0, sh0, child, b, mode, d, d);
      var _, found := DirFind(img, d, name);
      if found.Inum? {
        return false;
      }
      var entries := Listing(img, d);
      var k := 0;
      while k < DIR_ENTRIES
        invariant k <= DIR_ENTRIES && FindHole(entries, k) == FindHole(entries, 0)
      {
        if entries[k].ino == INVALID {
          Enter(d, k, name, child, img0, sh0, b, mode);
          return true;
        }
        k := k + 1;
      }
      return false;
    }

    /** The write of dir_add. */
    method Enter(d: nat, k: nat, name: string, child: nat, ghost img0: Image, ghost sh0: Shape, ghost b: nat,
                 ghost mode: Mode)
      requires Recorded() && Safe(img0, sh0) && child == FirstInode(img0) && b == FirstBlock(img0)
      requires Available(img0, child, b)
      requires child != 0 && child !in sh0.live && mode != NoMode
      requires img == Prepared(img0, child, b, mode, d) && shape == Registered(sh0, b, Slot(child, 0))
      requires Safe(img, shape)
      requires d in sh0.live && GoodName(name) && IsDir(img0, d) && IsDir(img, d) && Lookup(img0, d, name) == Missing
      requires k == FindHole(Listing(img0, d), 0) < DIR_ENTRIES
      modifies this`img, this`shape, this`history
      ensures Recorded() && Extends(old(history), history, CreateScope(img0, sh0, d))
      ensures Created(img0, sh0, img, shape, d, name, mode, child)
    {
      EntryCreates(img0, sh0, child, b, d, k, name, mode);
      ghost var after, sh := WithEntry(img, d, k, Dirent(name, child)), Linked(shape, d, k, child);
      ScopeCreated(img0, sh0, after, sh, d, name, mode, child);
      DirHome(img0, sh0, d);
      Put(PutBlock(img.inodes[d].direct[0], Dir(Listing(img, d)[k := Dirent(name, child)])), sh,
          CreateScope(img0, sh0, d));
      assert img == after;
    }

    /**
      create_inode.  On success exactly one inode and one entry are new; on failure both bitmaps
      and every live inode are as before.
     */
    method CreateInode(parent: nat, name: string, mode: Mode) returns (rc: int, ino: nat)
      requires Recorded() && Safe(img, shape) && parent in shape.live && GoodName(name) && mode != NoMode
      modifies this`img, this`shape, this`history
      ensures Recorded() && Safe(img, shape)
      ensures Extends(old(history), history, CreateScope(old(img), old(shape), parent))
      ensures rc == CreateCode(old(img), parent, name)
      ensures rc == 0 ==> Created(old(img), old(shape), img, shape, parent, name, mode, ino)
      ensures rc != 0 ==> Restored(old(img), old(shape), img, shape) && LeftBy(old(img), img, mode, parent, name)
    {
      RestoredSelf(img, shape);
      var _, found := DirFind(img, parent, name);
      if found.Inum? {
        return -2, 0;
      }
      var b;
      rc, ino, b := Reserve(parent);
      if rc == 0 {
        ghost var h := history;
        rc := FillAndLink(parent, name, mode, ino, b, old(img), old(shape));
        ExtendsTrans(old(history), h, history, CreateScope(old(img), old(shape), parent));
      }
    }

    /** The first half of create_inode: a free inode and a free block, or neither. */
    method Reserve(ghost d: nat) returns (rc: int, i: nat, b: nat)
      requires Recorded() && Safe(img, shape)
      modifies this`img, this`shape, this`history
      ensures Recorded() && Safe(img, shape) && Extends(old(history), history, CreateScope(old(img), old(shape), d))
      ensures rc == if FirstInode(old(img)) == MAX_INODES then -3
                else if FirstBlock(old(img)) == JOURNAL_START then -4 else 0
      ensures rc != 0 ==> img == old(img) && shape == old(shape)
      ensures rc == 0 ==> i == FirstInode(old(img)) && b == FirstBlock(old(img))
      ensures rc == 0 ==> Available(old(img), i, b) && i !in old(shape).live && i != 0
      ensures rc == 0 ==> img == Allocated(Apply(old(img), InodeBit(i, true)), b)
      ensures rc == 0 ==> shape == Registered(old(shape), b, Slot(i, 0))
      ensures rc == 0 ==> InScope(CreateScope(old(img), old(shape), d), img, shape)
    {
      ghost var sc := CreateScope(img, shape, d);
      ScopeStart(img, shape, sc.next, sc.target);
      var ino := AllocInode(sc);
      if ino < 0 {
        return -3, 0, 0;
      }
      ghost var h := history;
      var block := AllocBlock(Slot(ino, 0), sc);
      ExtendsTrans(old(history), h, history, sc);
      if block < 0 {
        h := history;
        ScopeHarmless(sc, img, shape, InodeBit(ino, false));
        Put(InodeBit(ino, false), shape, sc);
        ExtendsTrans(old(history), h, history, sc);
        assert img == old(img);
        return -4, 0, 0;
      }
      return 0, ino, block;
    }

    /** The second half of create_inode: inode, first block, directory entry. */
    method FillAndLink(parent: nat, name: string, mode: Mode, i: nat, b: nat, ghost img0: Image, ghost sh0: Shape)
      returns (rc: int)
      requires Recorded() && Safe(img0, sh0) && i == FirstInode(img0) && b == FirstBlock(img0)
      requires Available(img0, i, b) && i !in sh0.live && i != 0
      requires img == Allocated(Apply(img0, InodeBit(i, true)), b) && shape == Registered(sh0, b, Slot(i, 0))
      requires InScope(CreateScope(img0, sh0, parent), img, shape)
      requires parent in sh0.live && GoodName(name) && Lookup(img0, parent, name) == Missing && mode != NoMode
      modifies this`img, this`shape, this`history
      ensures Recorded() && Safe(img, shape) && Extends(old(history), history, CreateScope(img0, sh0, parent))
      ensures rc == if !IsDir(img0, parent) || FindHole(Listing(img0, parent), 0) == DIR_ENTRIES then -5 else 0
      ensures rc == 0 ==> Created(img0, sh0, img, shape, parent, name, mode, i)
      ensures rc != 0 ==> Restored(img0, sh0, img, shape) && img == Discarded(Prepared(img0, i, b, mode, parent), i, b)
    {
      ghost var sc := CreateScope(img0, sh0, parent);
      FillNode(i, b, mode, parent, img0, sh0);
      ghost var h := history;
      var ok := DirAdd(parent, name, i, img0, sh0, b, mode);
      ExtendsTrans(old(history), h, history, sc);
      if !ok {
        h := history;
        Discard(i, b, mode, parent, img0, sh0);
        ExtendsTrans(old(history), h, history, sc);
        return -5;
      }
      return 0;
    }

    /** The new inode and its first block are written. */
    method FillNode(i: nat, b: nat, mode: Mode, parent: nat, ghost img0: Image, ghost sh0: Shape)
      requires Recorded() && Safe(img0, sh0) && Available(img0, i, b) && i !in sh0.live
      requires img == Allocated(Apply(img0, InodeBit(i, true)), b) && shape == Registered(sh0, b, Slot(i, 0))
      requires InScope(CreateScope(img0, sh0, parent), img, shape)
      modifies this`img, this`shape, this`history
      ensures Recorded() && Extends(old(history), history, CreateScope(img0, sh0, parent))
      ensures img == Prepared(img0, i, b, mode, parent) && shape == old(shape)
      ensures InScope(CreateScope(img0, sh0, parent), img, shape)
    {
      ghost var sc := CreateScope(img0, sh0, parent);
      ScopeHarmless(sc, img, shape, PutInode(i, Node(mode, b)));
      Put(PutInode(i, Node(mode, b)), shape, sc);
      ghost var h := history;
      UnregisteredUnheld(img, shape, NONE, b);
      ScopeHarmless(sc, img, shape, PutBlock(b, Fresh(mode, i, parent)));
      Put(PutBlock(b, Fresh(mode, i, parent)), shape, sc);
      ExtendsTrans(old(history), h, history, sc);
      assert img.blocks == img0.blocks[b := Fresh(mode, i, parent)];
    }

    /** Both bits are cleared again. */
    method Discard(i: nat, b: nat, ghost mode: Mode, ghost parent: nat, ghost img0: Image, ghost sh0: Shape)
      requires Recorded() && Safe(img0, sh0) && Available(img0, i, b) && i !in sh0.live
      requires img == Prepared(img0, i, b, mode, parent) && shape == Registered(sh0, b, Slot(i, 0))
      requires InScope(CreateScope(img0, sh0, parent), img, shape)
      modifies this`img, this`shape, this`history
      ensures Recorded() && Extends(old(history), history, CreateScope(img0, sh0, parent))
      ensures Restored(img0, sh0, img, shape) && img == Discarded(Prepared(img0, i, b, mode, parent), i, b)
    {
      ghost var sc := CreateScope(img0, sh0, parent);
      DiscardKeeps(img, shape, i, b, sh0.owner);
      DiscardedIsOld(img0, sh0, i, b, mode, parent);
      assert shape.(owner := sh0.owner) == sh0;
      ScopeBits(sc, img, shape, BlockBit(b, false), sh0);
      Put(BlockBit(b, false), sh0, sc);
      ghost var h := history;
      ScopeBits(sc, img, shape, InodeBit(i, false), sh0);
      Put(InodeBit(i, false), sh0, sc);
      ExtendsTrans(old(history), h, history, sc);
    }

    // -------------------------------------------------------------- releasing

    /** free_block: only data blocks are ever freed. */
    method FreeBlock(b: nat, tidy: bool, ghost sh: Shape, ghost sc: Scope)
      requires Recorded() && Sized(img)
      requires DATA_START <= b < JOURNAL_START && tidy ==> InScope(sc, Apply(img, BlockBit(b, false)), sh)
      modifies this`img, this`shape, this`history, this`torn
      ensures Recorded() && Goes(old(history), old(torn), history, torn, sc, tidy)
      ensures DATA_START <= b < JOURNAL_START ==> img == Apply(old(img), BlockBit(b, false)) && shape == sh
      ensures !(DATA_START <= b < JOURNAL_START) ==> img == old(img) && shape == old(shape) && history == old(history)
    {
      if !(DATA_START <= b < JOURNAL_START) {
        GoesSelf(history, torn, sc, tidy);
      } else if tidy {
        Put(BlockBit(b, false), sh, sc);
      } else {
        PutTorn(BlockBit(b, false), sh, sc);
      }
    }

    /** The block `b` of slot `n` is given back, if there is one. */
    method ReleaseSlot(b: nat, tidy: bool, ghost n: nat, ghost r: Releases, ghost sc: Scope)
      requires Recorded() && n < SLOTS && Going(r, img, shape, Rank(n), tidy, sc) && b == At(r.img.blocks, r.ind, n)
      modifies this`img, this`shape, this`history, this`torn
      ensures Recorded() && Goes(old(history), old(torn), history, torn, sc, tidy)
      ensures Going(r, img, shape, Rank(n) + 1, tidy, sc)
    {
      if b != 0 {
        GoingOne(r, img, shape, n, b, tidy, sc);
        FreeBlock(b, tidy, Dropped(shape, b), sc);
      } else {
        ReleaseNothing(r.img, r.sh, img, shape, r.c, r.ind, n);
        GoesSelf(history, torn, sc, tidy);
      }
    }

    /** release_inode_blocks: direct blocks, then the entries of the pointer table, then the table. */
    method Release(ind: Inode, tidy: bool, ghost c: nat, ghost sc: Scope)
      requires Recorded() && SafeBut(img, shape, if tidy then NONE else c) && |ind.direct| == 8
      requires HeldBy(img.blocks, shape, c, ind) && (tidy ==> c !in shape.live && InScope(sc, img, shape))
      requires c in shape.live ==> img.inodes[c].mode == FileMode
      modifies this`img, this`shape, this`history, this`torn
      ensures Recorded() && Goes(old(history), old(torn), history, torn, sc, tidy)
      ensures SafeBut(img, shape, if tidy then NONE else c) && Released(old(img), old(shape), img, shape, c, ind, SLOTS)
      ensures tidy ==> InScope(sc, img, shape)
    {
      ghost var r := Releases(img, shape, c, ind);
      ReleasedStart(img, shape, c, ind);
      ReleaseDirect(ind, tidy, r, sc);
      if ind.indirect == 0 {
        NoTable(r.img, r.sh, img, shape, c, ind, if tidy then NONE else c);
      } else {
        ghost var h, t := history, torn;
        ReleaseTable(ind, tidy, r, sc);
        GoesTrans(old(history), old(torn), h, t, history, torn, sc, tidy);
      }
    }

    /** What the pointer table holds, then the table. */
    method ReleaseTable(ind: Inode, tidy: bool, ghost r: Releases, ghost sc: Scope)
      requires Recorded() && Going(r, img, shape, TABLE, tidy, sc) && ind == r.ind && ind.indirect != 0
      modifies this`img, this`shape, this`history, this`torn
      ensures Recorded() && Goes(old(history), old(torn), history, torn, sc, tidy)
      ensures Going(r, img, shape, SLOTS, tidy, sc)
    {
      ReleaseEntries(ind, tidy, r, sc);
      ghost var h, t := history, torn;
      ReleaseSlot(ind.indirect, tidy, TABLE, r, sc);
      GoesTrans(old(history), old(torn), h, t, history, torn, sc, tidy);
    }

    /** The direct blocks. */
    method ReleaseDirect(ind: Inode, tidy: bool, ghost r: Releases, ghost sc: Scope)
      requires Recorded() && Going(r, img, shape, 0, tidy, sc) && ind == r.ind && |ind.direct| == 8
      modifies this`img, this`shape, this`history, this`torn
      ensures Recorded() && Goes(old(history), old(torn), history, torn, sc, tidy)
      ensures Going(r, img, shape, TABLE, tidy, sc)
    {
      GoesSelf(history, torn, sc, tidy);
      var k := 0;
      while k < 8
        invariant k <= 8 && Recorded() && Goes(old(history), old(torn), history, torn, sc, tidy)
        invariant Going(r, img, shape, k, tidy, sc)
      {
        ReleaseNext(ind.direct[k], tidy, k, k, r, sc, old(history), old(torn));
        k := k + 1;
      }
    }

    /** The blocks in the pointer table. */
    method ReleaseEntries(ind: Inode, tidy: bool, ghost r: Releases, ghost sc: Scope)
      requires Recorded() && Going(r, img, shape, TABLE, tidy, sc) && ind == r.ind && ind.indirect != 0
      modifies this`img, this`shape, this`history, this`torn
      ensures Recorded() && Goes(old(history), old(torn), history, torn, sc, tidy)
      ensures Going(r, img, shape, SLOTS - 1, tidy, sc)
    {
      TableHeld(r.img.blocks, r.sh, r.c, ind);
      GoesSelf(history, torn, sc, tidy);
      ReleasePointers(PtrsOf(img.blocks[ind.indirect]), tidy, r, sc, history, torn);
    }

    method ReleasePointers(ptrs: seq<nat>, tidy: bool, ghost r: Releases, ghost sc: Scope, ghost h: seq<Image>,
                           ghost t: set<nat>)
      requires Recorded() && Going(r, img, shape, TABLE, tidy, sc) && Goes(h, t, history, torn, sc, tidy)
      requires 0 < r.ind.indirect < |r.img.blocks| && ptrs == PtrsOf(r.img.blocks[r.ind.indirect])
      modifies this`img, this`shape, this`history, this`torn
      ensures Recorded() && Goes(h, t, history, torn, sc, tidy)
      ensures Going(r, img, shape, SLOTS - 1, tidy, sc)
    {
      ghost var p := TABLE;
      var k := 0;
      while k < PTRS
        invariant k <= PTRS && p == TABLE + k && Recorded() && Goes(h, t, history, torn, sc, tidy)
        invariant Going(r, img, shape, p, tidy, sc)
      {
        ReleaseEntry(ptrs[k], tidy, k, p, r, sc, h, t);
        k, p := k + 1, p + 1;
      }
      assert p == SLOTS - 1;
    }

    /** One entry of the pointer table. */
    method ReleaseEntry(b: nat, tidy: bool, ghost k: nat, ghost p: nat, ghost r: Releases, ghost sc: Scope,
                        ghost h: seq<Image>, ghost t: set<nat>)
      requires Recorded() && k < PTRS && p == TABLE + k && Going(r, img, shape, p, tidy, sc)
      requires 0 < r.ind.indirect < |r.img.blocks| && b == PtrsOf(r.img.blocks[r.ind.indirect])[k]
      requires Goes(h, t, history, torn, sc, tidy)
      modifies this`img, this`shape, this`history, this`torn
      ensures Recorded() && Goes(h, t, history, torn, sc, tidy) && Going(r, img, shape, p + 1, tidy, sc)
    {
      EntryAt(r.img.blocks, r.ind, k);
      ReleaseNext(b, tidy, 9 + k, p, r, sc, h, t);
    }

    /** One turn of the loops: slot `n`, at position `p` of a release that began at `h`. */
    method ReleaseNext(b: nat, tidy: bool, ghost n: nat, ghost p: nat, ghost r: Releases, ghost sc: Scope,
                       ghost h: seq<Image>, ghost t: set<nat>)
      requires Recorded() && n < SLOTS && p == Rank(n) && Going(r, img, shape, p, tidy, sc)
      requires b == At(r.img.blocks, r.ind, n)
      requires Goes(h, t, history, torn, sc, tidy)
      modifies this`img, this`shape, this`history, this`torn
      ensures Recorded() && Goes(h, t, history, torn, sc, tidy) && Going(r, img, shape, p + 1, tidy, sc)
    {
      ReleaseSlot(b, tidy, n, r, sc);
      GoesTrans(h, t, old(history), old(torn), history, torn, sc, tidy);
    }

    // -------------------------------------------------------------- removing

    /** fs_unlink: a file or an empty directory goes; nothing else changes. */
    method Unlink(path: string) returns (rc: int)
      requires Valid()
      modifies this`img, this`shape, this`history, this`torn, this`cwd
      ensures Valid() && torn == old(torn)
      ensures rc == UnlinkCode(old(img), path, old(cwd))
      ensures rc == 0 ==>
                var p := Split(old(img), path, old(cwd));
                var c := Lookup(old(img), p.dir, p.name).ino;
                && IsDir(old(img), p.dir)
                && Deleted(old(img), old(shape), img, shape, p.dir, FindName(Listing(old(img), p.dir), p.name, 0), c)
                && Extends(old(history), history, DeleteScope(old(img), old(shape), p.dir, c))
                && cwd == if old(cwd) == c then 0 else old(cwd)
      ensures rc != 0 ==> img == old(img) && shape == old(shape) && history == old(history) && cwd == old(cwd)
    {
      var p, k, c;
      rc, p, k, c := Locate(path);
      if rc == 0 {
        rc := Delete(p.dir, p.name, k, c);
        AfterDelete(old(img), old(shape), img, shape, p.dir, k, c, cwd, fds[..]);
        if cwd == c {
          cwd := 0;
        }
      }
    }

    /** The checks of fs_unlink. */
    method Locate(path: string) returns (rc: int, p: Parent, k: nat, c: nat)
      requires Safe(img, shape) && cwd in shape.live
      ensures rc == UnlinkCode(img, path, cwd)
      ensures rc == 0 ==>
                && p == Split(img, path, cwd) && p.ParentOf? && Lookup(img, p.dir, p.name) == Inum(c)
                && IsDir(img, p.dir) && k == FindName(Listing(img, p.dir), p.name, 0)
                    && Removable(img, shape, p.dir, k, c)
    {
      k, c := 0, 0;
      p := SplitParent(img, path, cwd);
      if p.NoParent? {
        rc := -2;
        return;
      }
      SplitLive(img, shape, if path[0] == '/' then 0 else cwd, path);
      var found;
      k, found := DirFind(img, p.dir, p.name);
      if found.Missing? {
        rc := -3;
        return;
      }
      c := found.ino;
      LookupLive(img, shape, p.dir, p.name);
      var empty := CheckEmpty(img, c);
      rc := if c == 0 then -4 else if !empty then -5 else 0;
      if rc == 0 {
        FoundRemovable(img, shape, p.dir, p.name);
      }
    }

    /** The entry goes first, then the blocks, then the inode. */
    method Delete(d: nat, name: string, ghost k: nat, c: nat) returns (rc: int)
      requires Recorded() && Removable(img, shape, d, k, c)
      requires Lookup(img, d, name) == Inum(c) && k == FindName(Listing(img, d), name, 0)
      modifies this`img, this`shape, this`history, this`torn
      ensures Recorded() && torn == old(torn)
      ensures rc == 0 && Deleted(old(img), old(shape), img, shape, d, k, c)
      ensures Extends(old(history), history, DeleteScope(old(img), old(shape), d, c))
    {
      var ind := img.inodes[c];
      ghost var sc := DeleteScope(img, shape, d, c);
      var ok := DirRemove(d, name);
      if !ok {
        rc := -6;
      } else {
        ghost var h := history;
        ClearedHeld(old(img), old(shape), d, k, c);
        ScopeCleared(old(img), old(shape), d, k, c);
        Release(ind, true, c, sc);
        ExtendsTrans(old(history), h, history, sc);
        h := history;
        EraseInode(c, old(img), old(shape), d, k);
        ExtendsTrans(old(history), h, history, sc);
        rc := 0;
      }
    }

    /** The inode is zeroed and its bit cleared. */
    method EraseInode(c: nat, ghost img0: Image, ghost sh0: Shape, ghost d: nat, ghost k: nat)
      requires Recorded() && Removable(img0, sh0, d, k, c) && InScope(DeleteScope(img0, sh0, d, c), img, shape)
      requires Released(WithEntry(img0, d, k, NO_ENTRY), Unlinked(sh0, c), img, shape, c, img0.inodes[c], SLOTS)
      modifies this`img, this`shape, this`history
      ensures Recorded() && Extends(old(history), history, DeleteScope(img0, sh0, d, c))
      ensures Deleted(img0, sh0, img, shape, d, k, c)
    {
      ghost var sc := DeleteScope(img0, sh0, d, c);
      Deletes(img0, sh0, d, k, c, img, shape);
      ScopeHarmless(sc, img, shape, PutInode(c, ZERO_INODE));
      Put(PutInode(c, ZERO_INODE), shape, sc);
      ghost var h := history;
      ScopeHarmless(sc, img, shape, InodeBit(c, false));
      Put(InodeBit(c, false), shape, sc);
      ExtendsTrans(old(history), h, history, sc);
    }

    /** dir_remove: the entry with that name is cleared, if there is one. */
    method DirRemove(d: nat, name: string) returns (ok: bool)
      requires Recorded() && Safe(img, shape) && d in shape.live
      requires Lookup(img, d, name).Inum? ==>
                 Removable(img, shape, d, FindName(Listing(img, d), name, 0), Lookup(img, d, name).ino)
      modifies this`img, this`shape, this`history
      ensures Recorded() && (ok <==> Lookup(old(img), d, name).Inum?)
      ensures ok ==>
                var k, c := FindName(Listing(old(img), d), name, 0), Lookup(old(img), d, name).ino;
                && img == WithEntry(old(img), d, k, NO_ENTRY) && shape == Unlinked(old(shape), c)
                && Extends(old(history), history, DeleteScope(old(img), old(shape), d, c))
      ensures !ok ==> img == old(img) && shape == old(shape) && history == old(history)
    {
      var pos, found := DirFind(img, d, name);
      if found.Missing? {
        return false;
      }
      ghost var c := found.ino;
      ScopeCleared(img, shape, d, pos, c);
      DirHome(img, shape, d);
      Put(PutBlock(img.inodes[d].direct[0], Dir(Listing(img, d)[pos := NO_ENTRY])), Unlinked(shape, c),
          DeleteScope(img, shape, d, c));
      return true;
    }

    // -------------------------------------------------------------- opening

    /**
      fs_open: the file is found or created, emptied when asked to, and gets the first free
      descriptor.  A failure before that leaves everything as it was.  All block writes up to `mark`
      are crash points that show the old or the new tree; the truncation comes after it.
     */
    method Open(path: string, flags: Flags) returns (rc: int, ghost ino: nat, ghost mark: nat)
      requires Valid()
      modifies this`img, this`shape, this`history, this`torn, fds
      ensures Valid() && |old(history)| <= mark <= |history|
      ensures Extends(old(history), history[..mark], OpenScope(old(img), old(shape), path, cwd))
      ensures torn == old(torn) + Span(mark, |history| - 1) && (!flags.trunc ==> mark == |history|)
      ensures OpenError(old(img), path, cwd, flags.create) != 0 ==>
                && rc == OpenError(old(img), path, cwd, flags.create) && mark == |history|
                && Restored(old(img), old(shape), img, shape) && OpenLitter(old(img), img, path, cwd, flags.create)
      ensures OpenError(old(img), path, cwd, flags.create) == 0 ==>
                && (rc == -6 || 0 <= rc < MAX_FD) && (rc == -6 <==> forall k | 0 <= k < MAX_FD :: old(fds[k]).used)
                && ino in shape.live && img.inodes[ino].mode == FileMode && (flags.trunc ==> Contents(img, ino) == [])
                && Opened(old(img), old(shape), img, shape, path, cwd, flags.trunc, ino)
      ensures rc >= 0 ==> !old(fds[rc]).used && (forall k | 0 <= k < rc :: old(fds[k]).used)
      ensures rc >= 0 ==> fds[rc] == Fd(true, ino, if flags.append then img.inodes[ino].size else 0, flags)
      ensures forall k | 0 <= k < MAX_FD && k != rc :: fds[k] == old(fds[k])
      ensures rc >= 0 || rc == -6 <==> Openable(old(img), path, cwd, flags.create)
      ensures Resolve(old(img), path, cwd).Inum? && rc >= 0 ==> ino == Resolve(old(img), path, cwd).ino
    {
      OpenSucceeds(img, path, cwd, flags.create);
      var i;
      rc, i := FindFile(path, flags.create);
      ino, mark := i, |history|;
      assert history[..mark] == history;
      if rc != 0 {
        return;
      }
      ghost var mid, midsh := img, shape;
      rc := FinishOpen(i, flags);
      assert MidOpen(old(img), old(shape), mid, midsh, path, cwd, i);
    }

    /** The second half of fs_open: truncation and the descriptor. */
    method FinishOpen(c: nat, flags: Flags) returns (fd: int)
      requires Valid() && c in shape.live && img.inodes[c].mode == FileMode
      modifies this`img, this`shape, this`history, this`torn, fds
      ensures Valid() && Logged(old(history), history) && c in shape.live && img.inodes[c].mode == FileMode
      ensures if flags.trunc then Truncated(old(img), old(shape), img, shape, c) && Contents(img, c) == []
              else img == old(img) && shape == old(shape) && history == old(history)
      ensures torn == old(torn) + Span(|old(history)|, |history| - 1)
      ensures (fd == -6 || 0 <= fd < MAX_FD) && (fd == -6 <==> forall k | 0 <= k < MAX_FD :: old(fds[k]).used)
      ensures fd >= 0 ==> !old(fds[fd]).used && (forall k | 0 <= k < fd :: old(fds[k]).used)
      ensures fd >= 0 ==> fds[fd] == Fd(true, c, if flags.append then img.inodes[c].size else 0, flags)
      ensures forall k | 0 <= k < MAX_FD && k != fd :: fds[k] == old(fds[k])
    {
      if flags.trunc {
        TruncateOpen(c);
      }
      fd := TakeFd(c, flags);
    }

    /** Truncation, as part of an open. */
    method TruncateOpen(c: nat)
      requires Valid() && c in shape.live && img.inodes[c].mode == FileMode
      modifies this`img, this`shape, this`history, this`torn
      ensures Valid() && Logged(old(history), history) && |history| > |old(history)|
      ensures torn == old(torn) + Span(|old(history)|, |history| - 1)
      ensures Truncated(old(img), old(shape), img, shape, c) && Contents(img, c) == []
    {
      Truncate(c);
      KnownKept(old(img), old(shape), img, shape, fds[..]);
    }

    /** The file behind a path, created when it is missing and that is wanted. */
    method FindFile(path: string, create: bool) returns (rc: int, ino: nat)
      requires Valid()
      modifies this`img, this`shape, this`history
      ensures Valid() && Extends(old(history), history, OpenScope(old(img), old(shape), path, cwd))
      ensures rc == OpenError(old(img), path, cwd, create)
      ensures rc == 0 ==> MidOpen(old(img), old(shape), img, shape, path, cwd, ino)
      ensures rc == 0 ==> ino in shape.live && img.inodes[ino].mode == FileMode
      ensures rc != 0 ==> Restored(old(img), old(shape), img, shape) && OpenLitter(old(img), img, path, cwd, create)
    {
      var found := ResolvePath(img, path, cwd);
      if found.Missing? {
        rc, ino := CreateMissing(path, create);
        return;
      }
      RestoredSelf(img, shape);
      ResolveLive(img, shape, if path[0] == '/' then 0 else cwd, path);
      return if img.inodes[found.ino].mode != FileMode then -5 else 0, found.ino;
    }

    /** The file is missing. */
    method CreateMissing(path: string, create: bool) returns (rc: int, ino: nat)
      requires Valid() && Resolve(img, path, cwd) == Missing
      modifies this`img, this`shape, this`history
      ensures Valid() && Extends(old(history), history, OpenScope(old(img), old(shape), path, cwd))
      ensures rc == OpenError(old(img), path, cwd, create)
      ensures rc == 0 ==> MidOpen(old(img), old(shape), img, shape, path, cwd, ino)
      ensures rc == 0 ==> ino in shape.live && img.inodes[ino].mode == FileMode
      ensures rc != 0 ==> Restored(old(img), old(shape), img, shape) && OpenLitter(old(img), img, path, cwd, create)
    {
      RestoredSelf(img, shape);
      if !create {
        return -2, 0;
      }
      var p := SplitParent(img, path, cwd);
      if p.NoParent? {
        return -3, 0;
      }
      SplitLive(img, shape, if path[0] == '/' then 0 else cwd, path);
      rc, ino := CreateIn(p.dir, p.name, FileMode);
      if rc != 0 {
        return -4, 0;
      }
    }

    /** create_inode, between two calls of the interface. */
    method CreateIn(d: nat, name: string, mode: Mode) returns (rc: int, ino: nat)
      requires Valid() && d in shape.live && GoodName(name) && mode != NoMode
      modifies this`img, this`shape, this`history
      ensures Valid() && Extends(old(history), history, CreateScope(old(img), old(shape), d))
      ensures rc == CreateCode(old(img), d, name)
      ensures rc == 0 ==> Created(old(img), old(shape), img, shape, d, name, mode, ino)
      ensures rc != 0 ==> Restored(old(img), old(shape), img, shape) && LeftBy(old(img), img, mode, d, name)
    {
      rc, ino := CreateInode(d, name, mode);
      if rc == 0 {
        AfterCreate(old(img), old(shape), img, shape, d, name, mode, ino, cwd, fds[..]);
      } else {
        AfterFailure(old(img), old(shape), img, shape, cwd, fds[..]);
      }
    }

    /** O_TRUNC: bits are cleared while the inode on disk still names the blocks, so the images in between are torn. */
    method Truncate(c: nat)
      requires Recorded() && Safe(img, shape) && c in shape.live && img.inodes[c].mode == FileMode
      modifies this`img, this`shape, this`history, this`torn
      ensures Recorded() && Logged(old(history), history) && |history| > |old(history)|
      ensures torn == old(torn) + Span(|old(history)|, |history| - 1)
      ensures Truncated(old(img), old(shape), img, shape, c) && Contents(img, c) == []
    {
      var ind := img.inodes[c];
      assert InodeOk(img, shape, c, ind);
      ConsistentHeld(img, shape, c, ind);
      ghost var sc := TruncateScope(img, shape, c);
      Release(ind, false, c, sc);
      Truncates(old(img), old(shape), c, img, shape);
      ghost var h, after := history, Apply(img, PutInode(c, Emptied(ind)));
      ScopeTruncated(old(img), old(shape), after, shape, c);
      Put(PutInode(c, Emptied(ind)), shape, sc);
      LoggedTrans(old(history), h, history);
      TruncatedEmpty(old(img), old(shape), img, shape, c);
    }

    /** The first free descriptor, or -6. */
    method TakeFd(ino: nat, flags: Flags) returns (fd: int)
      requires Valid() && ino in shape.live && img.inodes[ino].mode == FileMode
      modifies fds
      ensures Valid() && (fd == -6 || 0 <= fd < MAX_FD)
      ensures fd == -6 <==> forall k | 0 <= k < MAX_FD :: old(fds[k]).used
      ensures fd >= 0 ==> !old(fds[fd]).used && (forall k | 0 <= k < fd :: old(fds[k]).used)
      ensures fd >= 0 ==> fds[fd] == Fd(true, ino, if flags.append then img.inodes[ino].size else 0, flags)
      ensures forall k | 0 <= k < MAX_FD && k != fd :: fds[k] == old(fds[k])
    {
      var k := 0;
      while k < MAX_FD
        invariant 0 <= k <= MAX_FD && forall j | 0 <= j < k :: fds[j].used
        invariant forall j | 0 <= j < MAX_FD :: fds[j] == old(fds[j])
      {
        if !fds[k].used {
          fds[k] := Fd(true, ino, if flags.append then img.inodes[ino].size else 0, flags);
          return k;
        }
        k := k + 1;
      }
      return -6;
    }

    /** fs_close. */
    method Close(fd: int) returns (rc: int)
      requires Valid()
      modifies fds
      ensures Valid()
      ensures rc == if 0 <= fd < MAX_FD && old(fds[fd]).used then 0 else -1
      ensures rc == 0 ==> fds[fd] == old(fds[fd]).(used := false)
      ensures forall k | 0 <= k < MAX_FD && (rc != 0 || k != fd) :: fds[k] == old(fds[k])
    {
      if fd < 0 || fd >= MAX_FD || !fds[fd].used {
        return -1;
      }
      fds[fd] := fds[fd].(used := false);
      return 0;
    }

    // -------------------------------------------------------------- directories

    /** fs_mkdir. */
    method Mkdir(path: string) returns (rc: int, ghost ino: nat)
      requires Valid()
      modifies this`img, this`shape, this`history
      ensures Valid() && Extends(old(history), history, OpenScope(old(img), old(shape), path, cwd))
      ensures rc == match Split(old(img), path, cwd)
                    case NoParent => -1
                    case ParentOf(d, name) => CreateCode(old(img), d, name)
      ensures rc == 0 ==>
                var p := Split(old(img), path, cwd);
                Created(old(img), old(shape), img, shape, p.dir, p.name, DirMode, ino)
      ensures rc != 0 ==> Restored(old(img), old(shape), img, shape)
      ensures rc != 0 && rc != -1 ==> var p := Split(old(img), path, cwd); LeftBy(old(img), img, DirMode, p.dir, p.name)
      ensures rc == -1 ==> img == old(img)
    {
      RestoredSelf(img, shape);
      ino := 0;
      var p := SplitParent(img, path, cwd);
      if p.NoParent? {
        return -1, ino;
      }
      if p.name == "." || p.name == ".." {
        rc := -2;
      } else {
        SplitLive(img, shape, if path[0] == '/' then 0 else cwd, path);
        var i;
        rc, i := CreateIn(p.dir, p.name, DirMode);
        ino := i;
      }
    }

    /** fs_chdir. */
    method Chdir(path: string) returns (rc: int)
      requires Valid()
      modifies this`cwd
      ensures Valid()
      ensures rc == match Resolve(img, path, old(cwd))
                    case Missing => -1
                    case Inum(i) => if i < MAX_INODES && img.inodes[i].mode == DirMode then 0 else -2
      ensures cwd == if rc == 0 then Resolve(img, path, old(cwd)).ino else old(cwd)
      ensures path == ".." ==> old(cwd) in shape.parent && rc == 0 && cwd == shape.parent[old(cwd)]
    {
      DotsFind(img, shape, cwd);
      DotsResolve(img, shape, cwd);
      var found := ResolvePath(img, path, cwd);
      if found.Missing? {
        return -1;
      }
      ResolveLive(img, shape, if path[0] == '/' then 0 else cwd, path);
      if img.inodes[found.ino].mode != DirMode {
        return -2;
      }
      cwd := found.ino;
      return 0;
    }

    /**
      fs_pwd: it fails exactly when the buffer is too small; otherwise it leaves a terminated path
      that resolves to the working directory from any start, and writes nothing past `len`.
     */
    method Pwd(buf: array<char>, len: nat) returns (rc: int, ghost end: nat)
      requires Valid() && len <= buf.Length
      modifies buf
      ensures rc == if PwdFits(Trail(img, shape, cwd), len) then 0 else -1
      ensures rc == 0 ==> end < len && buf[end] == '\0' && buf[..end] == Printed(Trail(img, shape, cwd))
      ensures rc == 0 ==> forall start: nat :: Resolve(img, buf[..end], start) == Inum(cwd)
      ensures buf[len..] == old(buf[len..])
    {
      end := 0;
      if len < 2 {
        return -1, end;
      }
      buf[0] := '\0';
      var pos;
      rc, pos := PwdRec(cwd, buf, len);
      end := pos;
      forall start: nat
        ensures Resolve(img, Printed(Trail(img, shape, cwd)), start) == Inum(cwd)
      {
        PrintedTrail(img, shape, cwd, start);
      }
    }

    /** pwd_rec: the path of the parent first, then the name. */
    method PwdRec(ino: nat, buf: array<char>, len: nat) returns (rc: int, pos: nat)
      requires Safe(img, shape) && ino in shape.live && img.inodes[ino].mode == DirMode && len <= buf.Length
      modifies buf
      decreases if ino in shape.depth then shape.depth[ino] else 0
      ensures rc == if PwdFits(Trail(img, shape, ino), len) then 0 else -1
      ensures rc == 0 ==> pos < len && buf[pos] == '\0' && buf[..pos] == Printed(Trail(img, shape, ino))
      ensures forall k | len <= k < buf.Length :: buf[k] == old(buf[k])
    {
      if ino == 0 {
        if 1 >= len {
          return -1, 0;
        }
        buf[0] := '/';
        buf[1] := '\0';
        return 0, 1;
      }
      rc, pos := -1, 0;
      var up, name := Above(ino);
      if name != "" {
        TrailStep(img, shape, ino, len);
        rc, pos := PwdRec(up, buf, len);
        if rc == 0 {
          if pos + |name| + 1 >= len {
            rc := -1;
          } else {
            pos := AppendName(buf, pos, pos > 1, name);
          }
        }
      }
    }

    /** The lookups of pwd_rec: the parent of a directory, and the name it has there. */
    method Above(ino: nat) returns (up: nat, name: string)
      requires Safe(img, shape) && ino in shape.live && ino != 0 && img.inodes[ino].mode == DirMode
      ensures ino in shape.parent && up == shape.parent[ino] && up in shape.live && img.inodes[up].mode == DirMode
      ensures name == NameOf(img, shape, ino) && name != ""
    {
      up, name := 0, "";
      ParentFinds(img, shape, ino);
      var _, found := DirFind(img, ino, "..");
      if found.Inum? {
        up := found.ino;
        var _, here := DirFind(img, up, ".");
        if here.Inum? {
          var k;
          name, k := ChildName(Listing(img, up), ino);
          ChildNamed(img, shape, ino, name, k);
        }
      }
    }

    // -------------------------------------------------------------- free counts

    /** fs_free_blocks. */
    method FreeBlocks() returns (n: nat)
      requires Valid()
      ensures n == |FreeBits(img.blockBits, DATA_START, JOURNAL_START)|
    {
      n := CountFree(img.blockBits, DATA_START, JOURNAL_START);
    }

    /** fs_free_inodes. */
    method FreeInodes() returns (n: nat)
      requires Valid()
      ensures n == |FreeBits(img.inodeBits, 0, MAX_INODES)|
    {
      n := CountFree(img.inodeBits, 0, MAX_INODES);
    }
  }
}
