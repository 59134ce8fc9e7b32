/**
  What a stale descriptor can do.  A file is unlinked while a descriptor is open on it; a create that
  fails at the directory entry then takes the same inode and gives it back, but leaves it written
  as a file with a block that is free again.  When a directory gets that block, a write
  through the descriptor goes into the directory.
 */
module FsStale {
  import opened FsDisk
  import opened FsShape
  import opened FsFiles
  import opened FsGrow
  import opened FsStray
  import opened FsWrite
  import opened FsCreate
  import opened FsRelease
  import opened FsExact
  import opened FileSystems
  import opened FsCommands
  import opened FsRuns
  import opened FsSmall

  // ---------------------------------------------------------------- what a stale write costs

  /** The pointers of live inodes are where they were. */
  lemma StrayedPointers(job: Job, img: Image, sh: Shape, j: nat, n: nat)
    requires Strayed(job, img, sh) && j in sh.live && j < MAX_INODES && n < SLOTS
    ensures BlockAt(img, j, n) == BlockAt(job.img, j, n)
  {
    UntouchedAt(Hit(job), img, j, n);
    if Strikes(job) {
      var ind := job.img.inodes[job.i];
      assert At(job.img.blocks, ind, DataSlot(job.o / BLOCK_SIZE)) == ind.direct[0];
      LiveIsAttached(job.img, job.sh, j);
      assert BlockAt(job.img, j, TABLE) == job.img.inodes[j].indirect != ind.direct[0];
    }
  }

  /** After a write through a stale descriptor the bitmaps are exact if and only if it has allocated nothing. */
  lemma StrayedExactIff(job: Job, img: Image, sh: Shape)
    requires Strayed(job, img, sh) && Exact(job.img, job.sh)
    ensures (exists sh' :: Exact(img, sh')) <==> NoneTaken(job.img, img)
  {
    if NoneTaken(job.img, img) {
      StrayedExact(job, img, sh);
    }
    forall sh' | Exact(img, sh')
      ensures NoneTaken(job.img, img)
    {
      forall j
        ensures j in sh'.live <==> j in sh.live
      {
        if j >= 0 {
          LiveIsAttached(img, sh, j);
          LiveIsAttached(img, sh', j);
        }
      }
      forall j: nat, n: nat | j in job.sh.live && j < MAX_INODES && n < SLOTS
        ensures BlockAt(img, j, n) == BlockAt(job.img, j, n)
      {
        StrayedPointers(job, img, sh, j, n);
      }
      BitmapsDetermined(job.img, job.sh, img, sh');
    }
  }

  // ---------------------------------------------------------------- the run

  const CREATE_EMPTY: Flags := Flags(1, true, true, false)

  /** Four different names for files and directories below the root, and one for below a file. */
  datatype Names = Names(p: string, q: string, r: string, c: string, x: string)

  predicate Usable(s: Names) {
    && GoodName(s.p) && GoodName(s.q) && GoodName(s.r) && GoodName(s.c) && GoodName(s.x)
    && s.p != s.q && s.p != s.r && s.p != s.c && s.q != s.r && s.q != s.c && s.r != s.c
  }

  /**
    p and q are created, q is emptied, r is created and kept open; r is unlinked, a create below the
    file p fails, q is unlinked, and the directory c is made.
   */
  function Calls(s: Names): seq<Command> {
    [DoOpen(Top(s.p), CREATE), DoOpen(Top(s.q), CREATE_EMPTY), DoOpen(Top(s.r), CREATE), DoUnlink(Top(s.r)),
     DoOpen(Below(s.p, s.x), CREATE), DoUnlink(Top(s.q)), DoMkdir(Top(s.c))]
  }

  ghost function P(s: Names): map<string, nat> { map[s.p := 1] }

  ghost function PQ(s: Names): map<string, nat> { map[s.p := 1, s.q := 2] }

  ghost function PQR(s: Names): map<string, nat> { map[s.p := 1, s.q := 2, s.r := 3] }

  const EMPTY_FILE: Inode := Inode(0, FileMode, NO_DIRECT, 0)

  /** The lowest free inode and block, as the run goes on. */
  lemma LowestFree()
    ensures Lowest({0}, {}, 1, 6) && Lowest({0, 1}, {6}, 2, 7) && Lowest({0, 1, 2}, {6}, 3, 7)
  {
  }

  /** Which inodes and blocks come and go. */
  lemma Numbers()
    ensures {0} + {1} == {0, 1} && {0, 1} + {2} == {0, 1, 2} && {0, 1, 2} + {3} == {0, 1, 2, 3}
    ensures {0, 1, 2, 3} - {3} == {0, 1, 2} && {0, 1, 2} - {2} == {0, 1} && 3 !in {0, 1} + {2}
    ensures {} + {6} == {6} && {6} + {7} == {6, 7} && {6, 7} - {7} == {6} && {6} - {} == {6}
  {
  }

  /** And which names. */
  lemma NamesListed(s: Names)
    requires Usable(s)
    ensures map[][s.p := 1] == P(s) && P(s)[s.q := 2] == PQ(s) && PQ(s)[s.r := 3] == PQR(s)
    ensures PQR(s) - {s.r} == PQ(s) && PQ(s) - {s.q} == P(s)
  {
  }

  ghost predicate HasNothing(v: View) { Stands(v, {0}, {}, map[], 2) && OpenUpTo(v.fds, 0) }

  /** The file p has inode 1 and block 6. */
  ghost predicate HasP(s: Names, v: View) {
    && Stands(v, {0, 1}, {6}, P(s), 3) && v.img.inodes[1] == Node(FileMode, 6)
    && OpenUpTo(v.fds, 1)
  }

  lemma MakeP(s: Names, v: View, v': View)
    requires Usable(s) && HasNothing(v) && Sound(v) && Sound(v')
    requires Did(DoOpen(Top(s.p), CREATE), v, v')
    ensures HasP(s, v')
  {
    Numbers();
    NamesListed(s);
    LowestFree();
    Make(v, v', s.p, CREATE, {0}, {}, map[], 2, 1, 6, 0);
  }

  /** The file q has inode 2 and no block. */
  ghost predicate HasQ(s: Names, v: View) {
    && Stands(v, {0, 1, 2}, {6}, PQ(s), 4)
    && v.img.inodes[1] == Node(FileMode, 6) && v.img.inodes[2] == EMPTY_FILE
    && OpenUpTo(v.fds, 2)
  }

  lemma MakeQ(s: Names, v: View, v': View)
    requires Usable(s) && HasP(s, v) && Sound(v) && Sound(v')
    requires Did(DoOpen(Top(s.q), CREATE_EMPTY), v, v')
    ensures HasQ(s, v')
  {
    Numbers();
    NamesListed(s);
    LowestFree();
    Make(v, v', s.q, CREATE_EMPTY, {0, 1}, {6}, P(s), 3, 2, 7, 1);
  }

  /** The file r has inode 3 and block 7, and is open as descriptor 2. */
  ghost predicate HasR(s: Names, v: View) {
    && Stands(v, {0, 1, 2, 3}, {6, 7}, PQR(s), 5)
    && v.img.inodes[1] == Node(FileMode, 6) && v.img.inodes[2] == EMPTY_FILE
    && v.img.inodes[3] == Node(FileMode, 7) && v.fds[2] == Fd(true, 3, 0, CREATE)
  }

  lemma MakeR(s: Names, v: View, v': View)
    requires Usable(s) && HasQ(s, v) && Sound(v) && Sound(v')
    requires Did(DoOpen(Top(s.r), CREATE), v, v')
    ensures HasR(s, v')
  {
    Numbers();
    NamesListed(s);
    LowestFree();
    Make(v, v', s.r, CREATE, {0, 1, 2}, {6}, PQ(s), 4, 3, 7, 2);
  }

  /** r is gone, but descriptor 2 is still on inode 3, which is now `ind`. */
  ghost predicate LacksR(s: Names, v: View, ind: Inode) {
    && Stands(v, {0, 1, 2}, {6}, PQ(s), 5) && v.fds[2] == Fd(true, 3, 0, CREATE)
    && v.img.inodes[1] == Node(FileMode, 6) && v.img.inodes[2] == EMPTY_FILE && v.img.inodes[3] == ind
  }

  lemma RemoveR(s: Names, v: View, v': View)
    requires Usable(s) && HasR(s, v) && Sound(v) && Sound(v')
    requires Did(DoUnlink(Top(s.r)), v, v')
    ensures LacksR(s, v', ZERO_INODE)
  {
    Numbers();
    NamesListed(s);
    forall x
      ensures Keeping(v.img.blocks, v.img.inodes[3], x) <==> x in {7}
    {
      KeptByNode(v.img.blocks, FileMode, 7, x);
    }
    Remove(v, v', s.r, {0, 1, 2, 3}, {6, 7}, PQR(s), 5, 3, {7});
  }

  /** The failed create leaves inode 3 written as a file with block 7. */
  lemma FailX(s: Names, v: View, v': View)
    requires Usable(s) && LacksR(s, v, ZERO_INODE) && Sound(v) && Sound(v')
    requires Did(DoOpen(Below(s.p, s.x), CREATE), v, v')
    ensures LacksR(s, v', Node(FileMode, 7))
  {
    Numbers();
    NamesListed(s);
    LowestFree();
    Fail(v, v', s.p, s.x, CREATE, {0, 1, 2}, {6}, PQ(s), 5, 1, 3, 7);
  }

  /** Only p is left. */
  ghost predicate LacksQ(s: Names, v: View) {
    Stands(v, {0, 1}, {6}, P(s), 5) && v.fds[2] == Fd(true, 3, 0, CREATE) && v.img.inodes[3] == Node(FileMode, 7)
  }

  lemma RemoveQ(s: Names, v: View, v': View)
    requires Usable(s) && LacksR(s, v, Node(FileMode, 7)) && Sound(v) && Sound(v')
    requires Did(DoUnlink(Top(s.q)), v, v')
    ensures LacksQ(s, v')
  {
    Numbers();
    NamesListed(s);
    forall x
      ensures !Keeping(v.img.blocks, v.img.inodes[2], x)
    {
      KeptByNode(v.img.blocks, FileMode, 7, x);
    }
    Remove(v, v', s.q, {0, 1, 2}, {6}, PQ(s), 5, 2, {});
  }

  /** The directory c has the inode that q had and the block that r had. */
  ghost predicate HasC(v: View) {
    && Sound(v) && 2 in v.shape.live && !v.img.inodeBits[3] && v.fds[2] == Fd(true, 3, 0, CREATE)
    && v.img.inodes[2] == Node(DirMode, 7) && v.img.inodes[3] == Node(FileMode, 7)
  }

  lemma MakeC(s: Names, v: View, v': View)
    requires Usable(s) && LacksQ(s, v) && Sound(v) && Sound(v')
    requires Did(DoMkdir(Top(s.c)), v, v')
    ensures HasC(v')
  {
    Numbers();
    NamesListed(s);
    LowestFree();
    MakeDir(v, v', s.c, {0, 1}, {6}, P(s), 5, 2, 7);
  }

  /** Where the run stands after `k` calls. */
  ghost predicate Stage(s: Names, k: nat, v: View) {
    match k
    case 0 => HasNothing(v)
    case 1 => HasP(s, v)
    case 2 => HasQ(s, v)
    case 3 => HasR(s, v)
    case 4 => LacksR(s, v, ZERO_INODE)
    case 5 => LacksR(s, v, Node(FileMode, 7))
    case 6 => LacksQ(s, v)
    case _ => HasC(v)
  }

  lemma NextStage(s: Names, k: nat, v: View, v': View)
    requires Usable(s) && k < 7 && Stage(s, k, v) && Sound(v) && Sound(v')
    requires Did(Calls(s)[k], v, v')
    ensures Stage(s, k + 1, v')
  {
    match k {
      case 0 => MakeP(s, v, v');
      case 1 => MakeQ(s, v, v');
      case 2 => MakeR(s, v, v');
      case 3 => RemoveR(s, v, v');
      case 4 => FailX(s, v, v');
      case 5 => RemoveQ(s, v, v');
      case _ => MakeC(s, v, v');
    }
  }

  lemma {:induction false} AllStages(s: Names, trace: seq<View>, n: nat)
    requires Usable(s) && IsRun(Calls(s), trace) && |trace| == 8 && Initial(trace[0]) && n <= 7
    ensures Stage(s, n, trace[n])
  {
    if n == 0 {
      FreshStands(trace[0]);
    } else {
      var k := n - 1;
      AllStages(s, trace, k);
      assert Step(Calls(s), trace, k);
      NextStage(s, k, trace[k], trace[k + 1]);
    }
  }

  /**
    However these seven calls go, descriptor 2 is stale afterwards, its inode names the block of the
    live directory c, and the first block write of any write through it would leave an image
    that no shape fits.
   */
  lemma SevenCalls(s: Names, trace: seq<View>, data: seq<Byte>)
    requires Usable(s) && IsRun(Calls(s), trace) && |trace| == 8 && Initial(trace[0]) && data != []
    ensures Harms(DoWrite(2, data), trace[7])
  {
    AllStages(s, trace, 7);
    WriteHarms(trace[7], data);
  }

  lemma WriteHarms(v: View, data: seq<Byte>)
    requires HasC(v) && data != []
    ensures Harms(DoWrite(2, data), v)
  {
    LiveIsAttached(v.img, v.shape, 2);
    assert BlockAt(v.img, 2, 0) == v.img.inodes[3].direct[0];
    TolerableIff(v.img, v.shape, v.fds[2], data);
  }

  lemma NoWrites(s: Names, n: nat, img: Image, fds: seq<Fd>)
    requires Sized(img) && n < |Calls(s)|
    ensures !Blocked(Calls(s)[n], img, fds)
  {
  }

  /** The seven calls can be made: nothing stops the run before the write. */
  method StaleRun(s: Names) returns (fs: FileSystem, ghost trace: seq<View>)
    requires Usable(s)
    ensures fs.Valid() && IsRun(Calls(s), trace) && |trace| == 8 && Initial(trace[0]) && trace[7] == Now(fs)
    ensures forall data: seq<Byte> | data != [] :: Harms(DoWrite(2, data), trace[7])
  {
    var n;
    fs, n, trace := RunAll(Calls(s));
    if n < |Calls(s)| {
      NoWrites(s, n, fs.img, fs.fds[..]);
    }
    forall data: seq<Byte> | data != []
      ensures Harms(DoWrite(2, data), trace[7])
    {
      SevenCalls(s, trace, data);
    }
  }
}
