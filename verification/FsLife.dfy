/** The life of one file: created, written any number of times, unlinked. */
module FsLife {
  import opened FsDisk
  import opened FsPaths
  import opened FsShape
  import opened FsSteps
  import opened FsFiles
  import opened FsWrite
  import opened FsCreate
  import opened FsExact
  import opened FsWalk
  import opened FsRemove
  import opened FsPwd
  import opened FileSystems

  /**
    Since (img0, sh0), file `i` has been entered as entry `k` of directory `d`; only the file itself
    may differ otherwise.
   */
  ghost predicate Alive(img0: Image, sh0: Shape, img: Image, sh: Shape, d: nat, name: string, k: nat, i: nat) {
    && Safe(img0, sh0) && Exact(img, sh) && d in sh0.live && i !in sh0.live && 0 < i < MAX_INODES
        && sh.live == sh0.live + {i}
    && IsDir(img0, d) && IsDir(img, d) && img.inodes[d] == img0.inodes[d] && Lookup(img0, d, name) == Missing
    && 2 <= k < DIR_ENTRIES && Listing(img0, d)[k].ino == INVALID
        && Listing(img, d) == Listing(img0, d)[k := Dirent(name, i)]
    && (forall j | j in sh0.live && j != d :: Untouched(img0, img, j)) && img.inodes[i].mode == FileMode
  }

  lemma Born(img0: Image, sh0: Shape, img: Image, sh: Shape, d: nat, name: string, i: nat) returns (k: nat)
    requires Created(img0, sh0, img, sh, d, name, FileMode, i) && Exact(img0, sh0)
    ensures Alive(img0, sh0, img, sh, d, name, k, i)
  {
    k := FindHole(Listing(img0, d), 0);
  }

  lemma Lives(img0: Image, sh0: Shape, img: Image, sh: Shape, d: nat, name: string, k: nat, i: nat,
              img': Image, sh': Shape, o: nat, data: seq<Byte>)
    requires Alive(img0, sh0, img, sh, d, name, k, i) && Wrote(img, sh, img', sh', i, o, data)
    ensures Alive(img0, sh0, img', sh', d, name, k, i)
  {
    assert Untouched(img, img', d);
    LiveListing(img, sh, d);
    assert BlockAt(img, d, 0) == img.inodes[d].direct[0];
    forall j | j in sh0.live && j != d
      ensures Untouched(img0, img', j)
    {
      UntouchedTrans(img0, img, img', j);
    }
  }

  /** What could be found before is found still, and the file under its name. */
  lemma StillFound(img0: Image, sh0: Shape, img: Image, sh: Shape, d: nat, name: string, k: nat, i: nat)
    requires Alive(img0, sh0, img, sh, d, name, k, i)
    ensures forall e: nat, x: string | e in sh0.live && Lookup(img0, e, x).Inum? ::
              Lookup(img, e, x) == Lookup(img0, e, x)
    ensures FindName(Listing(img, d), name, 0) == k && Lookup(img, d, name) == Inum(i)
  {
    forall e: nat, x: string | e in sh0.live && Lookup(img0, e, x).Inum?
      ensures Lookup(img, e, x) == Lookup(img0, e, x)
    {
      if e == d {
        FoundPast(Listing(img0, d), name, k, i, x);
      } else {
        SameDir(img0, sh0, img, e);
      }
    }
    FoundNew(Listing(img0, d), name, k, i);
  }

  lemma SameDir(img0: Image, sh0: Shape, img: Image, e: nat)
    requires Safe(img0, sh0) && Sized(img) && e in sh0.live && Untouched(img0, img, e) && IsDir(img0, e)
    ensures IsDir(img, e) && Listing(img, e) == Listing(img0, e)
  {
    assert BlockAt(img0, e, 0) == img0.inodes[e].direct[0];
  }

  lemma FoundPast(entries: seq<Dirent>, name: string, k: nat, i: nat, x: string)
    requires k < |entries| && entries[k].ino == INVALID && FindName(entries, name, 0) == |entries|
    requires FindName(entries, x, 0) < |entries|
    ensures var after := entries[k := Dirent(name, i)];
            FindName(after, x, 0) == FindName(entries, x, 0)
                && after[FindName(entries, x, 0)] == entries[FindName(entries, x, 0)]
  {
    var after, f := entries[k := Dirent(name, i)], FindName(entries, x, 0);
    assert Names(entries[f], x) && !Names(entries[f], name);
    var g := FindName(after, x, 0);
    assert Names(after[f], x);
  }

  lemma FoundNew(entries: seq<Dirent>, name: string, k: nat, i: nat)
    requires k < |entries| && i != INVALID && FindName(entries, name, 0) == |entries|
    ensures FindName(entries[k := Dirent(name, i)], name, 0) == k
  {
    var after := entries[k := Dirent(name, i)];
    var g := FindName(after, name, 0);
    assert Names(after[k], name);
  }

  /** After the file is gone, everything else is where it was, so both bitmaps are as before. */
  lemma Gone(img0: Image, sh0: Shape, img: Image, sh: Shape, d: nat, name: string, k: nat, i: nat, img': Image,
             sh': Shape)
    requires Exact(img0, sh0) && Alive(img0, sh0, img, sh, d, name, k, i) && Deleted(img, sh, img', sh', d, k, i)
    ensures sh'.live == sh0.live && Exact(img', sh') && img'.inodeBits == img0.inodeBits
    ensures forall b | DATA_START <= b < JOURNAL_START :: img'.blockBits[b] == img0.blockBits[b]
  {
    forall j: nat, n: nat | j in sh0.live && j < MAX_INODES && n < SLOTS
      ensures BlockAt(img', j, n) == BlockAt(img0, j, n)
    {
      if j == d {
        assert InodeOk(img0, sh0, d, img0.inodes[d]);
        LiveDirMode(img0, sh0, d);
      } else {
        UntouchedTrans(img0, img, img', j);
        UntouchedAt(img0, img', j, n);
      }
    }
    BitmapsDetermined(img0, sh0, img', sh');
  }

  lemma LiveDirMode(img: Image, sh: Shape, d: nat)
    requires Safe(img, sh) && d in sh.live && IsDir(img, d)
    ensures img.inodes[d].indirect == 0
  {
    assert InodeOk(img, sh, d, img.inodes[d]);
  }

  lemma SameFree(bits: seq<bool>, bits': seq<bool>, lo: nat, hi: nat)
    requires lo <= hi <= |bits| == |bits'| && forall b | lo <= b < hi :: bits'[b] == bits[b]
    ensures FreeBits(bits', lo, hi) == FreeBits(bits, lo, hi)
  {
  }

  /**
    On a disk with exact accounts: create a file that is not there, write any pieces to it, close
    and unlink it by the same path.  When the open gives a descriptor, the unlink succeeds and
    both free counts are what they were.
   */
  method CreateWriteUnlink(fs: FileSystem, path: string, access: nat, pieces: seq<seq<Byte>>) returns (fd: int, rc: int)
    requires fs.Valid() && Exact(fs.img, fs.shape) && Resolve(fs.img, path, fs.cwd) == Missing
    modifies fs, fs.fds
    ensures fs.Valid()
    ensures fd >= 0 ==> rc == 0 && Exact(fs.img, fs.shape)
    ensures fd >= 0 ==> fs.shape.live == old(fs.shape.live) && fs.cwd == old(fs.cwd)
    ensures fd >= 0 ==> fs.img.inodeBits == old(fs.img.inodeBits)
    ensures fd >= 0 ==>
              |FreeBits(fs.img.blockBits, DATA_START, JOURNAL_START)|
              == |FreeBits(old(fs.img.blockBits), DATA_START, JOURNAL_START)|
    ensures fd >= 0 ==> |FreeBits(fs.img.inodeBits, 0, MAX_INODES)| == |FreeBits(old(fs.img.inodeBits), 0, MAX_INODES)|
  {
    rc := 0;
    ghost var img0, sh0, i, k := fs.img, fs.shape, 0, 0;
    ghost var mark;
    fd, i, mark := fs.Open(path, Flags(access, true, false, false));
    if fd < 0 {
      return;
    }
    ghost var p := Split(img0, path, fs.cwd);
    k := Born(img0, sh0, fs.img, fs.shape, p.dir, p.name, i);
    var n := 0;
    while n < |pieces|
      invariant n <= |pieces| && fs.Valid() && fs.cwd == old(fs.cwd) && fs.fds[fd].used && fs.fds[fd].ino == i
      invariant Alive(img0, sh0, fs.img, fs.shape, p.dir, p.name, k, i)
    {
      WriteMore(fs, fd, pieces[n], img0, sh0, p.dir, p.name, k, i);
      n := n + 1;
    }
    var _ := fs.Close(fd);
    rc := Finish(fs, path, img0, sh0, p.dir, p.name, k, i);
  }

  method WriteMore(fs: FileSystem, fd: nat, piece: seq<Byte>, ghost img0: Image, ghost sh0: Shape,
                   ghost d: nat, ghost name: string, ghost k: nat, ghost i: nat)
    requires fs.Valid() && fd < MAX_FD && fs.fds[fd].used && fs.fds[fd].ino == i
    requires Alive(img0, sh0, fs.img, fs.shape, d, name, k, i)
    modifies fs, fs.fds
    ensures fs.Valid() && fs.cwd == old(fs.cwd) && fs.fds[fd].used && fs.fds[fd].ino == i
    ensures Alive(img0, sh0, fs.img, fs.shape, d, name, k, i)
  {
    ghost var img, sh, f := fs.img, fs.shape, fs.fds[fd];
    var n := fs.Write(fd, piece);
    if n != -1 {
      Lives(img0, sh0, img, sh, d, name, k, i, fs.img, fs.shape, f.offset, piece[..n]);
    }
  }

  method Finish(fs: FileSystem, path: string, ghost img0: Image, ghost sh0: Shape, ghost d: nat, ghost name: string,
                ghost k: nat, ghost i: nat)
    returns (rc: int)
    requires fs.Valid() && Exact(img0, sh0) && Alive(img0, sh0, fs.img, fs.shape, d, name, k, i)
    requires fs.cwd in sh0.live && Split(img0, path, fs.cwd) == ParentOf(d, name)
    modifies fs
    ensures fs.Valid() && rc == 0 && fs.cwd == old(fs.cwd)
    ensures Exact(fs.img, fs.shape) && fs.shape.live == sh0.live && fs.img.inodeBits == img0.inodeBits
    ensures |FreeBits(fs.img.blockBits, DATA_START, JOURNAL_START)|
              == |FreeBits(img0.blockBits, DATA_START, JOURNAL_START)|
  {
    ghost var img, sh := fs.img, fs.shape;
    StillFound(img0, sh0, img, sh, d, name, k, i);
    assert 0 in sh0.live;
    SplitStays(img0, sh0, img, if path[0] == '/' then 0 else fs.cwd, path);
    rc := fs.Unlink(path);
    Gone(img0, sh0, img, sh, d, name, k, i, fs.img, fs.shape);
    SameFree(img0.blockBits, fs.img.blockBits, DATA_START, JOURNAL_START);
  }
}
