/** What calls find of what earlier calls have done. */
module FsCalls {
  import opened FsDisk
  import opened FsPaths
  import opened FsShape
  import opened FsSteps
  import opened FsFiles
  import opened FsCreate
  import opened FsWalk
  import opened FsRemove
  import opened FsLife
  import opened FileSystems
  import opened FsCommands

  // ---------------------------------------------------------------- what is found afterwards

  /** After a creation, the new name is found, and whatever was found before. */
  lemma CreatedFound(img0: Image, sh0: Shape, img: Image, sh: Shape, d: nat, name: string, mode: Mode, i: nat)
    requires Created(img0, sh0, img, sh, d, name, mode, i)
    ensures Lookup(img, d, name) == Inum(i)
    ensures forall e: nat, x: string | e in sh0.live && Lookup(img0, e, x).Inum? ::
              Lookup(img, e, x) == Lookup(img0, e, x)
  {
    var k := FindHole(Listing(img0, d), 0);
    FoundNew(Listing(img0, d), name, k, i);
    forall e: nat, x: string | e in sh0.live && Lookup(img0, e, x).Inum?
      ensures Lookup(img, e, x) == Lookup(img0, e, x)
    {
      if e == d {
        FoundPast(Listing(img0, d), name, k, i, x);
      } else {
        SameDir(img0, sh0, img, e);
      }
    }
  }

  /** So the path now resolves, unless it has an over-long component, and it splits as before. */
  lemma CreatedResolves(img0: Image, sh0: Shape, img: Image, sh: Shape, path: string, cwd: nat, mode: Mode, i: nat)
    requires Safe(img0, sh0) && cwd in sh0.live && Split(img0, path, cwd).ParentOf?
    requires Created(img0, sh0, img, sh, Split(img0, path, cwd).dir, Split(img0, path, cwd).name, mode, i)
    ensures Split(img, path, cwd) == Split(img0, path, cwd)
    ensures Resolve(img, path, cwd) == if AllShort(path) then Inum(i) else Missing
  {
    var p := Split(img0, path, cwd);
    CreatedFound(img0, sh0, img, sh, p.dir, p.name, mode, i);
    assert 0 in sh0.live;
    SplitStays(img0, sh0, img, if path[0] == '/' then 0 else cwd, path);
    ResolveIsLookup(img, path, cwd);
  }

  /** Emptying a file changes no path. */
  lemma TruncatedResolves(img0: Image, sh0: Shape, img: Image, sh: Shape, c: nat, path: string, cwd: nat)
    requires Truncated(img0, sh0, img, sh, c) && cwd in sh0.live && Resolve(img0, path, cwd).Inum?
    ensures Resolve(img, path, cwd) == Resolve(img0, path, cwd)
  {
    forall e: nat, x: string | e in sh0.live && Lookup(img0, e, x).Inum?
      ensures Lookup(img, e, x) == Lookup(img0, e, x)
    {
      SameDir(img0, sh0, img, e);
    }
    assert 0 in sh0.live;
    ResolveStays(img0, sh0, img, if path[0] == '/' then 0 else cwd, path);
  }

  // ---------------------------------------------------------------- opening

  /** Some descriptor is unused, and `fd` is the lowest such. */
  predicate LowestUnused(fds: seq<Fd>, fd: nat) {
    fd < |fds| && !fds[fd].used && forall k | 0 <= k < fd :: fds[k].used
  }

  lemma SeatedLowest(fds: seq<Fd>, fds': seq<Fd>, rc: int, f: Fd, fd: nat)
    requires Seated(fds, fds', rc, f) && LowestUnused(fds, fd)
    ensures |fds'| == |fds| && fds'[fd] == f && forall k | 0 <= k < |fds| && k != fd :: fds'[k] == fds[k]
  {
    assert rc == fd;
  }

  /** An existing file is opened: the lowest unused descriptor gets it; nothing else changes unless it is emptied. */
  lemma OpensExisting(v: View, v': View, path: string, flags: Flags, i: nat, fd: nat)
    requires Sound(v) && Did(DoOpen(path, flags), v, v') && LowestUnused(v.fds, fd)
    requires Resolve(v.img, path, v.cwd) == Inum(i) && i < MAX_INODES && v.img.inodes[i].mode == FileMode
    ensures |v'.fds| == |v.fds| && v'.fds[fd].used && v'.fds[fd].ino == i && v'.fds[fd].flags == flags
    ensures forall k | 0 <= k < |v.fds| && k != fd :: v'.fds[k] == v.fds[k]
    ensures !flags.trunc ==>
              && v'.img == v.img && v'.shape == v.shape
              && v'.fds[fd].offset == if flags.append then v.img.inodes[i].size else 0
    ensures flags.trunc ==> Contents(v'.img, i) == [] && v'.fds[fd].offset == 0
  {
    OpenCodes(v.img, path, v.cwd, flags.create);
    var rc: int, ino: nat, mark: nat :| Opens(v, v', path, flags, rc, ino, mark);
    SeatedLowest(v.fds, v'.fds, rc, Fd(true, ino, if flags.append then v'.img.inodes[ino].size else 0, flags), fd);
    OpenedEmpty(v.img, v.shape, v'.img, v'.shape, path, v.cwd, flags.trunc, ino);
  }

  lemma OpenedEmpty(img0: Image, sh0: Shape, img: Image, sh: Shape, path: string, cwd: nat, trunc: bool, ino: nat)
    requires Safe(img0, sh0) && Opened(img0, sh0, img, sh, path, cwd, trunc, ino)
    requires Resolve(img0, path, cwd).Inum?
    ensures ino == Resolve(img0, path, cwd).ino && (!trunc ==> img == img0 && sh == sh0)
    ensures trunc ==> Sized(img) && ino < MAX_INODES && img.inodes[ino].size == 0 && Contents(img, ino) == []
  {
    var mid, midsh :| MidOpen(img0, sh0, mid, midsh, path, cwd, ino)
                      && if trunc then Truncated(mid, midsh, img, sh, ino) else img == mid && sh == midsh;
  }

  /**
    A missing file is created: when the name is new in the directory that the path leads to, and an
    inode, a block, an entry and a descriptor are free, the lowest unused descriptor gets a file
    that was not there before and is empty, and the path leads to it unless it has an over-long component.
   */
  lemma OpensNew(v: View, v': View, path: string, flags: Flags, fd: nat)
    requires Sound(v) && Did(DoOpen(path, flags), v, v') && LowestUnused(v.fds, fd)
    requires Resolve(v.img, path, v.cwd) == Missing && flags.create && Split(v.img, path, v.cwd).ParentOf?
    requires var p := Split(v.img, path, v.cwd);
             Lookup(v.img, p.dir, p.name) == Missing && InodeLeft(v.img) && BlockLeft(v.img) && HasHole(v.img, p.dir)
    ensures |v'.fds| == |v.fds| && v'.fds[fd].used && v'.fds[fd].flags == flags && v'.fds[fd].offset == 0
    ensures forall k | 0 <= k < |v.fds| && k != fd :: v'.fds[k] == v.fds[k]
    ensures var i := v'.fds[fd].ino;
            && i !in v.shape.live && i < MAX_INODES && Sized(v'.img) && v'.img.inodes[i].mode == FileMode
            && Contents(v'.img, i) == []
            && (AllShort(path) ==> Resolve(v'.img, path, v.cwd) == Inum(i))
  {
    OpenCodes(v.img, path, v.cwd, flags.create);
    var rc: int, ino: nat, mark: nat :| Opens(v, v', path, flags, rc, ino, mark);
    SeatedLowest(v.fds, v'.fds, rc, Fd(true, ino, if flags.append then v'.img.inodes[ino].size else 0, flags), fd);
    OpenedNew(v.img, v.shape, v'.img, v'.shape, path, v.cwd, flags.trunc, ino);
  }

  lemma OpenedNew(img0: Image, sh0: Shape, img: Image, sh: Shape, path: string, cwd: nat, trunc: bool, ino: nat)
    requires Safe(img0, sh0) && Opened(img0, sh0, img, sh, path, cwd, trunc, ino) && cwd in sh0.live
    requires Resolve(img0, path, cwd) == Missing
    ensures Sized(img) && ino < MAX_INODES && ino !in sh0.live && img.inodes[ino].size == 0 && Contents(img, ino) == []
    ensures AllShort(path) ==> Resolve(img, path, cwd) == Inum(ino)
  {
    var mid, midsh :| MidOpen(img0, sh0, mid, midsh, path, cwd, ino)
                      && if trunc then Truncated(mid, midsh, img, sh, ino) else img == mid && sh == midsh;
    CreatedResolves(img0, sh0, mid, midsh, path, cwd, FileMode, ino);
    if trunc && AllShort(path) {
      TruncatedResolves(mid, midsh, img, sh, ino, path, cwd);
    }
  }

  /** Create, close and open again: the same file, whatever the flags. */
  lemma CreateCloseOpen(v0: View, v1: View, v2: View, v3: View, path: string, flags: Flags, again: Flags,
                        fd: nat)
    requires Sound(v0) && Sound(v1) && Sound(v2) && LowestUnused(v0.fds, fd)
    requires Resolve(v0.img, path, v0.cwd) == Missing && AllShort(path)
    requires flags.create && Openable(v0.img, path, v0.cwd, true)
    requires Did(DoOpen(path, flags), v0, v1) && Did(DoClose(fd), v1, v2) && Did(DoOpen(path, again), v2, v3)
    ensures |v1.fds| == |v3.fds| == MAX_FD && v3.fds[fd].used && v3.fds[fd].ino == v1.fds[fd].ino
    ensures v1.fds[fd].ino !in v0.shape.live
  {
    OpensNew(v0, v1, path, flags, fd);
    OpenKeepsCwd(v0, v1, path, flags);
    ClosedAgain(v0.fds, v1.fds, v2.fds, fd);
    Reopened(v1, v2, v3, path, again, v1.fds[fd].ino, fd);
  }

  lemma ClosedAgain(fds0: seq<Fd>, fds1: seq<Fd>, fds2: seq<Fd>, fd: nat)
    requires LowestUnused(fds0, fd) && |fds1| == |fds0| && forall k | 0 <= k < |fds0| && k != fd :: fds1[k] == fds0[k]
    requires fds2 == fds1[fd := fds1[fd].(used := false)]
    ensures LowestUnused(fds2, fd)
  {
  }

  lemma Reopened(v1: View, v2: View, v3: View, path: string, again: Flags, i: nat, fd: nat)
    requires Sound(v1) && Sound(v2) && v2.img == v1.img && v2.cwd == v1.cwd && LowestUnused(v2.fds, fd)
    requires Resolve(v1.img, path, v1.cwd) == Inum(i) && i < MAX_INODES && v1.img.inodes[i].mode == FileMode
    requires Did(DoOpen(path, again), v2, v3)
    ensures |v3.fds| == MAX_FD && v3.fds[fd].used && v3.fds[fd].ino == i
  {
    OpensExisting(v2, v3, path, again, i, fd);
  }

  lemma OpenKeepsCwd(v: View, v': View, path: string, flags: Flags)
    requires Sound(v) && Did(DoOpen(path, flags), v, v')
    ensures v'.cwd == v.cwd
  {
    var rc: int, ino: nat, mark: nat :| Opens(v, v', path, flags, rc, ino, mark);
  }

  // ---------------------------------------------------------------- directories

  /** A directory that was made can be entered by the same path, and ".." leads to where it was made. */
  lemma MakeAndEnter(v0: View, v1: View, v2: View, v3: View, path: string)
    requires Sound(v0) && Sound(v1) && Sound(v2) && AllShort(path) && Split(v0.img, path, v0.cwd).ParentOf?
    requires var p := Split(v0.img, path, v0.cwd);
             && Lookup(v0.img, p.dir, p.name) == Missing
             && InodeLeft(v0.img) && BlockLeft(v0.img) && HasHole(v0.img, p.dir)
    requires Did(DoMkdir(path), v0, v1) && Did(DoChdir(path), v1, v2) && Did(DoChdir(".."), v2, v3)
    ensures v2.cwd !in v0.shape.live && v2.cwd in v2.shape.live && v3.cwd == Split(v0.img, path, v0.cwd).dir
  {
    var p := Split(v0.img, path, v0.cwd);
    CreateCodes(v0.img, p.dir, p.name);
    var i: nat :| Makes(v0, v1, path, i);
    CreatedResolves(v0.img, v0.shape, v1.img, v1.shape, path, v0.cwd, DirMode, i);
    CreatedFound(v0.img, v0.shape, v1.img, v1.shape, p.dir, p.name, DirMode, i);
    ChildsParent(v1.img, v1.shape, p.dir, p.name, i);
    DotsResolve(v1.img, v1.shape, i);
  }

  /** fs_chdir to ".." goes to the parent directory; to a child directory and then "..", it comes back. */
  lemma DownAndBack(v0: View, v1: View, v2: View, name: string)
    requires Sound(v0) && Sound(v1) && GoodName(name)
    requires Did(DoChdir(name), v0, v1) && Did(DoChdir(".."), v1, v2)
    ensures var r := Lookup(v0.img, v0.cwd, name);
            if r.Inum? && r.ino < MAX_INODES && v0.img.inodes[r.ino].mode == DirMode
            then v1.cwd == r.ino && v2.cwd == v0.cwd
            else v1 == v0 && v0.cwd in v0.shape.parent && v2.cwd == v0.shape.parent[v0.cwd]
  {
    ResolveName(v0.img, name, v0.cwd);
    DotsResolve(v0.img, v0.shape, v0.cwd);
    DotsFind(v0.img, v0.shape, v0.cwd);
    var r := Lookup(v0.img, v0.cwd, name);
    if r.Inum? && r.ino < MAX_INODES && v0.img.inodes[r.ino].mode == DirMode {
      DownAndUp(v0.img, v0.shape, v0.cwd, name, r.ino);
    }
  }

  // ---------------------------------------------------------------- unlinking

  /** An unlink that succeeds removes the name: it is not found again. */
  lemma UnlinkedMissing(v: View, v': View, path: string)
    requires Sound(v) && Did(DoUnlink(path), v, v') && UnlinkCode(v.img, path, v.cwd) == 0
    ensures var p := Split(v.img, path, v.cwd);
            && p.ParentOf? && Lookup(v.img, p.dir, p.name).Inum?
            && Sized(v'.img) && Lookup(v'.img, p.dir, p.name) == Missing
            && Lookup(v.img, p.dir, p.name).ino !in v'.shape.live
  {
    var p := Split(v.img, path, v.cwd);
    LiveListing(v.img, v.shape, p.dir);
    var entries, k := Listing(v.img, p.dir), FindName(Listing(v.img, p.dir), p.name, 0);
    var g := FindName(entries[k := NO_ENTRY], p.name, 0);
    assert Names(entries[k], p.name) && k >= 2;
    assert forall j | 2 <= j < DIR_ENTRIES && j != k :: !Names(entries[j], p.name);
  }

  /** A file or an empty directory other than the root, found under a proper name, can be unlinked. */
  lemma UnlinksWhatIsThere(v: View, v': View, path: string, c: nat)
    requires Sound(v) && Did(DoUnlink(path), v, v') && Split(v.img, path, v.cwd).ParentOf?
    requires Lookup(v.img, Split(v.img, path, v.cwd).dir, Split(v.img, path, v.cwd).name) == Inum(c)
    requires c in v.shape.live && c != 0 && (IsDir(v.img, c) ==> EmptyDir(Listing(v.img, c)))
    ensures c !in v'.shape.live && (forall j | j in v.shape.live && j != c :: j in v'.shape.live)
    ensures v'.cwd == if v.cwd == c then 0 else v.cwd
  {
    UnlinkCodes(v.img, path, v.cwd);
    if IsDir(v.img, c) {
      LiveListing(v.img, v.shape, c);
    }
  }
}
