/** Whole runs: any sequence of commands, with crashes in between. */
module FsRuns {
  import opened FsDisk
  import opened FsPaths
  import opened FsShape
  import opened FsFiles
  import opened FsGrow
  import opened FsStray
  import opened FsWrite
  import opened FsCreate
  import opened FsRemove
  import opened FsPwd
  import opened FsCrash
  import opened FileSystems
  import opened FsCommands

  // ---------------------------------------------------------------- stale descriptors

  predicate NoStale(img: Image, fds: seq<Fd>)
    requires Sized(img)
  {
    forall k | 0 <= k < |fds| && fds[k].used :: !Stale(img, fds[k])
  }

  /**
    The open that leaves a descriptor stale: its create fails only at the directory entry, and some
    descriptor still refers to the free inode that it takes and gives back.
   */
  predicate Spoils(img: Image, fds: seq<Fd>, path: string, cwd: nat, create: bool)
    requires Sized(img)
  {
    && OpenError(img, path, cwd, create) == -4
    && CreateCode(img, Split(img, path, cwd).dir, Split(img, path, cwd).name) == -5
    && exists k :: 0 <= k < |fds| && fds[k].used && fds[k].ino == FirstInode(img)
  }

  /** A failed open makes a descriptor stale exactly when it spoils. */
  lemma FailedOpenStale(img0: Image, img: Image, fds: seq<Fd>, path: string, cwd: nat, create: bool)
    requires Sized(img0) && Sized(img) && NoStale(img0, fds) && OpenLitter(img0, img, path, cwd, create)
    ensures NoStale(img, fds) <==> !Spoils(img0, fds, path, cwd, create)
  {
    if Spoils(img0, fds, path, cwd, create) {
      var k :| 0 <= k < |fds| && fds[k].used && fds[k].ino == FirstInode(img0);
      assert Stale(img, fds[k]);
    }
  }

  lemma CreatedStale(img0: Image, sh0: Shape, img: Image, sh: Shape, d: nat, name: string, mode: Mode, i: nat,
                     fds: seq<Fd>)
    requires Created(img0, sh0, img, sh, d, name, mode, i) && NoStale(img0, fds)
    ensures NoStale(img, fds)
  {
  }

  lemma DeletedStale(img0: Image, sh0: Shape, img: Image, sh: Shape, d: nat, k: nat, c: nat, fds: seq<Fd>)
    requires Deleted(img0, sh0, img, sh, d, k, c) && NoStale(img0, fds)
    ensures NoStale(img, fds)
  {
  }

  lemma TruncatedStale(img0: Image, sh0: Shape, img: Image, sh: Shape, c: nat, fds: seq<Fd>)
    requires Truncated(img0, sh0, img, sh, c) && NoStale(img0, fds)
    ensures NoStale(img, fds)
  {
  }

  /** A successful open leaves no descriptor stale, its own included. */
  lemma OpenedStale(img0: Image, sh0: Shape, img: Image, sh: Shape, path: string, cwd: nat, trunc: bool, ino: nat,
                    fds: seq<Fd>)
    requires Safe(img0, sh0) && Opened(img0, sh0, img, sh, path, cwd, trunc, ino) && Sized(img) && NoStale(img0, fds)
    ensures NoStale(img, fds)
  {
    var mid, midsh :| MidOpen(img0, sh0, mid, midsh, path, cwd, ino)
                      && if trunc then Truncated(mid, midsh, img, sh, ino) else img == mid && sh == midsh;
    if Resolve(img0, path, cwd).Missing? {
      var p := Split(img0, path, cwd);
      CreatedStale(img0, sh0, mid, midsh, p.dir, p.name, FileMode, ino, fds);
    }
    if trunc {
      TruncatedStale(mid, midsh, img, sh, ino, fds);
    }
  }

  // ---------------------------------------------------------------- good descriptors and files without holes

  ghost predicate AllFdOk(img: Image, sh: Shape, fds: seq<Fd>) {
    forall k | 0 <= k < |fds| && fds[k].used :: FdOk(img, sh, fds[k])
  }

  /** Every descriptor is good and no file has a hole. */
  ghost predicate Calm(img: Image, sh: Shape, fds: seq<Fd>) { sh.live <= sh.solid && AllFdOk(img, sh, fds) }

  ghost predicate SolidHistory(h: seq<Image>, torn: set<nat>) {
    forall k | 0 <= k < |h| && k !in torn :: SolidImage(h[k])
  }

  lemma PointSolid(sc: Scope, img: Image)
    requires Point(sc, img) && sc.live <= sc.solid
    ensures SolidImage(img)
  {
    var sh :| InScope(sc, img, sh);
  }

  lemma SolidOn(h: seq<Image>, h': seq<Image>, torn: set<nat>, sc: Scope)
    requires SolidHistory(h, torn) && Extends(h, h', sc) && sc.live <= sc.solid
    ensures SolidHistory(h', torn)
  {
    forall k | 0 <= k < |h'| && k !in torn
      ensures SolidImage(h'[k])
    {
      if k < |h| {
        assert h'[k] == h'[..|h|][k];
      } else {
        PointSolid(sc, h'[k]);
      }
    }
  }

  lemma FdAfterWrite(img0: Image, sh0: Shape, img: Image, sh: Shape, i: nat, o: nat, data: seq<Byte>, f: Fd)
    requires Wrote(img0, sh0, img, sh, i, o, data) && o <= img0.inodes[i].size && FdOk(img0, sh0, f)
    ensures FdOk(img, sh, f)
    ensures f.ino == i && f.offset == o ==> FdOk(img, sh, f.(offset := o + |data|))
  {
    assert |Contents(img, i)| == img.inodes[i].size && |Contents(img0, i)| == img0.inodes[i].size;
    if f.ino != i {
      assert Untouched(img0, img, f.ino);
    }
  }

  lemma CalmAfterWrite(img0: Image, sh0: Shape, img: Image, sh: Shape, fds: seq<Fd>, fd: nat, data: seq<Byte>,
                       fds': seq<Fd>)
    requires fd < |fds| == |fds'| && Wrote(img0, sh0, img, sh, fds[fd].ino, fds[fd].offset, data)
    requires Calm(img0, sh0, fds) && fds[fd].used && fds'[fd] == fds[fd].(offset := fds[fd].offset + |data|)
    requires forall k | 0 <= k < |fds| && k != fd :: fds'[k] == fds[k]
    ensures Calm(img, sh, fds')
  {
    forall k | 0 <= k < |fds'| && fds'[k].used
      ensures FdOk(img, sh, fds'[k])
    {
      FdAfterWrite(img0, sh0, img, sh, fds[fd].ino, fds[fd].offset, data, fds[k]);
    }
  }

  lemma CalmAfterCreate(img0: Image, sh0: Shape, img: Image, sh: Shape, d: nat, name: string, mode: Mode, i: nat,
                        fds: seq<Fd>)
    requires Created(img0, sh0, img, sh, d, name, mode, i) && Calm(img0, sh0, fds)
    ensures Calm(img, sh, fds)
  {
    forall k | 0 <= k < |fds| && fds[k].used
      ensures FdOk(img, sh, fds[k])
    {
      CreatedDir(img0, sh0, img, sh, d, name, mode, i, fds[k].ino);
    }
  }

  lemma CalmAfterDelete(img0: Image, sh0: Shape, img: Image, sh: Shape, d: nat, k: nat, c: nat, fds: seq<Fd>)
    requires Deleted(img0, sh0, img, sh, d, k, c) && Calm(img0, sh0, fds)
    requires forall j | 0 <= j < |fds| && fds[j].used :: fds[j].ino != c
    ensures Calm(img, sh, fds)
  {
  }

  lemma CalmAfterFailure(img0: Image, sh0: Shape, img: Image, sh: Shape, fds: seq<Fd>)
    requires Restored(img0, sh0, img, sh) && Calm(img0, sh0, fds)
    ensures Calm(img, sh, fds)
  {
    forall k | 0 <= k < |fds| && fds[k].used
      ensures FdOk(img, sh, fds[k])
    {
      assert Untouched(img0, img, fds[k].ino);
    }
  }

  lemma CalmAfterOpen(img0: Image, sh0: Shape, img: Image, sh: Shape, path: string, cwd: nat, trunc: bool, ino: nat,
                      fds: seq<Fd>)
    requires Safe(img0, sh0) && Opened(img0, sh0, img, sh, path, cwd, trunc, ino) && Calm(img0, sh0, fds)
    requires var r := Resolve(img0, path, cwd);
             trunc && r.Inum? ==> forall k | 0 <= k < |fds| && fds[k].used :: fds[k].ino != r.ino
    ensures Calm(img, sh, fds)
  {
    var mid, midsh :| MidOpen(img0, sh0, mid, midsh, path, cwd, ino)
                      && if trunc then Truncated(mid, midsh, img, sh, ino) else img == mid && sh == midsh;
    if Resolve(img0, path, cwd).Missing? {
      var p := Split(img0, path, cwd);
      CalmAfterCreate(img0, sh0, mid, midsh, p.dir, p.name, FileMode, ino, fds);
    }
    if trunc {
      forall k | 0 <= k < |fds| && fds[k].used
        ensures FdOk(img, sh, fds[k])
      {
        assert FdOk(mid, midsh, fds[k]) && Untouched(mid, img, fds[k].ino);
      }
    }
  }

  /** Opening keeps the accounts exact, whatever it returns. */
  lemma OpenExact(img0: Image, sh0: Shape, img: Image, sh: Shape, path: string, cwd: nat, trunc: bool, ino: nat)
    requires Safe(img0, sh0) && Opened(img0, sh0, img, sh, path, cwd, trunc, ino)
    ensures Exact(img0, sh0) ==> Exact(img, sh)
  {
    var mid, midsh :| MidOpen(img0, sh0, mid, midsh, path, cwd, ino)
                      && if trunc then Truncated(mid, midsh, img, sh, ino) else img == mid && sh == midsh;
  }

  // ---------------------------------------------------------------- what may happen to a run

  /** The command leaves a descriptor stale. */
  predicate SpoiledBy(c: Command, v: View)
    requires Sized(v.img)
  {
    c.DoOpen? && Spoils(v.img, v.fds, c.path, v.cwd, c.flags.create)
  }

  predicate IsOpen(fds: seq<Fd>, i: nat) { exists k :: 0 <= k < |fds| && fds[k].used && fds[k].ino == i }

  /** The command unlinks or truncates a file that is open. */
  predicate Rough(c: Command, v: View)
    requires Sized(v.img)
  {
    match c
    case DoOpen(path, flags) =>
      flags.trunc && (var r := Resolve(v.img, path, v.cwd); r.Inum? && IsOpen(v.fds, r.ino))
    case DoUnlink(path) =>
      var p := Split(v.img, path, v.cwd);
      p.ParentOf? && (var r := Lookup(v.img, p.dir, p.name); r.Inum? && IsOpen(v.fds, r.ino))
    case _ => false
  }

  /** The command is a write through a stale descriptor. */
  predicate StaleWrite(c: Command, v: View)
    requires Sized(v.img)
  {
    c.DoWrite? && 0 <= c.fd < |v.fds| && Strays(v.img, v.fds[c.fd])
  }

  /** It has allocated blocks for the inode, which is not live. */
  predicate Leaked(c: Command, v: View, v': View)
    requires Sized(v.img) && Sized(v'.img)
  {
    StaleWrite(c, v) && !NoneTaken(v.img, v'.img)
  }

  /** Every stale descriptor is on an inode as a failed create leaves it. */
  predicate AllLeftOver(img: Image, fds: seq<Fd>)
    requires Sized(img)
  {
    forall k | 0 <= k < |fds| && fds[k].used && Stale(img, fds[k]) :: LeftOver(img.inodes[fds[k].ino])
  }

  /** Every descriptor is good, no file has a hole, and so at every crash point. */
  ghost predicate Steady(v: View) { Calm(v.img, v.shape, v.fds) && SolidHistory(v.history, v.torn) }

  // ---------------------------------------------------------------- one command

  /** The bitmaps stay exact, but for a crash or a write that leaks. */
  lemma DidExact(c: Command, v: View, v': View)
    requires Sound(v) && Sound(v') && Did(c, v, v') && Exact(v.img, v.shape) && !c.Crash? && !Leaked(c, v, v')
    ensures Exact(v'.img, v'.shape)
  {
    match c {
      case DoOpen(path, flags) =>
        var fd: int, ino: nat, mark: nat :| Opens(v, v', path, flags, fd, ino, mark);
        OpensExact(v, v', path, flags, fd, ino, mark);
      case DoWrite(fd, data) =>
        if Writable(v, fd) {
          var n: nat :| Writes(v, v', fd, data, n);
          WriteExact(v, v', fd, data, n);
        }
      case _ =>
    }
  }

  lemma OpensExact(v: View, v': View, path: string, flags: Flags, fd: int, ino: nat, mark: nat)
    requires Sound(v) && Opens(v, v', path, flags, fd, ino, mark) && Exact(v.img, v.shape)
    ensures Exact(v'.img, v'.shape)
  {
    if OpenError(v.img, path, v.cwd, flags.create) == 0 {
      OpenExact(v.img, v.shape, v'.img, v'.shape, path, v.cwd, flags.trunc, ino);
    }
  }

  lemma WriteExact(v: View, v': View, fd: int, data: seq<Byte>, n: nat)
    requires Sound(v) && Sound(v') && Writable(v, fd) && Writes(v, v', fd, data, n) && Exact(v.img, v.shape)
    requires !Leaked(DoWrite(fd, data), v, v')
    ensures Exact(v'.img, v'.shape)
  {
    var f := v.fds[fd];
    if f.ino !in v.shape.live {
      AimedSafe(v.img, v.shape, f.ino, f.offset);
      StrayedExact(Started(v.img, v.shape, f, data), v'.img, v'.shape);
    }
  }

  /** A command leaves a descriptor stale if and only if it is an open that spoils. */
  lemma StaleIff(c: Command, v: View, v': View)
    requires Sound(v) && Sound(v') && Did(c, v, v') && NoStale(v.img, v.fds)
    ensures NoStale(v'.img, v'.fds) <==> !SpoiledBy(c, v)
  {
    match c {
      case DoOpen(path, flags) =>
        var fd: int, ino: nat, mark: nat :| Opens(v, v', path, flags, fd, ino, mark);
        OpenStale(v, v', path, flags, fd, ino, mark);
      case DoWrite(fd, data) =>
        if Writable(v, fd) {
          var n: nat :| Writes(v, v', fd, data, n);
          WriteStale(v, v', fd, data, n);
        }
      case DoUnlink(path) =>
        if UnlinkCode(v.img, path, v.cwd) == 0 {
          UnlinkStale(v, v', path);
        }
      case DoMkdir(path) =>
        var ino: nat :| Makes(v, v', path, ino);
        MakeStale(v, v', path, ino);
      case _ =>
    }
  }

  lemma OpenStale(v: View, v': View, path: string, flags: Flags, fd: int, ino: nat, mark: nat)
    requires Sound(v) && Sound(v') && Opens(v, v', path, flags, fd, ino, mark) && NoStale(v.img, v.fds)
    ensures NoStale(v'.img, v'.fds) <==> !Spoils(v.img, v.fds, path, v.cwd, flags.create)
  {
    if OpenError(v.img, path, v.cwd, flags.create) != 0 {
      FailedOpenStale(v.img, v'.img, v.fds, path, v.cwd, flags.create);
    } else {
      OpenedStale(v.img, v.shape, v'.img, v'.shape, path, v.cwd, flags.trunc, ino, v.fds);
    }
  }

  lemma WriteStale(v: View, v': View, fd: int, data: seq<Byte>, n: nat)
    requires Sound(v) && Sound(v') && Writable(v, fd) && Writes(v, v', fd, data, n) && NoStale(v.img, v.fds)
    ensures NoStale(v'.img, v'.fds)
  {
    assert Known(v.img, v.shape, v.fds[fd]) && !Stale(v.img, v.fds[fd]);
  }

  lemma UnlinkStale(v: View, v': View, path: string)
    requires Sound(v) && UnlinkCode(v.img, path, v.cwd) == 0 && Unlinks(v, v', path) && NoStale(v.img, v.fds)
    ensures NoStale(v'.img, v'.fds)
  {
    var p := Split(v.img, path, v.cwd);
    DeletedStale(v.img, v.shape, v'.img, v'.shape, p.dir, FindName(Listing(v.img, p.dir), p.name, 0),
        Lookup(v.img, p.dir, p.name).ino, v.fds);
  }

  lemma MakeStale(v: View, v': View, path: string, ino: nat)
    requires Sound(v) && Sound(v') && Makes(v, v', path, ino) && NoStale(v.img, v.fds)
    ensures NoStale(v'.img, v'.fds)
  {
    if MkdirCode(v.img, path, v.cwd) == 0 {
      var p := Split(v.img, path, v.cwd);
      CreatedStale(v.img, v.shape, v'.img, v'.shape, p.dir, p.name, DirMode, ino, v.fds);
    }
  }

  /** Unless a write leaks, the inodes of stale descriptors stay as a failed create leaves them. */
  lemma DidLeftOver(c: Command, v: View, v': View)
    requires Sound(v) && Sound(v') && Did(c, v, v') && AllLeftOver(v.img, v.fds) && !Leaked(c, v, v')
    ensures AllLeftOver(v'.img, v'.fds)
  {
    match c {
      case DoOpen(path, flags) =>
        var fd: int, ino: nat, mark: nat :| Opens(v, v', path, flags, fd, ino, mark);
        OpenLeftOver(v, v', path, flags, fd, ino, mark);
      case DoWrite(fd, data) =>
        if Writable(v, fd) {
          var n: nat :| Writes(v, v', fd, data, n);
          WriteLeftOver(v, v', fd, data, n);
        }
      case DoUnlink(path) =>
        if UnlinkCode(v.img, path, v.cwd) == 0 {
          UnlinkLeftOver(v, v', path);
        }
      case DoMkdir(path) =>
        var ino: nat :| Makes(v, v', path, ino);
        MakeLeftOver(v, v', path, ino);
      case Crash(at) =>
      case _ => SameLeftOver(v, v');
    }
  }

  lemma SameLeftOver(v: View, v': View)
    requires Sized(v.img) && v'.img == v.img && |v'.fds| == |v.fds| && AllLeftOver(v.img, v.fds)
    requires forall k | 0 <= k < |v.fds| && v'.fds[k].used :: v.fds[k].used && v'.fds[k].ino == v.fds[k].ino
    ensures AllLeftOver(v'.img, v'.fds)
  {
  }

  lemma UnlinkLeftOver(v: View, v': View, path: string)
    requires Sound(v) && UnlinkCode(v.img, path, v.cwd) == 0 && Unlinks(v, v', path) && AllLeftOver(v.img, v.fds)
    ensures AllLeftOver(v'.img, v'.fds)
  {
  }

  lemma MakeLeftOver(v: View, v': View, path: string, ino: nat)
    requires Sound(v) && Sound(v') && Makes(v, v', path, ino) && AllLeftOver(v.img, v.fds)
    ensures AllLeftOver(v'.img, v'.fds)
  {
  }

  lemma WriteLeftOver(v: View, v': View, fd: int, data: seq<Byte>, n: nat)
    requires Sound(v) && Sound(v') && Writable(v, fd) && Writes(v, v', fd, data, n) && AllLeftOver(v.img, v.fds)
    requires !Leaked(DoWrite(fd, data), v, v')
    ensures AllLeftOver(v'.img, v'.fds)
  {
  }

  lemma OpenLeftOver(v: View, v': View, path: string, flags: Flags, fd: int, ino: nat, mark: nat)
    requires Sound(v) && Sound(v') && Opens(v, v', path, flags, fd, ino, mark) && AllLeftOver(v.img, v.fds)
    ensures AllLeftOver(v'.img, v'.fds)
  {
    if OpenError(v.img, path, v.cwd, flags.create) == 0 {
      OpenedLeftOver(v.img, v.shape, v'.img, v'.shape, path, v.cwd, flags.trunc, ino, v.fds);
    } else {
      FailedLeftOver(v.img, v'.img, v.fds, path, v.cwd, flags.create);
    }
  }

  lemma FailedLeftOver(img0: Image, img: Image, fds: seq<Fd>, path: string, cwd: nat, create: bool)
    requires Sized(img0) && Sized(img) && OpenLitter(img0, img, path, cwd, create) && AllLeftOver(img0, fds)
    ensures AllLeftOver(img, fds)
  {
  }

  lemma OpenedLeftOver(img0: Image, sh0: Shape, img: Image, sh: Shape, path: string, cwd: nat, trunc: bool, ino: nat,
                       fds: seq<Fd>)
    requires Safe(img0, sh0) && Opened(img0, sh0, img, sh, path, cwd, trunc, ino) && Sized(img)
    requires AllLeftOver(img0, fds)
    ensures AllLeftOver(img, fds)
  {
    var mid, midsh :| MidOpen(img0, sh0, mid, midsh, path, cwd, ino)
                      && if trunc then Truncated(mid, midsh, img, sh, ino) else img == mid && sh == midsh;
  }

  /** Unless an open file is unlinked or truncated, every descriptor stays good and no file gets a hole. */
  lemma DidSteady(c: Command, v: View, v': View)
    requires Sound(v) && Sound(v') && Did(c, v, v') && Steady(v) && !Rough(c, v)
    ensures Steady(v')
  {
    match c {
      case DoOpen(path, flags) =>
        var fd: int, ino: nat, mark: nat :| Opens(v, v', path, flags, fd, ino, mark);
        OpenSteady(v, v', path, flags, fd, ino, mark);
      case DoWrite(fd, data) =>
        if Writable(v, fd) {
          var n: nat :| Writes(v, v', fd, data, n);
          WriteSteady(v, v', fd, data, n);
        }
      case DoUnlink(path) =>
        if UnlinkCode(v.img, path, v.cwd) == 0 {
          UnlinkSteady(v, v', path);
        }
      case DoMkdir(path) =>
        var ino: nat :| Makes(v, v', path, ino);
        MakeSteady(v, v', path, ino);
      case _ =>
    }
  }

  lemma WriteSteady(v: View, v': View, fd: int, data: seq<Byte>, n: nat)
    requires Sound(v) && Sound(v') && Writable(v, fd) && Writes(v, v', fd, data, n) && Steady(v)
    ensures Steady(v')
  {
    var f := v.fds[fd];
    assert FdOk(v.img, v.shape, f);
    CalmAfterWrite(v.img, v.shape, v'.img, v'.shape, v.fds, fd, data[..n], v'.fds);
    SolidOn(v.history, v'.history, v.torn, WriteScope(Started(v.img, v.shape, f, data)));
  }

  lemma UnlinkSteady(v: View, v': View, path: string)
    requires Sound(v) && Sound(v') && UnlinkCode(v.img, path, v.cwd) == 0 && Unlinks(v, v', path) && Steady(v)
    requires !Rough(DoUnlink(path), v)
    ensures Steady(v')
  {
    var p := Split(v.img, path, v.cwd);
    var c := Lookup(v.img, p.dir, p.name).ino;
    CalmAfterDelete(v.img, v.shape, v'.img, v'.shape, p.dir, FindName(Listing(v.img, p.dir), p.name, 0), c, v.fds);
    SolidOn(v.history, v'.history, v.torn, DeleteScope(v.img, v.shape, p.dir, c));
  }

  lemma MakeSteady(v: View, v': View, path: string, ino: nat)
    requires Sound(v) && Sound(v') && Makes(v, v', path, ino) && Steady(v)
    ensures Steady(v')
  {
    var p := Split(v.img, path, v.cwd);
    if MkdirCode(v.img, path, v.cwd) == 0 {
      CalmAfterCreate(v.img, v.shape, v'.img, v'.shape, p.dir, p.name, DirMode, ino, v.fds);
    } else {
      CalmAfterFailure(v.img, v.shape, v'.img, v'.shape, v.fds);
    }
    SolidOn(v.history, v'.history, v.torn, OpenScope(v.img, v.shape, path, v.cwd));
  }

  lemma OpenCalm(v: View, v': View, path: string, flags: Flags, fd: int, ino: nat, mark: nat)
    requires Sound(v) && Opens(v, v', path, flags, fd, ino, mark) && Calm(v.img, v.shape, v.fds)
    requires !Rough(DoOpen(path, flags), v)
    ensures Calm(v'.img, v'.shape, v'.fds)
  {
    if OpenError(v.img, path, v.cwd, flags.create) != 0 {
      CalmAfterFailure(v.img, v.shape, v'.img, v'.shape, v.fds);
    } else {
      CalmAfterOpen(v.img, v.shape, v'.img, v'.shape, path, v.cwd, flags.trunc, ino, v.fds);
      assert ino in v'.shape.solid ==>
          FdOk(v'.img, v'.shape, Fd(true, ino, if flags.append then v'.img.inodes[ino].size else 0, flags));
    }
  }

  lemma OpenSteady(v: View, v': View, path: string, flags: Flags, fd: int, ino: nat, mark: nat)
    requires Sound(v) && Sound(v') && Opens(v, v', path, flags, fd, ino, mark) && Steady(v)
    requires !Rough(DoOpen(path, flags), v)
    ensures Steady(v')
  {
    OpenCalm(v, v', path, flags, fd, ino, mark);
    SolidOpen(v.history, v.torn, v'.history, mark, v'.torn, OpenScope(v.img, v.shape, path, v.cwd), v'.img, v'.shape);
  }

  lemma SolidOpen(h: seq<Image>, torn: set<nat>, h': seq<Image>, mark: nat, torn': set<nat>, sc: Scope, img: Image,
                  sh: Shape)
    requires SolidHistory(h, torn) && mark <= |h'| && |h'| > 0 && Extends(h, h'[..mark], sc) && sc.live <= sc.solid
    requires torn' == torn + Span(mark, |h'| - 1) && h'[|h'| - 1] == img && Safe(img, sh) && sh.live <= sh.solid
    ensures SolidHistory(h', torn')
  {
    SolidOn(h, h'[..mark], torn, sc);
    SolidLast(h', torn, mark, torn', img, sh);
  }

  /** The images of a truncation are torn, but for the last. */
  lemma SolidLast(h: seq<Image>, torn: set<nat>, mark: nat, torn': set<nat>, img: Image, sh: Shape)
    requires mark <= |h| && |h| > 0 && SolidHistory(h[..mark], torn) && torn' == torn + Span(mark, |h| - 1)
    requires h[|h| - 1] == img && Safe(img, sh) && sh.live <= sh.solid
    ensures SolidHistory(h, torn')
  {
    forall k | 0 <= k < |h| && k !in torn'
      ensures SolidImage(h[k])
    {
      assert k < mark ==> h[k] == h[..mark][k];
    }
  }


  // ---------------------------------------------------------------- writes through stale descriptors

  /** The image after the first block write of a write through the descriptor. */
  function FirstWrite(img: Image, f: Fd, data: seq<Byte>): Image
    requires Sized(img) && f.ino < MAX_INODES && LeftOver(img.inodes[f.ino]) && f.offset < BLOCK_SIZE
  {
    Apply(img, DataWrite(img, img.inodes[f.ino], f.offset, data[..Room(f.offset, |data|, 0)]))
  }

  /**
    A write through a stale descriptor that goes to the block its inode names keeps the image safe
    if and only if it is tolerable: the block is held by no live directory and is no live file's
    pointer table.
   */
  lemma TolerableIff(img: Image, sh: Shape, f: Fd, data: seq<Byte>)
    requires Safe(img, sh) && f.ino < MAX_INODES && LeftOver(img.inodes[f.ino]) && f.offset < BLOCK_SIZE && data != []
    ensures SafeImage(FirstWrite(img, f, data)) <==> Tolerable(img, f, |data|)
  {
    var ind := img.inodes[f.ino];
    assert At(img.blocks, ind, DataSlot(f.offset / BLOCK_SIZE)) == ind.direct[0];
    var w := DataWrite(img, ind, f.offset, data[..Room(f.offset, |data|, 0)]);
    OverwriteIff(img, sh, ind.direct[0], w.content.bytes);
  }

  /** A write through a stale descriptor that is not known to do no harm. */
  predicate Blocked(c: Command, img: Image, fds: seq<Fd>)
    requires Sized(img)
  {
    c.DoWrite? && 0 <= c.fd < |fds| && Strays(img, fds[c.fd]) && !Tolerable(img, fds[c.fd], |c.data|)
  }

  /** Its first block write leaves an image that no shape fits. */
  ghost predicate Harms(c: Command, v: View) {
    && Sized(v.img) && Blocked(c, v.img, v.fds)
    && var f := v.fds[c.fd];
       && LeftOver(v.img.inodes[f.ino]) && f.offset < BLOCK_SIZE && !SafeImage(FirstWrite(v.img, f, c.data))
  }

  lemma BlockedHarms(c: Command, v: View)
    requires Sound(v) && AllLeftOver(v.img, v.fds) && Blocked(c, v.img, v.fds)
    ensures Harms(c, v)
  {
    TolerableIff(v.img, v.shape, v.fds[c.fd], c.data);
  }

  // ---------------------------------------------------------------- whole runs

  ghost predicate CrashFree(commands: seq<Command>, n: nat)
    requires n <= |commands|
  {
    forall k | 0 <= k < n :: !commands[k].Crash?
  }

  ghost predicate LeakFree(commands: seq<Command>, trace: seq<View>, n: nat)
    requires IsRun(commands, trace) && n < |trace|
  {
    forall k | 0 <= k < n :: !Leaked(commands[k], trace[k], trace[k + 1])
  }

  ghost predicate SpoilFree(commands: seq<Command>, trace: seq<View>, n: nat)
    requires IsRun(commands, trace) && n < |trace|
  {
    forall k | 0 <= k < n :: !SpoiledBy(commands[k], trace[k])
  }

  /** No open file is unlinked or truncated. */
  ghost predicate Smooth(commands: seq<Command>, trace: seq<View>, n: nat)
    requires IsRun(commands, trace) && n < |trace|
  {
    forall k | 0 <= k < n :: !Rough(commands[k], trace[k])
  }

  /** Everything holds at the start. */
  lemma Starts(v: View)
    requires Initial(v)
    ensures Exact(v.img, v.shape) && NoStale(v.img, v.fds) && AllLeftOver(v.img, v.fds) && Steady(v)
  {
    FormattedExact();
    assert SolidImage(v.img);
  }

  /** Without crashes and leaks the bitmaps are exact all along. */
  lemma {:induction false} RunExact(commands: seq<Command>, trace: seq<View>, n: nat)
    requires IsRun(commands, trace) && Initial(trace[0]) && n < |trace|
    requires CrashFree(commands, n) && LeakFree(commands, trace, n)
    ensures Exact(trace[n].img, trace[n].shape)
    decreases n
  {
    if n == 0 {
      Starts(trace[0]);
    } else {
      var k := n - 1;
      RunExact(commands, trace, k);
      assert Step(commands, trace, k);
      DidExact(commands[k], trace[k], trace[k + 1]);
    }
  }

  /** As long as no open spoils, no descriptor is stale. */
  lemma {:induction false} RunClean(commands: seq<Command>, trace: seq<View>, n: nat)
    requires IsRun(commands, trace) && Initial(trace[0]) && n < |trace|
    requires SpoilFree(commands, trace, n)
    ensures NoStale(trace[n].img, trace[n].fds)
    decreases n
  {
    if n == 0 {
      Starts(trace[0]);
    } else {
      var k := n - 1;
      RunClean(commands, trace, k);
      assert Step(commands, trace, k);
      StaleIff(commands[k], trace[k], trace[k + 1]);
    }
  }

  /** As long as no open file is unlinked or truncated, every descriptor is good and no file has a hole. */
  lemma {:induction false} RunSteady(commands: seq<Command>, trace: seq<View>, n: nat)
    requires IsRun(commands, trace) && Initial(trace[0]) && n < |trace|
    requires Smooth(commands, trace, n)
    ensures Steady(trace[n])
    decreases n
  {
    if n == 0 {
      Starts(trace[0]);
    } else {
      var k := n - 1;
      RunSteady(commands, trace, k);
      assert Step(commands, trace, k);
      DidSteady(commands[k], trace[k], trace[k + 1]);
    }
  }

  /** And then no open spoils, so that no descriptor is ever stale. */
  lemma SteadyNotSpoiled(c: Command, v: View)
    requires Sound(v) && Steady(v)
    ensures !SpoiledBy(c, v) && NoStale(v.img, v.fds)
  {
  }

  /** Up to the first leak, a stale descriptor is on an inode as a failed create leaves it. */
  lemma {:induction false} RunLeftOver(commands: seq<Command>, trace: seq<View>, n: nat)
    requires IsRun(commands, trace) && Initial(trace[0]) && n < |trace| && LeakFree(commands, trace, n)
    ensures AllLeftOver(trace[n].img, trace[n].fds)
    decreases n
  {
    if n == 0 {
      Starts(trace[0]);
    } else {
      var k := n - 1;
      RunLeftOver(commands, trace, k);
      assert Step(commands, trace, k);
      DidLeftOver(commands[k], trace[k], trace[k + 1]);
    }
  }

  // ---------------------------------------------------------------- carrying out commands

  method StepOpen(fs: FileSystem, path: string, flags: Flags)
    requires fs.Valid()
    modifies fs, fs.fds
    ensures fs.Valid() && Did(DoOpen(path, flags), old(Now(fs)), Now(fs))
  {
    ghost var v := Now(fs);
    var rc;
    ghost var ino, mark;
    rc, ino, mark := OpenOnce(fs, path, flags);
    assert Opens(v, Now(fs), path, flags, rc, ino, mark);
  }

  /** The call itself. */
  method OpenOnce(fs: FileSystem, path: string, flags: Flags) returns (rc: int, ghost ino: nat, ghost mark: nat)
    requires fs.Valid()
    modifies fs, fs.fds
    ensures fs.Valid() && Opens(old(Now(fs)), Now(fs), path, flags, rc, ino, mark)
  {
    ghost var fds := fs.fds[..];
    rc, ino, mark := fs.Open(path, flags);
    OneChanged(fds, fs.fds[..], rc);
  }

  method StepWrite(fs: FileSystem, fd: int, data: seq<Byte>)
    requires fs.Valid() && !Blocked(DoWrite(fd, data), fs.img, fs.fds[..])
    modifies fs, fs.fds
    ensures fs.Valid() && Did(DoWrite(fd, data), old(Now(fs)), Now(fs))
  {
    var n := WriteOnce(fs, fd, data);
  }

  /** The call itself. */
  method WriteOnce(fs: FileSystem, fd: int, data: seq<Byte>) returns (n: int)
    requires fs.Valid() && !Blocked(DoWrite(fd, data), fs.img, fs.fds[..])
    modifies fs, fs.fds
    ensures fs.Valid()
    ensures if Writable(old(Now(fs)), fd) then n >= 0 && Writes(old(Now(fs)), Now(fs), fd, data, n)
            else Now(fs) == old(Now(fs))
  {
    n := fs.Write(fd, data);
  }

  method StepRead(fs: FileSystem, fd: int, count: nat)
    requires fs.Valid()
    modifies fs, fs.fds
    ensures fs.Valid() && Did(DoRead(fd, count), old(Now(fs)), Now(fs))
  {
    ghost var v := Now(fs);
    var buf := new Byte[count];
    var n := fs.Read(fd, buf, count);
    ghost var v' := Now(fs);
    if n == -1 {
      assert v'.fds == v.fds;
      assert Reads(v, v', fd, count, 0);
    } else {
      assert v'.fds == v.fds[fd := v.fds[fd].(offset := v.fds[fd].offset + n)];
      assert Reads(v, v', fd, count, n);
    }
  }

  method StepClose(fs: FileSystem, fd: int)
    requires fs.Valid()
    modifies fs, fs.fds
    ensures fs.Valid() && Did(DoClose(fd), old(Now(fs)), Now(fs))
  {
    ghost var v := Now(fs);
    var rc := fs.Close(fd);
    assert Now(fs).fds == if rc == 0 then v.fds[fd := v.fds[fd].(used := false)] else v.fds;
  }

  method StepUnlink(fs: FileSystem, path: string)
    requires fs.Valid()
    modifies fs, fs.fds
    ensures fs.Valid() && Did(DoUnlink(path), old(Now(fs)), Now(fs))
  {
    var rc := fs.Unlink(path);
  }

  method StepMkdir(fs: FileSystem, path: string)
    requires fs.Valid()
    modifies fs, fs.fds
    ensures fs.Valid() && Did(DoMkdir(path), old(Now(fs)), Now(fs))
  {
    ghost var v := Now(fs);
    ghost var ino;
    var rc;
    rc, ino := fs.Mkdir(path);
    assert Makes(v, Now(fs), path, ino);
  }

  method StepChdir(fs: FileSystem, path: string)
    requires fs.Valid()
    modifies fs, fs.fds
    ensures fs.Valid() && Did(DoChdir(path), old(Now(fs)), Now(fs))
  {
    var rc := fs.Chdir(path);
  }

  /** A crash left `disk`: it is mounted again. */
  method Reboot(disk: Image) returns (fs: FileSystem)
    requires SafeImage(disk)
    ensures fresh(fs) && fresh(fs.fds) && fs.Valid() && fs.img == disk && Booted(Now(fs))
    ensures SolidImage(disk) ==> fs.shape.live <= fs.shape.solid
  {
    ghost var sh :| Safe(disk, sh) && (SolidImage(disk) ==> sh.live <= sh.solid);
    fs := new FileSystem.Mount(disk, sh);
  }

  method StepCrash(fs: FileSystem, at: nat) returns (next: FileSystem)
    requires fs.Valid()
    ensures next.Valid() && (next == fs || fresh(next)) && (next.fds == fs.fds || fresh(next.fds))
    ensures Did(Crash(at), old(Now(fs)), Now(next))
  {
    next := fs;
    if at < |fs.history| && at !in fs.torn {
      next := Reboot(fs.history[at]);
    }
  }

  /** One command, other than a blocked write; a crash mounts the image it left. */
  method Carry(fs: FileSystem, c: Command) returns (next: FileSystem)
    requires fs.Valid() && !Blocked(c, fs.img, fs.fds[..])
    modifies fs, fs.fds
    ensures next.Valid() && (next == fs || fresh(next)) && (next.fds == fs.fds || fresh(next.fds))
    ensures Did(c, old(Now(fs)), Now(next))
  {
    next := fs;
    match c {
      case DoOpen(path, flags) => StepOpen(fs, path, flags);
      case DoWrite(fd, data) => StepWrite(fs, fd, data);
      case DoRead(fd, count) => StepRead(fs, fd, count);
      case DoClose(fd) => StepClose(fs, fd);
      case DoUnlink(path) => StepUnlink(fs, path);
      case DoMkdir(path) => StepMkdir(fs, path);
      case DoChdir(path) => StepChdir(fs, path);
      case Crash(at) => next := StepCrash(fs, at);
    }
  }

  /**
    Any sequence of commands from a fresh disk, where a crash may strike after any block write that
    is not part of a truncation: each is carried out in turn, and all along the image and every such
    crash point are safe and the working directory is a live directory.  It goes on up to a
    write through a stale descriptor that would destroy the image or goes to an inode that
    has got further blocks by an earlier one.
   */
  method RunAll(commands: seq<Command>) returns (fs: FileSystem, n: nat, ghost trace: seq<View>)
    ensures fs.Valid() && n <= |commands|
    ensures IsRun(commands, trace) && |trace| == n + 1 && Initial(trace[0]) && trace[n] == Now(fs)
    ensures n < |commands| ==> Blocked(commands[n], fs.img, fs.fds[..])
    ensures n < |commands| && LeakFree(commands, trace, n) ==> Harms(commands[n], trace[n])
  {
    fs, trace := Begin();
    fs, n, trace := RunFrom(fs, commands, trace);
    assert Initial(trace[0]);
    StopHarms(commands, n, trace);
  }

  /** The loop of a run. */
  method RunFrom(start: FileSystem, commands: seq<Command>, ghost begun: seq<View>)
    returns (fs: FileSystem, n: nat, ghost trace: seq<View>)
    requires start.Valid() && begun == [Now(start)]
    modifies start, start.fds
    ensures fs.Valid() && n <= |commands|
    ensures IsRun(commands, trace) && |trace| == n + 1 && trace[0] == begun[0] && trace[n] == Now(fs)
    ensures n < |commands| ==> Blocked(commands[n], fs.img, fs.fds[..])
  {
    fs, n, trace := start, 0, begun;
    while n < |commands| && !Blocked(commands[n], fs.img, fs.fds[..])
      invariant n <= |commands| && fs.Valid() && (fs == start || fresh(fs)) && (fs.fds == start.fds || fresh(fs.fds))
      invariant IsRun(commands, trace) && |trace| == n + 1 && trace[0] == begun[0] && trace[n] == Now(fs)
    {
      fs, trace := RunOne(fs, commands, n, trace);
      n := n + 1;
    }
  }

  /** A fresh disk. */
  method Begin() returns (fs: FileSystem, ghost trace: seq<View>)
    ensures fresh(fs) && fresh(fs.fds) && fs.Valid()
    ensures trace == [Now(fs)] && Initial(trace[0])
  {
    fs := new FileSystem.Format();
    trace := [Now(fs)];
  }

  /** One command of a run. */
  method RunOne(fs: FileSystem, commands: seq<Command>, n: nat, ghost trace: seq<View>)
    returns (next: FileSystem, ghost trace': seq<View>)
    requires fs.Valid() && n < |commands| && !Blocked(commands[n], fs.img, fs.fds[..])
    requires IsRun(commands, trace) && |trace| == n + 1 && trace[n] == Now(fs)
    modifies fs, fs.fds
    ensures next.Valid() && (next == fs || fresh(next)) && (next.fds == fs.fds || fresh(next.fds))
    ensures IsRun(commands, trace') && |trace'| == n + 2 && trace'[n + 1] == Now(next) && trace'[0] == trace[0]
  {
    next := Carry(fs, commands[n]);
    RunMore(commands, trace, n, Now(next));
    trace' := trace + [Now(next)];
  }

  /** A run without leaks stops only where a write would do harm. */
  lemma StopHarms(commands: seq<Command>, n: nat, trace: seq<View>)
    requires IsRun(commands, trace) && |trace| == n + 1 && Initial(trace[0])
    requires n < |commands| ==> Blocked(commands[n], trace[n].img, trace[n].fds)
    ensures n < |commands| && LeakFree(commands, trace, n) ==> Harms(commands[n], trace[n])
  {
    if n < |commands| && LeakFree(commands, trace, n) {
      RunLeftOver(commands, trace, n);
      BlockedHarms(commands[n], trace[n]);
    }
  }
}
