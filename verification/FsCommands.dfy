/** What each call does, as a relation between the states before and after, and runs of calls. */
module FsCommands {
  import opened FsDisk
  import opened FsPaths
  import opened FsShape
  import opened FsCreate
  import opened FsRemove
  import opened FsPwd
  import opened FsCrash
  import opened FileSystems

  // ---------------------------------------------------------------- states

  /** The state of the file system as a value. */
  datatype View = View(
    img: Image, shape: Shape, fds: seq<Fd>, cwd: nat, history: seq<Image>, torn: set<nat>)

  ghost function Now(fs: FileSystem): (v: View)
    reads fs, fs.fds
    ensures fs.Valid() ==> Sound(v)
  {
    View(fs.img, fs.shape, fs.fds[..], fs.cwd, fs.history, fs.torn)
  }

  /**
    The image is safe, and so is every crash point outside a truncation; the working directory is a
    live directory, and descriptors are known.
   */
  ghost predicate Sound(v: View) {
    && Safe(v.img, v.shape) && v.cwd in v.shape.live && v.img.inodes[v.cwd].mode == DirMode
    && |v.fds| == MAX_FD && AllKnown(v.img, v.shape, v.fds)
    && |v.history| > 0 && v.history[|v.history| - 1] == v.img
    && forall k | 0 <= k < |v.history| && k !in v.torn :: SafeImage(v.history[k])
  }

  /** Just formatted. */
  ghost predicate Initial(v: View) {
    v.img == Formatted() && v.shape == ROOT_SHAPE && Booted(v)
  }

  /** Just mounted: no descriptor is open, and nothing has been written. */
  ghost predicate Booted(v: View) {
    && v.cwd == 0 && v.history == [v.img] && v.torn == {}
    && |v.fds| == MAX_FD && forall k | 0 <= k < MAX_FD :: !v.fds[k].used
  }

  // ---------------------------------------------------------------- commands

  datatype Command =
    | DoOpen(path: string, flags: Flags)
    | DoWrite(fd: int, data: seq<Byte>)
    | DoRead(fd: int, count: nat)
    | DoClose(fd: int)
    | DoUnlink(path: string)
    | DoMkdir(path: string)
    | DoChdir(path: string)
    | Crash(at: nat)

  /** From v to v', the command was carried out. */
  ghost predicate Did(c: Command, v: View, v': View)
    requires Sound(v)
  {
    match c
    case DoOpen(path, flags) => exists fd: int, ino: nat, mark: nat :: Opens(v, v', path, flags, fd, ino, mark)
    case DoWrite(fd, data) => if Writable(v, fd) then exists n: nat :: Writes(v, v', fd, data, n) else v' == v
    case DoRead(fd, count) => exists n: nat :: Reads(v, v', fd, count, n)
    case DoClose(fd) => Closes(v, v', fd)
    case DoUnlink(path) => if UnlinkCode(v.img, path, v.cwd) == 0 then Unlinks(v, v', path) else v' == v
    case DoMkdir(path) => exists ino: nat :: Makes(v, v', path, ino)
    case DoChdir(path) => v' == v.(cwd := Entered(v.img, path, v.cwd))
    case Crash(at) => if at < |v.history| && at !in v.torn then Reboots(v, v', at) else v' == v
  }

  /** fs_open that gets to `ino` and returns `fd`; from `mark` on it truncates. */
  ghost predicate Opens(v: View, v': View, path: string, flags: Flags, fd: int, ino: nat, mark: nat)
    requires Sound(v)
  {
    && v'.cwd == v.cwd && |v.history| <= mark <= |v'.history| && (!flags.trunc ==> mark == |v'.history|)
    && Extends(v.history, v'.history[..mark], OpenScope(v.img, v.shape, path, v.cwd))
    && v'.torn == v.torn + Span(mark, |v'.history| - 1)
    && if OpenError(v.img, path, v.cwd, flags.create) != 0
       then
         && fd < 0 && v'.fds == v.fds && mark == |v'.history|
         && Restored(v.img, v.shape, v'.img, v'.shape) && OpenLitter(v.img, v'.img, path, v.cwd, flags.create)
       else
         && Safe(v'.img, v'.shape) && Opened(v.img, v.shape, v'.img, v'.shape, path, v.cwd, flags.trunc, ino)
         && ino in v'.shape.live && v'.img.inodes[ino].mode == FileMode
         && Seated(v.fds, v'.fds, fd, Fd(true, ino, if flags.append then v'.img.inodes[ino].size else 0, flags))
  }

  /** The lowest unused descriptor, if there is one, becomes `f`. */
  predicate Seated(fds: seq<Fd>, fds': seq<Fd>, fd: int, f: Fd) {
    if fd < 0 then fds' == fds && forall k | 0 <= k < |fds| :: fds[k].used
    else fd < |fds| && !fds[fd].used && (forall k | 0 <= k < fd :: fds[k].used) && fds' == fds[fd := f]
  }

  /** Whether fs_write and fs_read look at the descriptor's file at all. */
  predicate Readable(v: View, fd: int)
    requires Sized(v.img)
  {
    0 <= fd < |v.fds| && v.fds[fd].used && v.fds[fd].ino < MAX_INODES && v.img.inodes[v.fds[fd].ino].mode == FileMode
  }

  predicate Writable(v: View, fd: int)
    requires Sized(v.img)
  {
    Readable(v, fd) && v.fds[fd].flags.access != 0
  }

  /** fs_write that returns `n`: to a live file, or through a stale descriptor. */
  ghost predicate Writes(v: View, v': View, fd: int, data: seq<Byte>, n: nat)
    requires Sound(v) && Writable(v, fd)
  {
    var f := v.fds[fd];
    && Written(v.img, v.shape, v.history, f, data, n, v'.img, v'.shape, v'.history)
    && v'.fds == v.fds[fd := f.(offset := f.offset + n)] && v'.cwd == v.cwd && v'.torn == v.torn
  }

  /** fs_read that moves the offset by `n`, up to the count, the size or the first hole. */
  ghost predicate Reads(v: View, v': View, fd: int, count: nat, n: nat)
    requires Sound(v)
  {
    if !Readable(v, fd) then v' == v
    else
      var f := v.fds[fd];
      var ind := v.img.inodes[f.ino];
      && n <= Wanted(ind.size, f.offset, count)
      && (n < Wanted(ind.size, f.offset, count) ==>
          At(v.img.blocks, ind, DataSlot((f.offset + n) / BLOCK_SIZE)) == 0)
      && v' == v.(fds := v.fds[fd := f.(offset := f.offset + n)])
  }

  ghost predicate Closes(v: View, v': View, fd: int) {
    v' == if 0 <= fd < |v.fds| && v.fds[fd].used then v.(fds := v.fds[fd := v.fds[fd].(used := false)]) else v
  }

  /** fs_unlink that succeeds. */
  ghost predicate Unlinks(v: View, v': View, path: string)
    requires Sound(v) && UnlinkCode(v.img, path, v.cwd) == 0
  {
    var p := Split(v.img, path, v.cwd);
    var c := Lookup(v.img, p.dir, p.name).ino;
    && IsDir(v.img, p.dir) && v'.fds == v.fds && v'.torn == v.torn
    && Deleted(v.img, v.shape, v'.img, v'.shape, p.dir, FindName(Listing(v.img, p.dir), p.name, 0), c)
    && Extends(v.history, v'.history, DeleteScope(v.img, v.shape, p.dir, c))
    && v'.cwd == if v.cwd == c then 0 else v.cwd
  }

  /** What fs_mkdir returns. */
  function MkdirCode(img: Image, path: string, cwd: nat): int
    requires Sized(img)
  {
    match Split(img, path, cwd)
    case NoParent => -1
    case ParentOf(d, name) => CreateCode(img, d, name)
  }

  ghost predicate Makes(v: View, v': View, path: string, ino: nat)
    requires Sound(v)
  {
    var p := Split(v.img, path, v.cwd);
    && v'.fds == v.fds && v'.torn == v.torn && v'.cwd == v.cwd
    && Extends(v.history, v'.history, OpenScope(v.img, v.shape, path, v.cwd))
    && if MkdirCode(v.img, path, v.cwd) == 0
       then Created(v.img, v.shape, v'.img, v'.shape, p.dir, p.name, DirMode, ino)
       else Restored(v.img, v.shape, v'.img, v'.shape)
            && if p.NoParent? then v'.img == v.img else LeftBy(v.img, v'.img, DirMode, p.dir, p.name)
  }

  /** Where fs_chdir leads. */
  function Entered(img: Image, path: string, cwd: nat): nat
    requires Sized(img)
  {
    match Resolve(img, path, cwd)
    case Missing => cwd
    case Inum(i) => if i < MAX_INODES && img.inodes[i].mode == DirMode then i else cwd
  }

  /** A crash left image `at` of the history, and it is mounted again. */
  ghost predicate Reboots(v: View, v': View, at: nat)
    requires at < |v.history|
  {
    v'.img == v.history[at] && Booted(v') && (SolidImage(v'.img) ==> v'.shape.live <= v'.shape.solid)
  }

  /** Some shape without holes fits the image. */
  ghost predicate SolidImage(img: Image) { exists sh :: Safe(img, sh) && sh.live <= sh.solid }

  // ---------------------------------------------------------------- runs

  /**
    The commands, carried out one after the other, go through the states of the trace; the trace
    may end before they do.
   */
  ghost predicate IsRun(commands: seq<Command>, trace: seq<View>) {
    && 0 < |trace| <= |commands| + 1 && (forall k | 0 <= k < |trace| :: Sound(trace[k]))
    && forall k | 0 <= k < |trace| - 1 :: Step(commands, trace, k)
  }

  ghost predicate Step(commands: seq<Command>, trace: seq<View>, k: nat)
    requires k < |commands| && k + 1 < |trace|
  {
    Sound(trace[k]) && Did(commands[k], trace[k], trace[k + 1])
  }

  lemma RunMore(commands: seq<Command>, trace: seq<View>, n: nat, v: View)
    requires IsRun(commands, trace) && |trace| == n + 1 <= |commands| && Sound(v) && Did(commands[n], trace[n], v)
    ensures IsRun(commands, trace + [v]) && (trace + [v])[0] == trace[0]
  {
    SoundMore(trace, v);
    StepsMore(commands, trace, n, v);
  }

  lemma StepsMore(commands: seq<Command>, trace: seq<View>, n: nat, v: View)
    requires |trace| == n + 1 <= |commands| && (forall k | 0 <= k < n :: Step(commands, trace, k))
    requires Sound(trace[n]) && Did(commands[n], trace[n], v)
    ensures forall k | 0 <= k <= n :: Step(commands, trace + [v], k)
  {
    LastStep(commands, trace, n, v);
    forall k | 0 <= k < n
      ensures Step(commands, trace + [v], k)
    {
      StepStays(commands, trace, v, k);
    }
  }

  lemma SoundMore(trace: seq<View>, v: View)
    requires Sound(v) && forall k | 0 <= k < |trace| :: Sound(trace[k])
    ensures forall k | 0 <= k < |trace + [v]| :: Sound((trace + [v])[k])
  {
  }

  lemma LastStep(commands: seq<Command>, trace: seq<View>, n: nat, v: View)
    requires |trace| == n + 1 <= |commands| && Sound(trace[n]) && Did(commands[n], trace[n], v)
    ensures Step(commands, trace + [v], n)
  {
    assert (trace + [v])[n] == trace[n] && (trace + [v])[n + 1] == v;
  }

  lemma StepStays(commands: seq<Command>, trace: seq<View>, v: View, k: nat)
    requires k < |commands| && k + 1 < |trace| && Step(commands, trace, k)
    ensures Step(commands, trace + [v], k)
  {
    assert (trace + [v])[k] == trace[k] && (trace + [v])[k + 1] == trace[k + 1];
  }
}
