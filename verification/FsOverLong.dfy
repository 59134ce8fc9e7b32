/** What an over-long component at the end of a path does to fs_unlink. */
module FsOverLong {
  import opened FsDisk
  import opened FsPaths
  import opened FsCreate
  import opened FsRelease
  import opened FileSystems
  import opened FsCommands
  import opened FsRuns
  import opened FsSmall

  /** A name below the root, followed by a component that is too long. */
  predicate Overlong(name: string, long: string) {
    GoodName(name) && '/' !in long && |long| > NAME_MAX && |name| + |long| + 2 <= PATH_MAX
  }

  /** The path does not resolve, yet unlinking it does exactly what unlinking the name before it does. */
  lemma UnlinkOverLong(v: View, v': View, name: string, long: string)
    requires Overlong(name, long) && Sound(v)
    ensures Resolve(v.img, Below(name, long), v.cwd) == Missing
    ensures UnlinkCode(v.img, Below(name, long), v.cwd) == UnlinkCode(v.img, Top(name), v.cwd)
    ensures Did(DoUnlink(Below(name, long)), v, v') <==> Did(DoUnlink(Top(name)), v, v')
  {
    OverLongEndsPath(v.img, name, long, v.cwd);
    TopPath(v.img, name, v.cwd);
  }

  function Calls(name: string, long: string): seq<Command> {
    [DoOpen(Top(name), CREATE), DoUnlink(Below(name, long))]
  }

  /** So a file goes by a path that does not lead to it. */
  lemma TwoCalls(name: string, long: string, trace: seq<View>)
    requires Overlong(name, long) && IsRun(Calls(name, long), trace) && |trace| == 3 && Initial(trace[0])
    ensures var v := trace[1];
            && Resolve(v.img, Top(name), v.cwd) == Inum(1) && Resolve(v.img, Below(name, long), v.cwd) == Missing
            && UnlinkCode(v.img, Below(name, long), v.cwd) == 0
    ensures var v := trace[2];
            Resolve(v.img, Top(name), v.cwd) == Missing && 1 !in v.shape.live && !v.img.inodeBits[1]
  {
    Created(name, long, trace);
    Unlinked(name, long, trace);
  }

  ghost predicate HasFile(name: string, v: View) {
    Stands(v, {0, 1}, {6}, map[name := 1], 3) && v.img.inodes[1] == Node(FileMode, 6)
  }

  lemma Created(name: string, long: string, trace: seq<View>)
    requires Overlong(name, long) && IsRun(Calls(name, long), trace) && |trace| == 3 && Initial(trace[0])
    ensures HasFile(name, trace[1])
  {
    assert Step(Calls(name, long), trace, 0);
    FreshStands(trace[0]);
    MakeFile(name, trace[0], trace[1]);
  }

  lemma MakeFile(name: string, v: View, v': View)
    requires GoodName(name) && Stands(v, {0}, {}, map[], 2) && OpenUpTo(v.fds, 0) && Sound(v')
    requires Did(DoOpen(Top(name), CREATE), v, v')
    ensures HasFile(name, v')
  {
    LowestFirst();
    Make(v, v', name, CREATE, {0}, {}, map[], 2, 1, 6, 0);
  }

  lemma LowestFirst()
    ensures Lowest({0}, {}, 1, 6) && {0} + {1} == {0, 1} && {} + {6} == {6}
  {
  }

  lemma Unlinked(name: string, long: string, trace: seq<View>)
    requires Overlong(name, long) && IsRun(Calls(name, long), trace) && |trace| == 3 && HasFile(name, trace[1])
    ensures var v := trace[1];
            && Resolve(v.img, Top(name), v.cwd) == Inum(1) && Resolve(v.img, Below(name, long), v.cwd) == Missing
            && UnlinkCode(v.img, Below(name, long), v.cwd) == 0
    ensures var v := trace[2];
            Resolve(v.img, Top(name), v.cwd) == Missing && 1 !in v.shape.live && !v.img.inodeBits[1]
  {
    var v, v' := trace[1], trace[2];
    assert Step(Calls(name, long), trace, 1);
    UnlinkOverLong(v, v', name, long);
    RemoveFile(name, v, v');
  }

  lemma RemoveFile(name: string, v: View, v': View)
    requires GoodName(name) && HasFile(name, v) && Sound(v') && Did(DoUnlink(Top(name)), v, v')
    ensures Resolve(v.img, Top(name), v.cwd) == Inum(1) && UnlinkCode(v.img, Top(name), v.cwd) == 0
    ensures Resolve(v'.img, Top(name), v'.cwd) == Missing && 1 !in v'.shape.live && !v'.img.inodeBits[1]
  {
    forall x
      ensures Keeping(v.img.blocks, v.img.inodes[1], x) <==> x in {6}
    {
      KeptByNode(v.img.blocks, FileMode, 6, x);
    }
    TopPath(v.img, name, v.cwd);
    Remove(v, v', name, {0, 1}, {6}, map[name := 1], 3, 1, {6});
    TopPath(v'.img, name, v'.cwd);
  }

  /** The two calls can be made. */
  method OverLongRun(name: string, long: string) returns (fs: FileSystem, ghost trace: seq<View>)
    requires Overlong(name, long)
    ensures fs.Valid() && IsRun(Calls(name, long), trace) && |trace| == 3 && Initial(trace[0]) && trace[2] == Now(fs)
    ensures Resolve(trace[1].img, Below(name, long), trace[1].cwd) == Missing && 1 !in fs.shape.live
  {
    var n;
    fs, n, trace := RunAll(Calls(name, long));
    if n < 2 {
      NoWrites(name, long, n, fs.img, fs.fds[..]);
    }
    TwoCalls(name, long, trace);
  }

  lemma NoWrites(name: string, long: string, n: nat, img: Image, fds: seq<Fd>)
    requires FsDisk.Sized(img) && n < 2
    ensures !Blocked(Calls(name, long)[n], img, fds)
  {
  }
}
