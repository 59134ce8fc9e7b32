/** Disks with a few files directly below the root, and what calls do to them. */
module FsSmall {
  import opened FsDisk
  import opened FsPaths
  import opened FsShape
  import opened FsSteps
  import opened FsFiles
  import opened FsCreate
  import opened FsRelease
  import opened FsRemove
  import opened FsPwd
  import opened FsLife
  import opened FileSystems
  import opened FsCommands

  // ---------------------------------------------------------------- what is on the disk

  /** Exactly the inodes in `inodes` and, of the data blocks, those in `blocks` are marked. */
  ghost predicate Holding(img: Image, inodes: set<nat>, blocks: set<nat>)
    requires Sized(img)
  {
    && (forall j | 0 <= j < MAX_INODES :: img.inodeBits[j] <==> j in inodes)
    && (forall b | DATA_START <= b < JOURNAL_START :: img.blockBits[b] <==> b in blocks)
  }

  /** The root directory lists exactly `names`, and its entries from `top` on are unused. */
  ghost predicate Shows(img: Image, names: map<string, nat>, top: nat)
    requires Sized(img)
  {
    && IsDir(img, 0)
    && (forall x: string | GoodName(x) :: Lookup(img, 0, x) == if x in names then Inum(names[x]) else Missing)
    && (forall k | top <= k < DIR_ENTRIES :: Listing(img, 0)[k].ino == INVALID)
  }

  lemma FirstIs(img: Image, inodes: set<nat>, blocks: set<nat>, i: nat, b: nat)
    requires Sized(img) && Holding(img, inodes, blocks) && i < MAX_INODES && DATA_START <= b < JOURNAL_START
    requires i !in inodes && b !in blocks && (forall j | 0 <= j < i :: j in inodes)
    requires forall c | DATA_START <= c < b :: c in blocks
    ensures FirstInode(img) == i && FirstBlock(img) == b
  {
    assert !img.inodeBits[i] && !img.blockBits[b];
  }

  lemma FormattedShows()
    ensures Holding(Formatted(), {0}, {}) && Shows(Formatted(), map[], 2)
  {
    var img := Formatted();
    assert img.inodes[0] == ROOT && img.blocks[ROOT_DIR_BLOCK] == FreshDir(0, 0);
    var entries := Listing(img, 0);
    forall x: string | GoodName(x)
      ensures Lookup(img, 0, x) == Missing
    {
      var k := FindName(entries, x, 0);
    }
  }

  /** Replacing an entry does not change what is found under a name that neither the old nor the new one has. */
  lemma OtherName(entries: seq<Dirent>, k: nat, e: Dirent, x: string)
    requires k < |entries| && !Names(entries[k], x) && !Names(e, x)
    ensures FindName(entries[k := e], x, 0) == FindName(entries, x, 0)
    ensures FindName(entries, x, 0) < |entries| ==> FindName(entries, x, 0) != k
  {
    var after, f := entries[k := e], FindName(entries, x, 0);
    var g := FindName(after, x, 0);
    assert f < |entries| ==> Names(after[f], x);
    assert g < |entries| ==> Names(after[g], x);
  }

  lemma ShowsCreated(img0: Image, sh0: Shape, img: Image, sh: Shape, name: string, mode: Mode, i: nat,
                     names: map<string, nat>, top: nat)
    requires Created(img0, sh0, img, sh, 0, name, mode, i) && GoodName(name) && Shows(img0, names, top)
    requires 2 <= top < DIR_ENTRIES
    ensures Shows(img, names[name := i], top + 1)
  {
    var entries, k := Listing(img0, 0), FindHole(Listing(img0, 0), 0);
    assert entries[top].ino == INVALID && k <= top;
    FoundNew(entries, name, k, i);
    forall x: string | GoodName(x)
      ensures Lookup(img, 0, x) == if x in names[name := i] then Inum(names[name := i][x]) else Missing
    {
      if x != name {
        OtherName(entries, k, Dirent(name, i), x);
        assert Lookup(img, 0, x) == Lookup(img0, 0, x);
      }
    }
  }

  lemma ShowsDeleted(img0: Image, sh0: Shape, img: Image, sh: Shape, name: string, k: nat, c: nat,
                     names: map<string, nat>, top: nat)
    requires Deleted(img0, sh0, img, sh, 0, k, c) && GoodName(name) && Shows(img0, names, top)
    requires name in names && names[name] == c && k == FindName(Listing(img0, 0), name, 0)
    ensures Shows(img, names - {name}, top)
  {
    var entries := Listing(img0, 0);
    LiveListing(img0, sh0, 0);
    forall x: string | GoodName(x)
      ensures Lookup(img, 0, x) == if x != name && x in names then Inum(names[x]) else Missing
    {
      if x == name {
        var g := FindName(entries[k := NO_ENTRY], name, 0);
        assert Names(entries[k], name);
        assert forall j | 2 <= j < DIR_ENTRIES && j != k :: !Names(entries[j], name);
      } else {
        OtherName(entries, k, NO_ENTRY, x);
      }
    }
  }

  /** With the root directory untouched, its listing is the same. */
  lemma ShowsUntouched(img0: Image, sh0: Shape, img: Image, names: map<string, nat>, top: nat)
    requires Safe(img0, sh0) && Sized(img) && Untouched(img0, img, 0) && Shows(img0, names, top)
    ensures Shows(img, names, top)
  {
    SameDir(img0, sh0, img, 0);
  }

  // ---------------------------------------------------------------- paths of the run

  function Top(name: string): string { "/" + name }

  function Below(name: string, x: string): string { "/" + name + ("/" + x) }

  lemma TopPath(img: Image, name: string, cwd: nat)
    requires Sized(img) && GoodName(name)
    ensures Resolve(img, Top(name), cwd) == Lookup(img, 0, name) && Split(img, Top(name), cwd) == ParentOf(0, name)
  {
    var path := Top(name);
    NextName(name, "");
    assert "/" + name + "" == path;
    assert NextComponent("") == End;
    if Lookup(img, 0, name).Inum? {
      assert ResolveFrom(img, Lookup(img, 0, name).ino, "") == Lookup(img, 0, name);
    }
  }

  lemma LowerPath(img: Image, name: string, x: string, cwd: nat)
    requires Sized(img) && GoodName(name) && GoodName(x) && Lookup(img, 0, name).Inum?
    ensures var path, c := Below(name, x), Lookup(img, 0, name).ino;
            Resolve(img, path, cwd) == Lookup(img, c, x) && Split(img, path, cwd) == ParentOf(c, x)
  {
    var rest, c := "/" + x, Lookup(img, 0, name).ino;
    var path := Below(name, x);
    NextName(name, rest);
    LastName(img, c, x);
    assert ResolveFrom(img, 0, path) == ResolveFrom(img, c, rest);
    assert SplitFrom(img, 0, path) == SplitFrom(img, c, rest);
  }

  lemma LastName(img: Image, cur: nat, x: string)
    requires Sized(img) && GoodName(x)
    ensures NextComponent("/" + x) == Part(x, "")
    ensures ResolveFrom(img, cur, "/" + x) == Lookup(img, cur, x) && SplitFrom(img, cur, "/" + x) == ParentOf(cur, x)
  {
    NextName(x, "");
    assert "/" + x + "" == "/" + x;
    assert NextComponent("") == End;
    if Lookup(img, cur, x).Inum? {
      assert ResolveFrom(img, Lookup(img, cur, x).ino, "") == Lookup(img, cur, x);
    }
  }

  // ---------------------------------------------------------------- calls

  const CREATE: Flags := Flags(1, true, false, false)

  ghost predicate Stands(v: View, inodes: set<nat>, blocks: set<nat>, names: map<string, nat>, top: nat) {
    Sound(v) && Holding(v.img, inodes, blocks) && Shows(v.img, names, top) && 2 <= top
  }

  /** `i` and `b` are the lowest free inode and block. */
  ghost predicate Lowest(inodes: set<nat>, blocks: set<nat>, i: nat, b: nat) {
    && i < MAX_INODES && DATA_START <= b < JOURNAL_START && i !in inodes && b !in blocks
    && (forall j | 0 <= j < i :: j in inodes) && (forall c | DATA_START <= c < b :: c in blocks)
  }

  lemma KeptByNode(blocks: seq<Content>, mode: Mode, b: nat, x: nat)
    requires b != 0
    ensures Keeping(blocks, Node(mode, b), x) <==> x == b
    ensures !Keeping(blocks, Inode(0, mode, NO_DIRECT, 0), x)
  {
    NodeAt(blocks, mode, b);
    assert At(blocks, Node(mode, b), 0) == b;
    assert forall n | 0 <= n < SLOTS :: At(blocks, Inode(0, mode, NO_DIRECT, 0), n) == 0;
  }

  /** Exactly the first `n` descriptors are used. */
  predicate OpenUpTo(fds: seq<Fd>, n: nat) { forall k | 0 <= k < |fds| :: fds[k].used <==> k < n }

  lemma FreshStands(v: View)
    requires Initial(v) && Sound(v)
    ensures Stands(v, {0}, {}, map[], 2) && OpenUpTo(v.fds, 0)
  {
    FormattedShows();
  }

  lemma SeatedNext(fds: seq<Fd>, fds': seq<Fd>, fd: int, f: Fd, n: nat)
    requires Seated(fds, fds', fd, f) && n < |fds| && OpenUpTo(fds, n) && f.used
    ensures fd == n && |fds'| == |fds| && fds'[n] == f && OpenUpTo(fds', n + 1)
  {
    assert !fds[n].used;
  }

  /** A new file directly below the root gets the lowest free descriptor `f`. */
  lemma Make(v: View, v': View, name: string, flags: Flags, inodes: set<nat>, blocks: set<nat>,
             names: map<string, nat>, top: nat, i: nat, b: nat, f: nat)
    requires Stands(v, inodes, blocks, names, top) && top < DIR_ENTRIES && Lowest(inodes, blocks, i, b) && Sound(v')
    requires GoodName(name) && name !in names && flags.create && !flags.append
    requires f < MAX_FD && OpenUpTo(v.fds, f)
    requires Did(DoOpen(Top(name), flags), v, v')
    ensures Stands(v', inodes + {i}, if flags.trunc then blocks else blocks + {b}, names[name := i], top + 1)
    ensures v'.img.inodes
              == v.img.inodes[i := if flags.trunc then Inode(0, FileMode, NO_DIRECT, 0) else Node(FileMode, b)]
    ensures v'.fds[f] == Fd(true, i, 0, flags) && OpenUpTo(v'.fds, f + 1)
  {
    TopPath(v.img, name, v.cwd);
    FirstIs(v.img, inodes, blocks, i, b);
    assert Listing(v.img, 0)[top].ino == INVALID;
    var fd: int, ino: nat, mark: nat :| Opens(v, v', Top(name), flags, fd, ino, mark);
    SeatedNext(v.fds, v'.fds, fd, Fd(true, ino, 0, flags), f);
    Made(v.img, v.shape, v'.img, v'.shape, Top(name), v.cwd, flags.trunc, ino, name, inodes, blocks, names, top);
  }

  lemma Made(img0: Image, sh0: Shape, img: Image, sh: Shape, path: string, cwd: nat, trunc: bool, ino: nat,
             name: string, inodes: set<nat>, blocks: set<nat>, names: map<string, nat>, top: nat)
    requires Safe(img0, sh0) && Safe(img, sh) && Opened(img0, sh0, img, sh, path, cwd, trunc, ino)
    requires Resolve(img0, path, cwd) == Missing && Split(img0, path, cwd) == ParentOf(0, name) && GoodName(name)
    requires Holding(img0, inodes, blocks) && Shows(img0, names, top) && 2 <= top < DIR_ENTRIES
    ensures var i, b := FirstInode(img0), FirstBlock(img0);
            && ino == i < MAX_INODES && Holding(img, inodes + {i}, if trunc then blocks else blocks + {b})
            && Shows(img, names[name := i], top + 1)
            && img.inodes == img0.inodes[i := if trunc then Inode(0, FileMode, NO_DIRECT, 0) else Node(FileMode, b)]
  {
    var mid, midsh :| MidOpen(img0, sh0, mid, midsh, path, cwd, ino)
                      && if trunc then Truncated(mid, midsh, img, sh, ino) else img == mid && sh == midsh;
    MadeVia(img0, sh0, mid, midsh, img, sh, trunc, ino, name, inodes, blocks, names, top);
  }

  lemma MadeVia(img0: Image, sh0: Shape, mid: Image, midsh: Shape, img: Image, sh: Shape, trunc: bool, i: nat,
                name: string, inodes: set<nat>, blocks: set<nat>, names: map<string, nat>, top: nat)
    requires Created(img0, sh0, mid, midsh, 0, name, FileMode, i) && GoodName(name)
    requires if trunc then Truncated(mid, midsh, img, sh, i) else img == mid && sh == midsh
    requires Holding(img0, inodes, blocks) && Shows(img0, names, top) && 2 <= top < DIR_ENTRIES
    ensures var b := FirstBlock(img0);
            && Holding(img, inodes + {i}, if trunc then blocks else blocks + {b})
            && Shows(img, names[name := i], top + 1)
            && img.inodes == img0.inodes[i := if trunc then Inode(0, FileMode, NO_DIRECT, 0) else Node(FileMode, b)]
  {
    var b := FirstBlock(img0);
    ShowsCreated(img0, sh0, mid, midsh, name, FileMode, i, names, top);
    HoldingCreated(img0, sh0, mid, midsh, name, FileMode, i, inodes, blocks);
    if trunc {
      Emptying(mid, midsh, img, sh, i, b, inodes + {i}, blocks + {b}, names[name := i], top + 1);
      assert blocks + {b} - {b} == blocks;
    }
  }

  lemma HoldingCreated(img0: Image, sh0: Shape, img: Image, sh: Shape, name: string, mode: Mode, i: nat,
                       inodes: set<nat>, blocks: set<nat>)
    requires Created(img0, sh0, img, sh, 0, name, mode, i) && Holding(img0, inodes, blocks)
    ensures Holding(img, inodes + {i}, blocks + {FirstBlock(img0)}) && FirstBlock(img0) !in blocks
    ensures img.inodes == img0.inodes[i := Node(mode, FirstBlock(img0))]
  {
  }

  lemma Emptying(img0: Image, sh0: Shape, img: Image, sh: Shape, c: nat, b: nat,
                 inodes: set<nat>, blocks: set<nat>, names: map<string, nat>, top: nat)
    requires Truncated(img0, sh0, img, sh, c) && c != 0 && c < MAX_INODES && img0.inodes[c] == Node(FileMode, b)
    requires b != 0
    requires Holding(img0, inodes, blocks) && Shows(img0, names, top)
    ensures Holding(img, inodes, blocks - {b}) && Shows(img, names, top)
    ensures img.inodes == img0.inodes[c := Inode(0, FileMode, NO_DIRECT, 0)]
  {
    ShowsUntouched(img0, sh0, img, names, top);
    forall x | DATA_START <= x < JOURNAL_START
      ensures img.blockBits[x] <==> x in blocks - {b}
    {
      KeptByNode(img0.blocks, FileMode, b, x);
    }
  }

  /** A file directly below the root goes. */
  lemma Remove(v: View, v': View, name: string, inodes: set<nat>, blocks: set<nat>, names: map<string, nat>,
               top: nat, c: nat, held: set<nat>)
    requires Stands(v, inodes, blocks, names, top) && GoodName(name) && name in names && names[name] == c
    requires c < MAX_INODES && c != 0 && v.img.inodes[c].mode == FileMode && Sound(v')
    requires forall x :: Keeping(v.img.blocks, v.img.inodes[c], x) <==> x in held
    requires Did(DoUnlink(Top(name)), v, v')
    ensures Stands(v', inodes - {c}, blocks - held, names - {name}, top) && v'.fds == v.fds
    ensures v'.img.inodes == v.img.inodes[c := ZERO_INODE]
  {
    TopPath(v.img, name, v.cwd);
    ShowsDeleted(v.img, v.shape, v'.img, v'.shape, name, FindName(Listing(v.img, 0), name, 0), c, names, top);
  }

  /** A create below a file fails and leaves its litter. */
  lemma Fail(v: View, v': View, name: string, x: string, flags: Flags, inodes: set<nat>, blocks: set<nat>,
             names: map<string, nat>, top: nat, c: nat, i: nat, b: nat)
    requires Stands(v, inodes, blocks, names, top) && GoodName(name) && name in names && names[name] == c
    requires GoodName(x) && flags.create && Sound(v')
    requires c < MAX_INODES && v.img.inodes[c].mode == FileMode && Lowest(inodes, blocks, i, b)
    requires Did(DoOpen(Below(name, x), flags), v, v')
    ensures Stands(v', inodes, blocks, names, top) && v'.fds == v.fds
    ensures v'.img.inodes == v.img.inodes[i := Node(FileMode, b)]
  {
    LowerPath(v.img, name, x, v.cwd);
    FirstIs(v.img, inodes, blocks, i, b);
    var fd: int, ino: nat, mark: nat :| Opens(v, v', Below(name, x), flags, fd, ino, mark);
    Failed(v.img, v.shape, v'.img, v'.shape, Below(name, x), v.cwd, c, x, inodes, blocks, names, top);
  }

  lemma Failed(img0: Image, sh0: Shape, img: Image, sh: Shape, path: string, cwd: nat, c: nat, x: string,
               inodes: set<nat>, blocks: set<nat>, names: map<string, nat>, top: nat)
    requires Restored(img0, sh0, img, sh) && OpenLitter(img0, img, path, cwd, true)
    requires Resolve(img0, path, cwd) == Missing && Split(img0, path, cwd) == ParentOf(c, x) && !IsDir(img0, c)
    requires FirstInode(img0) < MAX_INODES && FirstBlock(img0) < JOURNAL_START
    requires Holding(img0, inodes, blocks) && Shows(img0, names, top)
    ensures Holding(img, inodes, blocks) && Shows(img, names, top)
    ensures img.inodes == img0.inodes[FirstInode(img0) := Node(FileMode, FirstBlock(img0))]
  {
    ShowsUntouched(img0, sh0, img, names, top);
  }

  /** A new directory directly below the root. */
  lemma MakeDir(v: View, v': View, name: string, inodes: set<nat>, blocks: set<nat>, names: map<string, nat>,
                top: nat, i: nat, b: nat)
    requires Stands(v, inodes, blocks, names, top) && top < DIR_ENTRIES && Lowest(inodes, blocks, i, b)
    requires GoodName(name) && name !in names && Sound(v')
    requires Did(DoMkdir(Top(name)), v, v')
    ensures Stands(v', inodes + {i}, blocks + {b}, names[name := i], top + 1) && i in v'.shape.live
    ensures v'.img.inodes == v.img.inodes[i := Node(DirMode, b)] && v'.fds == v.fds
  {
    TopPath(v.img, name, v.cwd);
    FirstIs(v.img, inodes, blocks, i, b);
    assert Listing(v.img, 0)[top].ino == INVALID;
    var ino: nat :| Makes(v, v', Top(name), ino);
    ShowsCreated(v.img, v.shape, v'.img, v'.shape, name, DirMode, i, names, top);
  }
}
