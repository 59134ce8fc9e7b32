/** Paths over consistent images: where they lead, and the way back to the root. */
module FsWalk {
  import opened FsDisk
  import opened FsPaths
  import opened FsShape
  import opened FsSteps

  // ---------------------------------------------------------------- walking stays on live inodes

  lemma LookupLive(img: Image, sh: Shape, d: nat, name: string)
    requires Safe(img, sh) && d in sh.live && Lookup(img, d, name).Inum?
    ensures Lookup(img, d, name).ino in sh.live && img.inodes[d].mode == DirMode
  {
    LiveListing(img, sh, d);
    assert d != 0 ==> Hangs(img, sh, d);
  }

  lemma {:induction false} ResolveLive(img: Image, sh: Shape, cur: nat, p: string)
    requires Safe(img, sh) && cur in sh.live && ResolveFrom(img, cur, p).Inum?
    ensures ResolveFrom(img, cur, p).ino in sh.live
    decreases |p|
  {
    var n := NextComponent(p);
    if n.Part? {
      if n.name == "." {
        ResolveLive(img, sh, cur, n.rest);
      } else {
        LookupLive(img, sh, cur, n.name);
        ResolveLive(img, sh, Lookup(img, cur, n.name).ino, n.rest);
      }
    }
  }

  lemma {:induction false} SplitLive(img: Image, sh: Shape, cur: nat, p: string)
    requires Safe(img, sh) && cur in sh.live && SplitFrom(img, cur, p).ParentOf?
    ensures SplitFrom(img, cur, p).dir in sh.live
    decreases |p|
  {
    var n := NextComponent(p);
    if n.name == "." {
      SplitLive(img, sh, cur, n.rest);
    } else if n.name == ".." || NextComponent(n.rest).Part? {
      LookupLive(img, sh, cur, n.name);
      SplitLive(img, sh, Lookup(img, cur, n.name).ino, n.rest);
    }
  }

  /** Where lookups in live directories that succeeded still find the same inode, the path still splits the same way. */
  lemma {:induction false} SplitStays(img: Image, sh: Shape, img': Image, cur: nat, p: string)
    requires Safe(img, sh) && Sized(img') && cur in sh.live && SplitFrom(img, cur, p).ParentOf?
    requires forall d: nat, name: string | d in sh.live && Lookup(img, d, name).Inum? ::
               Lookup(img', d, name) == Lookup(img, d, name)
    ensures SplitFrom(img', cur, p) == SplitFrom(img, cur, p)
    decreases |p|
  {
    var n := NextComponent(p);
    if n.name == "." {
      SplitStays(img, sh, img', cur, n.rest);
    } else if n.name == ".." || NextComponent(n.rest).Part? {
      LookupLive(img, sh, cur, n.name);
      SplitStays(img, sh, img', Lookup(img, cur, n.name).ino, n.rest);
    }
  }

  /** So is what it resolves to. */
  lemma {:induction false} ResolveStays(img: Image, sh: Shape, img': Image, cur: nat, p: string)
    requires Safe(img, sh) && Sized(img') && cur in sh.live && ResolveFrom(img, cur, p).Inum?
    requires forall d: nat, name: string | d in sh.live && Lookup(img, d, name).Inum? ::
               Lookup(img', d, name) == Lookup(img, d, name)
    ensures ResolveFrom(img', cur, p) == ResolveFrom(img, cur, p)
    decreases |p|
  {
    var n := NextComponent(p);
    if n.Part? {
      if n.name == "." {
        ResolveStays(img, sh, img', cur, n.rest);
      } else {
        LookupLive(img, sh, cur, n.name);
        ResolveStays(img, sh, img', Lookup(img, cur, n.name).ino, n.rest);
      }
    }
  }

  // ---------------------------------------------------------------- names of directories

  /** A child is found under its own name. */
  lemma NameFinds(img: Image, sh: Shape, d: nat, k: nat)
    requires Safe(img, sh) && d in sh.live && IsDir(img, d) && 2 <= k < DIR_ENTRIES && Listing(img, d)[k].ino != INVALID
    ensures GoodName(Listing(img, d)[k].name) && FindName(Listing(img, d), Listing(img, d)[k].name, 0) == k
    ensures Lookup(img, d, Listing(img, d)[k].name) == Inum(Listing(img, d)[k].ino)
  {
    LiveListing(img, sh, d);
    var entries := Listing(img, d);
    var j := FindName(entries, entries[k].name, 0);
    assert Names(entries[k], entries[k].name);
  }

  /** Every directory finds itself under "." and its parent under "..". */
  lemma DotsFind(img: Image, sh: Shape, d: nat)
    requires Safe(img, sh) && d in sh.live && img.inodes[d].mode == DirMode
    ensures d in sh.parent && sh.parent[d] in sh.live && IsDir(img, sh.parent[d])
    ensures Lookup(img, d, ".") == Inum(d) && Lookup(img, d, "..") == Inum(sh.parent[d])
  {
    LiveListing(img, sh, d);
    assert d != 0 ==> Hangs(img, sh, d);
    var entries := Listing(img, d);
    assert Names(entries[0], ".") && Names(entries[1], "..") && !Names(entries[0], "..");
    var j := FindName(entries, ".", 0);
    var k := FindName(entries, "..", 0);
  }

  /** The name of a live inode other than the root in its parent directory. */
  ghost function NameOf(img: Image, sh: Shape, c: nat): string
    requires Safe(img, sh) && c in sh.live && c != 0
  {
    assert Hangs(img, sh, c);
    Listing(img, sh.parent[c])[sh.entry[c]].name
  }

  lemma NameOfFinds(img: Image, sh: Shape, c: nat)
    requires Safe(img, sh) && c in sh.live && c != 0
    ensures GoodName(NameOf(img, sh, c)) && c in sh.parent && Lookup(img, sh.parent[c], NameOf(img, sh, c)) == Inum(c)
  {
    assert Hangs(img, sh, c);
    NameFinds(img, sh, sh.parent[c], sh.entry[c]);
  }

  /** The names from the root down to `c`; the depth makes this well founded. */
  ghost function Trail(img: Image, sh: Shape, c: nat): seq<string>
    requires Safe(img, sh) && c in sh.live
    decreases if c in sh.depth then sh.depth[c] else 0
  {
    if c == 0 then [] else
      assert Hangs(img, sh, c);
      Trail(img, sh, sh.parent[c]) + [NameOf(img, sh, c)]
  }

  lemma {:induction false} TrailLeadsBack(img: Image, sh: Shape, c: nat)
    requires Safe(img, sh) && c in sh.live
    ensures PlainNames(Trail(img, sh, c)) && Descend(img, 0, Trail(img, sh, c)) == Inum(c)
    decreases if c in sh.depth then sh.depth[c] else 0
  {
    if c != 0 {
      assert Hangs(img, sh, c);
      TrailLeadsBack(img, sh, sh.parent[c]);
      NameOfFinds(img, sh, c);
      DescendAppend(img, 0, Trail(img, sh, sh.parent[c]), NameOf(img, sh, c));
    }
  }

  /** Printing the trail of a live inode and resolving the text from anywhere leads back to it. */
  lemma PrintedTrail(img: Image, sh: Shape, c: nat, start: nat)
    requires Safe(img, sh) && c in sh.live
    ensures Resolve(img, Printed(Trail(img, sh, c)), start) == Inum(c)
  {
    TrailLeadsBack(img, sh, c);
    ResolvePrinted(img, Trail(img, sh, c), start);
  }

  /** The first entry of its parent that names `c`, "." and ".." aside, is the one it hangs on. */
  lemma OnlyEntry(img: Image, sh: Shape, c: nat, k: nat)
    requires Safe(img, sh) && c in sh.live && c != 0 && k < DIR_ENTRIES
    requires c in sh.parent && IsDir(img, sh.parent[c])
    requires var e := Listing(img, sh.parent[c])[k]; e.ino == c && e.name != "." && e.name != ".."
    ensures c in sh.entry && k == sh.entry[c]
  {
    assert Hangs(img, sh, c);
    LiveListing(img, sh, sh.parent[c]);
  }

  // ---------------------------------------------------------------- up and down

  /** ".." leads from a directory to its parent, and "." nowhere else. */
  lemma DotsResolve(img: Image, sh: Shape, d: nat)
    requires Safe(img, sh) && d in sh.live && img.inodes[d].mode == DirMode
    ensures d in sh.parent && Resolve(img, "..", d) == Inum(sh.parent[d]) && Resolve(img, ".", d) == Inum(d)
  {
    DotsFind(img, sh, d);
    ResolveName(img, "..", d);
    ResolveName(img, ".", d);
  }

  /** Wherever a path leads, with "/.." after it, it leads to the parent. */
  lemma UpFromPath(img: Image, sh: Shape, path: string, start: nat, d: nat)
    requires Safe(img, sh) && path != "" && Resolve(img, path, start) == Inum(d)
    requires d in sh.live && img.inodes[d].mode == DirMode
    ensures d in sh.parent && Resolve(img, path + "/..", start) == Inum(sh.parent[d])
  {
    DotsFind(img, sh, d);
    ResolveMore(img, path, "..", start);
    assert "/" + ".." == "/..";
  }

  /** A directory that is found under a proper name has the place it was found in as its parent. */
  lemma ChildsParent(img: Image, sh: Shape, d: nat, name: string, c: nat)
    requires Safe(img, sh) && d in sh.live && Lookup(img, d, name) == Inum(c) && name != "." && name != ".."
    ensures c in sh.live && c in sh.parent && sh.parent[c] == d
  {
    LookupLive(img, sh, d, name);
    LiveListing(img, sh, d);
    var k := FindName(Listing(img, d), name, 0);
    assert Names(Listing(img, d)[k], name);
  }

  /** Down into a child directory and up again leads back to the start. */
  lemma DownAndUp(img: Image, sh: Shape, d: nat, name: string, c: nat)
    requires Safe(img, sh) && d in sh.live && GoodName(name) && Lookup(img, d, name) == Inum(c)
    requires c < MAX_INODES && img.inodes[c].mode == DirMode
    ensures Resolve(img, name + "/..", d) == Inum(d) && Resolve(img, "..", c) == Inum(d)
  {
    ResolveName(img, name, d);
    ChildsParent(img, sh, d, name, c);
    UpFromPath(img, sh, name, d, c);
    DotsResolve(img, sh, c);
  }
}
