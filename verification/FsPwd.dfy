/** Printing the path of a directory into a buffer, and formatting a disk. */
module FsPwd {
  import opened FsDisk
  import opened FsPaths
  import opened FsShape
  import opened FsWalk
  import opened FsCreate

  /** The buffer sizes that pwd accepts: right below the root it asks for one byte more than it needs. */
  predicate PwdFits(names: seq<string>, len: nat) { |Printed(names)| + (if |names| == 1 then 1 else 0) < len }

  lemma PrintedMore(names: seq<string>, name: string)
    ensures Printed(names + [name]) == Printed(names) + (if names == [] then "" else "/") + name
  {
    var all := names + [name];
    assert all[..|all| - 1] == names && all[|all| - 1] == name;
  }

  /** When a path fits, the path of the parent fits as well. */
  lemma FitsMore(names: seq<string>, name: string, len: nat)
    requires name != ""
    ensures PwdFits(names + [name], len) <==> PwdFits(names, len) && |Printed(names)| + |name| + 1 < len
  {
    PrintedMore(names, name);
  }

  lemma {:induction false} PrintedLength(names: seq<string>)
    requires PlainNames(names)
    ensures |Printed(names)| > 1 <==> names != []
  {
    if |names| > 1 {
      assert names[|names| - 1] != "";
    }
  }

  /** One level of pwd: the parent's path, a slash below the root, and the name. */
  lemma TrailStep(img: Image, sh: Shape, c: nat, len: nat)
    requires Safe(img, sh) && c in sh.live && c != 0
    ensures c in sh.parent && sh.parent[c] in sh.live && c in sh.depth && sh.parent[c] in sh.depth
    ensures sh.depth[sh.parent[c]] < sh.depth[c]
    ensures var above, name := Printed(Trail(img, sh, sh.parent[c])), NameOf(img, sh, c);
            && Printed(Trail(img, sh, c)) == above + (if |above| > 1 then "/" else "") + name
            && (PwdFits(Trail(img, sh, c), len) <==>
                PwdFits(Trail(img, sh, sh.parent[c]), len) && |above| + |name| + 1 < len)
  {
    assert Hangs(img, sh, c);
    NameOfFinds(img, sh, c);
    var names, name := Trail(img, sh, sh.parent[c]), NameOf(img, sh, c);
    TrailLeadsBack(img, sh, sh.parent[c]);
    PrintedLength(names);
    PrintedMore(names, name);
    FitsMore(names, name, len);
    assert Trail(img, sh, c) == names + [name];
  }

  /** The parent that ".." finds is a directory that finds itself. */
  lemma ParentFinds(img: Image, sh: Shape, c: nat)
    requires Safe(img, sh) && c in sh.live && img.inodes[c].mode == DirMode
    ensures c in sh.parent && sh.parent[c] in sh.live && IsDir(img, sh.parent[c])
    ensures Lookup(img, c, "..") == Inum(sh.parent[c]) && Lookup(img, sh.parent[c], ".") == Inum(sh.parent[c])
  {
    DotsFind(img, sh, c);
    DotsFind(img, sh, sh.parent[c]);
  }

  /** The name that a directory lists for inode `ino`, "." and ".." aside; "" for none. */
  method ChildName(entries: seq<Dirent>, ino: nat) returns (name: string, k: nat)
    ensures k <= |entries|
    ensures k < |entries| ==> entries[k].ino == ino && entries[k].name == name && name != "." && name != ".."
    ensures forall j | 0 <= j < k :: entries[j].ino != ino || entries[j].name == "." || entries[j].name == ".."
    ensures k == |entries| ==> name == ""
  {
    var j := 0;
    while j < |entries|
      invariant j <= |entries|
      invariant forall l | 0 <= l < j :: entries[l].ino != ino || entries[l].name == "." || entries[l].name == ".."
    {
      if entries[j].ino == ino && entries[j].name != "." && entries[j].name != ".." {
        return entries[j].name, j;
      }
      j := j + 1;
    }
    return "", j;
  }

  /** In its parent, a live inode is found under its own name. */
  lemma ChildNamed(img: Image, sh: Shape, c: nat, name: string, k: nat)
    requires Safe(img, sh) && c in sh.live && c != 0 && c in sh.parent && IsDir(img, sh.parent[c]) && k <= DIR_ENTRIES
    requires var entries := Listing(img, sh.parent[c]);
             && (k < DIR_ENTRIES ==> entries[k].ino == c && entries[k].name == name && name != "." && name != "..")
             && (forall j | 0 <= j < k :: entries[j].ino != c || entries[j].name == "." || entries[j].name == "..")
    ensures k < DIR_ENTRIES && name == NameOf(img, sh, c) && GoodName(name)
  {
    NameOfFinds(img, sh, c);
    assert Hangs(img, sh, c);
    assert Listing(img, sh.parent[c])[sh.entry[c]].name == NameOf(img, sh, c);
    if k < DIR_ENTRIES {
      OnlyEntry(img, sh, c, k);
    }
  }

  /** A name, after a slash where one is needed, and the terminator. */
  method AppendName(buf: array<char>, pos: nat, slash: bool, name: string) returns (end: nat)
    requires pos + (if slash then 1 else 0) + |name| < buf.Length
    modifies buf
    ensures end == pos + (if slash then 1 else 0) + |name| && buf[end] == '\0'
    ensures buf[..end] == old(buf[..])[..pos] + (if slash then "/" else "") + name
    ensures forall k | end < k < buf.Length :: buf[k] == old(buf[k])
  {
    end := pos;
    if slash {
      buf[end] := '/';
      end := end + 1;
    }
    var k := 0;
    ghost var start := buf[..end];
    while k < |name|
      invariant k <= |name| && buf[..end] == start
      invariant forall j | end <= j < end + k :: buf[j] == name[j - end]
      invariant forall j | end + k <= j < buf.Length :: buf[j] == old(buf[j])
    {
      buf[end + k] := name[k];
      k := k + 1;
    }
    end := end + |name|;
    buf[end] := '\0';
    assert buf[..end] == start + name;
  }

  // ---------------------------------------------------------------- a fresh disk

  const ROOT: Inode := Inode(0, DirMode, [ROOT_DIR_BLOCK, 0, 0, 0, 0, 0, 0, 0], 0)

  /** What fs_format leaves: metadata and journal blocks reserved, an empty root directory. */
  function Formatted(): (r: Image)
    ensures Sized(r)
  {
    Image(seq(BLOCK_COUNT, b => b < DATA_START || b >= JOURNAL_START), seq(MAX_INODES, i => i == 0),
          seq(MAX_INODES, i => if i == 0 then ROOT else ZERO_INODE),
          seq(BLOCK_COUNT, b => if b == ROOT_DIR_BLOCK then FreshDir(0, 0) else ZeroBlock()))
  }

  ghost const ROOT_SHAPE: Shape := Shape({0}, map[0 := 0], map[], map[0 := 0], map[ROOT_DIR_BLOCK := Slot(0, 0)], {0})

  lemma FormattedExact()
    ensures Exact(Formatted(), ROOT_SHAPE)
  {
    var img, sh := Formatted(), ROOT_SHAPE;
    forall n | 0 <= n < SLOTS
      ensures At(img.blocks, ROOT, n) == if n == 0 then ROOT_DIR_BLOCK else 0
    {
    }
    assert img.inodes[0] == ROOT && ROOT.direct[0] == ROOT_DIR_BLOCK;
    assert img.blocks[ROOT_DIR_BLOCK] == FreshDir(0, 0);
    FreshChildren(sh, 0, 0);
    assert DirOk(img, sh, 0, ROOT);
    assert InodeOk(img, sh, 0, img.inodes[0]);
    assert True(img, sh, NONE, ZERO_INODE, ROOT_DIR_BLOCK);
  }

  // ---------------------------------------------------------------- free counts

  function FreeBits(bits: seq<bool>, lo: nat, hi: nat): set<nat>
    requires lo <= hi <= |bits|
  {
    set b | lo <= b < hi && !bits[b]
  }

  /** The loops of fs_free_blocks and fs_free_inodes. */
  method CountFree(bits: seq<bool>, lo: nat, hi: nat) returns (n: nat)
    requires lo <= hi <= |bits|
    ensures n == |FreeBits(bits, lo, hi)|
  {
    n := 0;
    var b := lo;
    while b < hi
      invariant lo <= b <= hi && n == |FreeBits(bits, lo, b)|
    {
      assert FreeBits(bits, lo, b + 1) == FreeBits(bits, lo, b) + if bits[b] then {} else {b};
      if !bits[b] {
        n := n + 1;
      }
      b := b + 1;
    }
  }
}
