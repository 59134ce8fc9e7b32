/**
  The file system on the journaled disk.  An image is kept in 254 blocks by some encoding of
  bitmaps, inode table and contents; every block write of the file system is then one block write of
  the disk, and a crash at any store of it, followed by recovery, leaves an image of the history.
 */
module FsJournal {
  import opened FsDisk
  import opened FsShape
  import opened FsCrash
  import opened FileSystems
  import RD = RamDisk

  /** How the parts of an image are laid out in bytes. */
  datatype Codec = Codec(
    bits: seq<bool> -> RD.Block, table: seq<Inode> -> RD.Block, content: Content -> RD.Block, superBlock: RD.Block)

  const BLOCK_BITMAP: nat := 2
  const INODE_BITMAP: nat := 3
  const INODE_TABLE: nat := 4

  function EncodeBlock(cd: Codec, img: Image, b: nat): RD.Block
    requires Sized(img) && b < BLOCK_COUNT
  {
    if b == 0 then cd.superBlock
    else if b == BLOCK_BITMAP then cd.bits(img.blockBits)
    else if b == INODE_BITMAP then cd.bits(img.inodeBits)
    else if b == INODE_TABLE then cd.table(img.inodes)
    else cd.content(img.blocks[b])
  }

  /** The image as the disk's blocks. */
  function Encode(cd: Codec, img: Image): (r: seq<RD.Block>)
    requires Sized(img)
    ensures |r| == RD.JOURNAL_BLOCK
  {
    seq(RD.JOURNAL_BLOCK, b requires 0 <= b < RD.JOURNAL_BLOCK => EncodeBlock(cd, img, b))
  }

  /** The block that a write goes to. */
  function Home(w: Write): nat {
    match w
    case BlockBit(_, _) => BLOCK_BITMAP
    case InodeBit(_, _) => INODE_BITMAP
    case PutInode(_, _) => INODE_TABLE
    case PutBlock(b, _) => b
  }

  /** Each block write of the file system changes one block of the disk. */
  lemma EncodeWrite(cd: Codec, img: Image, w: Write)
    requires Sized(img) && Homed(w)
    ensures RD.Writable(Home(w)) && Home(w) < RD.JOURNAL_BLOCK
    ensures Encode(cd, Apply(img, w)) == Encode(cd, img)[Home(w) := EncodeBlock(cd, Apply(img, w), Home(w))]
  {
  }

  /** Where the layout loses nothing, the blocks determine the image. */
  lemma EncodeDetermines(cd: Codec, a: Image, b: Image)
    requires Sized(a) && Sized(b) && Encode(cd, a) == Encode(cd, b)
    requires cd.bits(a.blockBits) == cd.bits(b.blockBits) ==> a.blockBits == b.blockBits
    requires cd.bits(a.inodeBits) == cd.bits(b.inodeBits) ==> a.inodeBits == b.inodeBits
    requires cd.table(a.inodes) == cd.table(b.inodes) ==> a.inodes == b.inodes
    requires forall k | 0 <= k < BLOCK_COUNT && cd.content(a.blocks[k]) == cd.content(b.blocks[k]) ::
               a.blocks[k] == b.blocks[k]
    ensures a.blockBits == b.blockBits && a.inodeBits == b.inodeBits && a.inodes == b.inodes
    ensures a.blocks[ROOT_DIR_BLOCK] == b.blocks[ROOT_DIR_BLOCK]
    ensures forall k | DATA_START <= k < JOURNAL_START :: a.blocks[k] == b.blocks[k]
  {
    assert forall k | 0 <= k < RD.JOURNAL_BLOCK ::
        EncodeBlock(cd, a, k) == Encode(cd, a)[k] == Encode(cd, b)[k] == EncodeBlock(cd, b, k);
    assert EncodeBlock(cd, a, BLOCK_BITMAP) == EncodeBlock(cd, b, BLOCK_BITMAP);
    assert EncodeBlock(cd, a, INODE_BITMAP) == EncodeBlock(cd, b, INODE_BITMAP);
    assert EncodeBlock(cd, a, INODE_TABLE) == EncodeBlock(cd, b, INODE_TABLE);
    assert EncodeBlock(cd, a, ROOT_DIR_BLOCK) == EncodeBlock(cd, b, ROOT_DIR_BLOCK);
    forall k | DATA_START <= k < JOURNAL_START
      ensures a.blocks[k] == b.blocks[k]
    {
      assert EncodeBlock(cd, a, k) == EncodeBlock(cd, b, k);
    }
  }

  // ---------------------------------------------------------------- crashes at any store

  /** `e` is the block write from image `a` to image `b`. */
  ghost predicate Carries(cd: Codec, e: RD.Event, a: Image, b: Image) {
    && e.Write? && Sized(a) && Sized(b) && RD.Writable(e.block) && e.block < RD.JOURNAL_BLOCK
    && Encode(cd, b) == Encode(cd, a)[e.block := e.buf]
  }

  /**
    The events carry out the history from index `k` on, write by write; after a write that is cut
    off, there are only recoveries.
   */
  ghost predicate Spells(cd: Codec, h: seq<Image>, k: nat, events: seq<RD.Event>)
    decreases |events|
  {
    events != [] ==>
      if events[0].Recover? then Spells(cd, h, k, events[1..])
      else
        && k + 1 < |h| && Carries(cd, events[0], h[k], h[k + 1])
        && if events[0].stores >= RD.WRITE_STORES then Spells(cd, h, k + 1, events[1..])
           else forall j | 1 <= j < |events| :: events[j].Recover?
  }

  /** Recoveries only leave the reference contents as they are. */
  lemma {:induction false} RecoveriesKeep(blocks: seq<RD.Block>, events: seq<RD.Event>)
    requires forall j | 0 <= j < |events| :: events[j].Recover?
    ensures RD.ReferenceAfter(blocks, events) == blocks
    decreases |events|
  {
    if events != [] {
      assert events[0].Recover?;
      RecoveriesKeep(blocks, events[1..]);
    }
  }

  /** What the committed writes amount to is an image of the history. */
  lemma {:induction false} SpelledReference(cd: Codec, h: seq<Image>, k: nat, events: seq<RD.Event>) returns (j: nat)
    requires k < |h| && (forall i | 0 <= i < |h| :: Sized(h[i])) && Spells(cd, h, k, events)
    ensures k <= j < |h| && RD.ReferenceAfter(Encode(cd, h[k]), events) == Encode(cd, h[j])
    decreases |events|
  {
    if events == [] {
      j := k;
    } else if events[0].Recover? {
      j := SpelledReference(cd, h, k, events[1..]);
    } else if events[0].stores >= RD.WRITE_STORES {
      j := SpelledReference(cd, h, k + 1, events[1..]);
    } else {
      j := if events[0].stores > RD.COMMIT then k + 1 else k;
      assert forall i | 0 <= i < |events[1..]| :: events[1..][i] == events[i + 1];
      RecoveriesKeep(Encode(cd, h[j]), events[1..]);
    }
  }

  /** Every step of a logged history can be carried out by one block write of the disk. */
  lemma HistoryCarried(cd: Codec, h: seq<Image>, k: nat, stores: nat) returns (e: RD.Event)
    requires StepOk(h, k + 1)
    ensures e.Write? && e.stores == stores && Carries(cd, e, h[k], h[k + 1])
  {
    var w :| Homed(w) && h[k + 1] == Apply(h[k], w);
    EncodeWrite(cd, h[k], w);
    e := RD.Write(Home(w), EncodeBlock(cd, h[k + 1], Home(w)), stores);
  }

  /**
    The disk carries out the block writes of a history, may crash at any store of any of them, and
    recoveries may be cut off and restarted at will.  Once a recovery completes, the disk holds an
    image of the history; if that image does not lie inside a truncation, it is safe and can be mounted.
   */
  lemma CrashRecoverMount(cd: Codec, h: seq<Image>, torn: set<nat>, k: nat, events: seq<RD.Event>,
                          m: RD.Machine, m': RD.Machine) returns (j: nat)
    requires k < |h| && Sized(h[0]) && Logged(h[..1], h) && Spells(cd, h, k, events)
    requires forall i | 0 <= i < |h| && i !in torn :: SafeImage(h[i])
    requires Sized(h[k]) && RD.Tracks(m, Encode(cd, h[k])) && RD.IsRun(m, events, m')
    ensures k <= j < |h| && Sized(h[j]) && RD.Tracks(m', Encode(cd, h[j]))
    ensures m'.up ==> m'.disk.blocks == Encode(cd, h[j])
    ensures j !in torn ==> SafeImage(h[j])
  {
    LoggedSized(h);
    RD.CrashAtomicity(m, Encode(cd, h[k]), events, m');
    j := SpelledReference(cd, h, k, events);
  }

  lemma LoggedSized(h: seq<Image>)
    requires |h| > 0 && Sized(h[0]) && Logged(h[..1], h)
    ensures forall i | 0 <= i < |h| :: Sized(h[i])
  {
    forall i | 0 < i < |h|
      ensures Sized(h[i])
    {
      assert StepOk(h, i);
    }
  }

  /** So it is for the history that the file system has recorded since it was mounted. */
  lemma CrashAnyOperation(cd: Codec, fs: FileSystem, k: nat, events: seq<RD.Event>, m: RD.Machine,
                          m': RD.Machine) returns (j: nat)
    requires fs.Valid() && k < |fs.history| && Spells(cd, fs.history, k, events)
    requires Sized(fs.history[k]) && RD.Tracks(m, Encode(cd, fs.history[k])) && RD.IsRun(m, events, m')
    ensures k <= j < |fs.history| && Sized(fs.history[j]) && RD.Tracks(m', Encode(cd, fs.history[j]))
    ensures j !in fs.torn ==> SafeImage(fs.history[j])
  {
    j := CrashRecoverMount(cd, fs.history, fs.torn, k, events, m, m');
  }
}
