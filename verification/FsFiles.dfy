/** Files as flat byte sequences, and what leaves them untouched. */
module FsFiles {
  import opened FsDisk
  import opened FsShape
  import opened FsSteps
  import opened Pigeonhole

  // ---------------------------------------------------------------- contents

  /** The bytes of data block `b`; zeros stand for what a hole or a block of another kind would show. */
  function Raw(blocks: seq<Content>, b: nat): (r: seq<Byte>)
    ensures |r| == BLOCK_SIZE
  {
    if 0 < b < |blocks| && IsData(blocks[b]) then blocks[b].bytes else seq(BLOCK_SIZE, _ => 0 as Byte)
  }

  function ByteAt(blocks: seq<Content>, ind: Inode, j: nat): Byte {
    Raw(blocks, At(blocks, ind, DataSlot(j / BLOCK_SIZE)))[j % BLOCK_SIZE]
  }

  /** The contents of a file as one flat sequence. */
  function Bytes(blocks: seq<Content>, ind: Inode): (r: seq<Byte>)
    ensures |r| == ind.size
  {
    seq(ind.size, j requires 0 <= j < ind.size => ByteAt(blocks, ind, j))
  }

  function Contents(img: Image, i: nat): seq<Byte>
    requires Sized(img) && i < MAX_INODES
  {
    Bytes(img.blocks, img.inodes[i])
  }

  /** `t` is `s` with `data` written over it at offset `o`, extended as needed. */
  ghost predicate Overwritten(s: seq<Byte>, o: nat, data: seq<Byte>, t: seq<Byte>) {
    && o <= |s| && |t| == (if o + |data| > |s| then o + |data| else |s|)
    && (forall k | 0 <= k < |t| && !(o <= k < o + |data|) :: t[k] == s[k])
    && (forall k | o <= k < o + |data| :: t[k] == data[k - o])
  }

  /** There is only one such sequence. */
  lemma OverwrittenUnique(s: seq<Byte>, o: nat, data: seq<Byte>, t: seq<Byte>, u: seq<Byte>)
    requires Overwritten(s, o, data, t) && Overwritten(s, o, data, u)
    ensures t == u
  {
    assert forall k | 0 <= k < |t| :: t[k] == u[k];
  }

  /** Writing a buffer piece by piece. */
  lemma OverwriteMore(s: seq<Byte>, o: nat, buf: seq<Byte>, done: nat, take: nat, t: seq<Byte>, u: seq<Byte>)
    requires done + take <= |buf| && Overwritten(s, o, buf[..done], t)
    requires Overwritten(t, o + done, buf[done..][..take], u)
    ensures Overwritten(s, o, buf[..done + take], u)
  {
    forall k | o <= k < o + (done + take)
      ensures u[k] == buf[..done + take][k - o]
    {
      if k >= o + done {
        assert u[k] == buf[done..][..take][k - (o + done)];
      } else {
        assert u[k] == t[k] == buf[..done][k - o];
      }
    }
    forall k | 0 <= k < |u| && !(o <= k < o + (done + take))
      ensures u[k] == s[k]
    {
      assert u[k] == t[k];
    }
  }

  /** The first `n` bytes of `buf` are those of `s` from `o` on; the rest is as it was. */
  ghost predicate Got(buf: seq<Byte>, was: seq<Byte>, s: seq<Byte>, o: nat, n: nat) {
    && |buf| == |was| && n <= |buf| && (n > 0 ==> o + n <= |s|)
    && (forall k | 0 <= k < n :: buf[k] == s[o + k])
    && (forall k | n <= k < |buf| :: buf[k] == was[k])
  }

  lemma GotMore(buf: seq<Byte>, buf': seq<Byte>, was: seq<Byte>, s: seq<Byte>, o: nat, done: nat, piece: seq<Byte>)
    requires Got(buf, was, s, o, done) && |buf'| == |buf| && done + |piece| <= |buf| && o + done + |piece| <= |s|
    requires forall k | 0 <= k < |buf| && !(done <= k < done + |piece|) :: buf'[k] == buf[k]
    requires buf'[done..done + |piece|] == piece == s[o + done..o + done + |piece|]
    ensures Got(buf', was, s, o, done + |piece|)
  {
    forall k | done <= k < done + |piece|
      ensures buf'[k] == s[o + k]
    {
      assert buf'[k] == buf'[done..done + |piece|][k - done] == s[o + done..o + done + |piece|][k - done];
    }
  }

  /** mem_copy of `take` bytes of `src` into a buffer. */
  method CopyBytes(buf: array<Byte>, done: nat, src: seq<Byte>, off: nat, take: nat)
    requires done + take <= buf.Length && off + take <= |src|
    modifies buf
    ensures forall j | 0 <= j < buf.Length && !(done <= j < done + take) :: buf[j] == old(buf[j])
    ensures buf[done..done + take] == src[off..off + take]
  {
    var k := 0;
    while k < take
      invariant k <= take
      invariant forall j | 0 <= j < buf.Length && !(done <= j < done + k) :: buf[j] == old(buf[j])
      invariant forall j | done <= j < done + k :: buf[j] == src[off + (j - done)]
    {
      buf[done + k] := src[off + k];
      k := k + 1;
    }
  }

  /** A buffer that has got the bytes of `s` from `o` on, up to `done`, gets the next ones from a block. */
  method CopyChunk(buf: array<Byte>, done: nat, src: seq<Byte>, off: nat, take: nat, ghost was: seq<Byte>,
                   ghost s: seq<Byte>, ghost o: nat)
    requires done + take <= buf.Length && off + take <= |src| && o + done + take <= |s|
    requires Got(buf[..], was, s, o, done) && src[off..off + take] == s[o + done..o + done + take]
    modifies buf
    ensures Got(buf[..], was, s, o, done + take)
  {
    CopyBytes(buf, done, src, off, take);
    GotMore(old(buf[..]), buf[..], was, s, o, done, src[off..off + take]);
  }

  // ---------------------------------------------------------------- untouched inodes

  /** Inode `j` and every block it holds are the same in both images. */
  ghost predicate Untouched(img: Image, img': Image, j: nat)
    requires Sized(img) && Sized(img') && j < MAX_INODES
  {
    && img'.inodes[j] == img.inodes[j]
    && forall n | 0 <= n < SLOTS && 0 < BlockAt(img, j, n) < BLOCK_COUNT ::
        img'.blocks[BlockAt(img, j, n)] == img.blocks[BlockAt(img, j, n)]
  }

  lemma UntouchedAt(img: Image, img': Image, j: nat, n: nat)
    requires Sized(img) && Sized(img') && j < MAX_INODES && Untouched(img, img', j) && n < SLOTS
    ensures BlockAt(img', j, n) == BlockAt(img, j, n)
  {
    assert BlockAt(img, j, TABLE) == img.inodes[j].indirect;
  }

  lemma UntouchedTrans(img: Image, img': Image, img'': Image, j: nat)
    requires Sized(img) && Sized(img') && Sized(img'') && j < MAX_INODES
    requires Untouched(img, img', j) && Untouched(img', img'', j)
    ensures Untouched(img, img'', j)
  {
    forall n | 0 <= n < SLOTS && 0 < BlockAt(img, j, n) < BLOCK_COUNT
      ensures img''.blocks[BlockAt(img, j, n)] == img.blocks[BlockAt(img, j, n)]
    {
      UntouchedAt(img, img', j, n);
    }
  }

  lemma UntouchedContents(img: Image, img': Image, sh: Shape, j: nat)
    requires Safe(img, sh) && Sized(img') && j in sh.live && img.inodes[j].mode == FileMode && Untouched(img, img', j)
    ensures Contents(img', j) == Contents(img, j)
  {
    var ind := img.inodes[j];
    assert InodeOk(img, sh, j, ind);
    forall k | 0 <= k < ind.size
      ensures ByteAt(img'.blocks, ind, k) == ByteAt(img.blocks, ind, k)
    {
      assert 0 <= k / BLOCK_SIZE < BlocksFor(ind.size) <= MAX_FILE_BLOCKS;
      var n := DataSlot(k / BLOCK_SIZE);
      UntouchedAt(img, img', j, n);
      assert BlockAt(img, j, n) == At(img.blocks, ind, n);
      assert At(img.blocks, ind, n) != 0 ==> Owned(img, sh, j, n, At(img.blocks, ind, n));
    }
  }

  /** A write that is harmless to everybody but `x` leaves every other live inode untouched. */
  lemma HarmlessUntouched(img: Image, sh: Shape, x: nat, w: Write, j: nat)
    requires Sized(img) && Harmless(img, sh, x, w) && j in sh.live && j != x && j < MAX_INODES
    ensures Untouched(img, Apply(img, w), j)
  {
    forall n | 0 <= n < SLOTS && 0 < BlockAt(img, j, n) < BLOCK_COUNT
      ensures Apply(img, w).blocks[BlockAt(img, j, n)] == img.blocks[BlockAt(img, j, n)]
    {
    }
  }

  // ---------------------------------------------------------------- one data block written

  /** The bytes of a block with `data` put at `off`. */
  function Patch(bytes: seq<Byte>, off: nat, data: seq<Byte>): (r: seq<Byte>)
    requires off + |data| <= |bytes|
    ensures |r| == |bytes|
  {
    bytes[..off] + data + bytes[off + |data|..]
  }

  /** Different slots of a consistent inode hold different blocks. */
  lemma SlotsDiffer(img: Image, sh: Shape, i: nat, ind: Inode, n: nat, m: nat)
    requires Sized(img) && BlocksOwned(img, sh, i, ind) && n < SLOTS && m < SLOTS && n != m
    requires At(img.blocks, ind, n) != 0
    ensures At(img.blocks, ind, n) != At(img.blocks, ind, m)
  {
    assert Owned(img, sh, i, n, At(img.blocks, ind, n));
  }

  /** Patching the block under byte `o` and growing the size accordingly overwrites the file there. */
  lemma PatchOverwrites(img: Image, sh: Shape, i: nat, ind: Inode, o: nat, data: seq<Byte>)
    requires Sized(img) && InodeOk(img, sh, i, ind) && ind.mode == FileMode && o <= ind.size
    requires o / BLOCK_SIZE < MAX_FILE_BLOCKS
    requires o % BLOCK_SIZE + |data| <= BLOCK_SIZE && At(img.blocks, ind, DataSlot(o / BLOCK_SIZE)) != 0
    ensures var b := At(img.blocks, ind, DataSlot(o / BLOCK_SIZE));
            && b < BLOCK_COUNT && IsData(img.blocks[b])
            && var c := Data(Patch(img.blocks[b].bytes, o % BLOCK_SIZE, data));
               var size := if o + |data| > ind.size then o + |data| else ind.size;
               Overwritten(Bytes(img.blocks, ind), o, data,
                   Bytes(Apply(img, PutBlock(b, c)).blocks, ind.(size := size)))
  {
    var l := o / BLOCK_SIZE;
    var n := DataSlot(l);
    var b := At(img.blocks, ind, n);
    assert Owned(img, sh, i, n, b);
    var c := Data(Patch(img.blocks[b].bytes, o % BLOCK_SIZE, data));
    var img' := Apply(img, PutBlock(b, c));
    var ind' := ind.(size := if o + |data| > ind.size then o + |data| else ind.size);
    forall j | 0 <= j < ind'.size
      ensures ByteAt(img'.blocks, ind', j) == if o <= j < o + |data| then data[j - o] else ByteAt(img.blocks, ind, j)
    {
      PatchedByte(img, sh, i, ind, o, data, j);
    }
  }

  lemma SameBlock(o: nat, j: nat, len: nat)
    requires o % BLOCK_SIZE + len <= BLOCK_SIZE && o <= j < o + len
    ensures j / BLOCK_SIZE == o / BLOCK_SIZE && j % BLOCK_SIZE == o % BLOCK_SIZE + (j - o)
  {
  }

  lemma OtherOffset(o: nat, j: nat, len: nat)
    requires o % BLOCK_SIZE + len <= BLOCK_SIZE && j / BLOCK_SIZE == o / BLOCK_SIZE && !(o <= j < o + len)
    ensures j % BLOCK_SIZE < o % BLOCK_SIZE || j % BLOCK_SIZE >= o % BLOCK_SIZE + len
  {
  }

  lemma PatchedByte(img: Image, sh: Shape, i: nat, ind: Inode, o: nat, data: seq<Byte>, j: nat)
    requires Sized(img) && InodeOk(img, sh, i, ind) && ind.mode == FileMode && o <= ind.size
    requires o / BLOCK_SIZE < MAX_FILE_BLOCKS
    requires o % BLOCK_SIZE + |data| <= BLOCK_SIZE
    requires var b := At(img.blocks, ind, DataSlot(o / BLOCK_SIZE)); 0 < b < BLOCK_COUNT && IsData(img.blocks[b])
    requires j < ind.size || j < o + |data|
    ensures var b := At(img.blocks, ind, DataSlot(o / BLOCK_SIZE));
            var c := Data(Patch(img.blocks[b].bytes, o % BLOCK_SIZE, data));
            ByteAt(Apply(img, PutBlock(b, c)).blocks, ind, j)
              == if o <= j < o + |data| then data[j - o] else ByteAt(img.blocks, ind, j)
  {
    var n := DataSlot(o / BLOCK_SIZE);
    var b := At(img.blocks, ind, n);
    var c := Data(Patch(img.blocks[b].bytes, o % BLOCK_SIZE, data));
    var blocks' := Apply(img, PutBlock(b, c)).blocks;
    var m := DataSlot(j / BLOCK_SIZE);
    assert ind.indirect != b by {
      assert At(img.blocks, ind, TABLE) == ind.indirect;
      SlotsDiffer(img, sh, i, ind, n, TABLE);
    }
    assert At(blocks', ind, m) == At(img.blocks, ind, m);
    if o <= j < o + |data| {
      SameBlock(o, j, |data|);
    } else {
      if j / BLOCK_SIZE == o / BLOCK_SIZE {
        OtherOffset(o, j, |data|);
      } else {
        assert m != n && m < SLOTS;
        SlotsDiffer(img, sh, i, ind, n, m);
      }
    }
  }

  // ---------------------------------------------------------------- capacity

  /** The blocks of the first `l` data slots. */
  function Held(blocks: seq<Content>, ind: Inode, l: nat): (r: seq<nat>)
    ensures |r| == l
  {
    seq(l, k requires 0 <= k < l => At(blocks, ind, DataSlot(k)))
  }

  /**
    No file without holes can fill its last addressable block: 248 data blocks and a pointer table do not
    fit into the 248 allocatable blocks.
   */
  lemma NeverFull(img: Image, sh: Shape, i: nat, ind: Inode)
    requires Sized(img) && InodeOk(img, sh, i, ind) && ind.mode == FileMode && i != 0 && i in sh.solid
    ensures BlocksFor(ind.size) < MAX_FILE_BLOCKS && ind.size / BLOCK_SIZE < MAX_FILE_BLOCKS
  {
    if BlocksFor(ind.size) >= MAX_FILE_BLOCKS {
      var q := Held(img.blocks, ind, MAX_FILE_BLOCKS) + [ind.indirect];
      forall k | 0 <= k < MAX_FILE_BLOCKS
        ensures Owned(img, sh, i, DataSlot(k), q[k]) && q[k] != 0
      {
        assert At(img.blocks, ind, DataSlot(k)) != 0;
      }
      assert At(img.blocks, ind, TABLE) == ind.indirect;
      assert ind.indirect != 0 by {
        assert q[8] == At(img.blocks, ind, DataSlot(8)) != 0;
      }
      assert Owned(img, sh, i, TABLE, q[MAX_FILE_BLOCKS]);
      forall a, b | 0 <= a < b < |q|
        ensures q[a] != q[b]
      {
        assert sh.owner[q[a]] == Slot(i, DataSlot(a));
        assert sh.owner[q[b]] == Slot(i, if b == MAX_FILE_BLOCKS then TABLE else DataSlot(b));
      }
      DistinctFits(q, DATA_START, JOURNAL_START);
    }
  }
}
