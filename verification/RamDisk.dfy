/**
  The journaled RAM disk: one undo record guards one block write.

  A block write and a recovery are modelled store by store.  The store sequence of each is
  given as a function from a step number to a store, the disk after `k` stores is computed
  by running that sequence, and a crash may stop it after any `k`.
 */
module RamDisk {
  import opened Fnv

  const BLOCK_SIZE: nat := 4096
  const RAMDISK_BLOCKS: nat := 256
  const JOURNAL_BLOCK: nat := 254
  const JOURNAL_DATA_BLOCK: nat := 255
  const JOURNAL_MAGIC: nat := 0x4A4E4C31

  type Block = b: seq<Byte> | |b| == BLOCK_SIZE witness seq(BLOCK_SIZE, _ => 0 as Byte)

  /** The four words of the journal header; the rest of block 254 is never touched. */
  datatype Header = Header(magic: nat, target: nat, checksum: nat, committed: nat)

  const CLEARED: Header := Header(0, 0, 0, 0)

  /** Blocks 0..253, the header kept in block 254 and the before-image kept in block 255. */
  datatype Disk = Disk(blocks: seq<Block>, header: Header, image: Block)

  predicate Writable(block: nat) {
    block < RAMDISK_BLOCKS && block != JOURNAL_BLOCK && block != JOURNAL_DATA_BLOCK
  }

  predicate WellFormed(d: Disk) {
    |d.blocks| == JOURNAL_BLOCK && Writable(d.header.target)
  }

  // ---------------------------------------------------------------- stores

  datatype Store =
    | ImageByte(index: nat, value: Byte)
    | DataByte(block: nat, index: nat, value: Byte)
    | SetMagic(word: nat)
    | SetTarget(word: nat)
    | SetChecksum(word: nat)
    | SetCommitted(word: nat)

  function Apply(d: Disk, s: Store): Disk {
    match s
    case ImageByte(i, v) =>
      if i < BLOCK_SIZE then d.(image := d.image[i := v]) else d
    case DataByte(b, i, v) =>
      if b < |d.blocks| && i < BLOCK_SIZE then d.(blocks := d.blocks[b := d.blocks[b][i := v]]) else d
    case SetMagic(w) => d.(header := d.header.(magic := w))
    case SetTarget(w) => d.(header := d.header.(target := w))
    case SetChecksum(w) => d.(header := d.header.(checksum := w))
    case SetCommitted(w) => d.(header := d.header.(committed := w))
  }

  /** The disk after all stores of `program`, in order. */
  function Run(d: Disk, program: seq<Store>): Disk {
    if program == [] then d
    else Apply(Run(d, program[..|program| - 1]), program[|program| - 1])
  }

  function ClearStore(k: nat): Store {
    if k == 0 then SetMagic(0)
    else if k == 1 then SetTarget(0)
    else if k == 2 then SetChecksum(0)
    else SetCommitted(0)
  }

  // ---------------------------------------------------------------- block write

  const HEADER_DONE: nat := BLOCK_SIZE + 4
  const COMMIT: nat := HEADER_DONE + BLOCK_SIZE
  /** Number of stores of one block write: before-image, header, target, commit, clear. */
  const WRITE_STORES: nat := COMMIT + 5

  function WriteStore(d: Disk, block: nat, buf: Block, k: nat): Store
    requires block < |d.blocks|
  {
    if k < BLOCK_SIZE then ImageByte(k, d.blocks[block][k])
    else if k == BLOCK_SIZE then SetMagic(JOURNAL_MAGIC)
    else if k == BLOCK_SIZE + 1 then SetTarget(block)
    else if k == BLOCK_SIZE + 2 then SetChecksum(Checksum(d.blocks[block]))
    else if k == BLOCK_SIZE + 3 then SetCommitted(0)
    else if k < COMMIT then DataByte(block, k - HEADER_DONE, buf[k - HEADER_DONE])
    else if k == COMMIT then SetCommitted(1)
    else ClearStore(k - COMMIT - 1)
  }

  /** The first `k` stores of ramdisk_write_block, in program order. */
  function WriteProgram(d: Disk, block: nat, buf: Block, k: nat): (p: seq<Store>)
    requires block < |d.blocks|
    ensures |p| == k
  {
    seq(k, i requires 0 <= i < k => WriteStore(d, block, buf, i))
  }

  lemma WriteProgramStep(d: Disk, block: nat, buf: Block, k: nat)
    requires block < |d.blocks|
    ensures WriteProgram(d, block, buf, k + 1) == WriteProgram(d, block, buf, k) + [WriteStore(d, block, buf, k)]
  {
  }

  /** The first `n` bytes of `a`, then the rest of `b`. */
  function Mix(a: Block, b: Block, n: nat): Block
    requires n <= BLOCK_SIZE
  {
    a[..n] + b[n..]
  }

  function Clamp(n: int): (r: nat)
    ensures r <= BLOCK_SIZE
  {
    if n < 0 then 0 else if n > BLOCK_SIZE then BLOCK_SIZE else n
  }

  /** Closed form of the disk after `k` stores of a block write. */
  function DuringWrite(d: Disk, block: nat, buf: Block, k: nat): Disk
    requires block < |d.blocks| && k <= WRITE_STORES
  {
    var before := d.blocks[block];
    Disk(
      d.blocks[block := Mix(buf, before, Clamp(k - HEADER_DONE))],
      Header(
        if k <= BLOCK_SIZE then d.header.magic else if k <= COMMIT + 1 then JOURNAL_MAGIC else 0,
        if k <= BLOCK_SIZE + 1 then d.header.target else if k <= COMMIT + 2 then block else 0,
        if k <= BLOCK_SIZE + 2 then d.header.checksum else if k <= COMMIT + 3 then Checksum(before) else 0,
        if k <= BLOCK_SIZE + 3 then d.header.committed
        else if k <= COMMIT then 0 else if k <= COMMIT + 4 then 1 else 0),
      Mix(before, d.image, Clamp(k)))
  }

  lemma MixStep(a: Block, b: Block, n: nat)
    requires n < BLOCK_SIZE
    ensures Mix(a, b, n)[n := a[n]] == Mix(a, b, n + 1)
  {
  }

  lemma MixEnds(a: Block, b: Block)
    ensures Mix(a, b, 0) == b && Mix(a, b, BLOCK_SIZE) == a
  {
    assert a[..0] + b[0..] == b && a[..BLOCK_SIZE] + b[BLOCK_SIZE..] == a;
  }

  /** One more store of the write advances the closed form by one. */
  lemma DuringWriteStep(d: Disk, block: nat, buf: Block, k: nat)
    requires block < |d.blocks| && k < WRITE_STORES
    ensures Apply(DuringWrite(d, block, buf, k), WriteStore(d, block, buf, k)) == DuringWrite(d, block, buf, k + 1)
  {
    var before := d.blocks[block];
    if k < BLOCK_SIZE {
      MixStep(before, d.image, k);
    } else if HEADER_DONE <= k < COMMIT {
      MixStep(buf, before, k - HEADER_DONE);
      var part := Mix(buf, before, k - HEADER_DONE);
      assert d.blocks[block := part][block := part[k - HEADER_DONE := buf[k - HEADER_DONE]]]
          == d.blocks[block := Mix(buf, before, k - HEADER_DONE + 1)];
    }
  }

  lemma {:induction false} RunWrite(d: Disk, block: nat, buf: Block, k: nat)
    requires block < |d.blocks| && k <= WRITE_STORES
    ensures Run(d, WriteProgram(d, block, buf, k)) == DuringWrite(d, block, buf, k)
  {
    if k == 0 {
      MixEnds(buf, d.blocks[block]);
      MixEnds(d.blocks[block], d.image);
      assert d.blocks[block := d.blocks[block]] == d.blocks;
    } else {
      RunWrite(d, block, buf, k - 1);
      DuringWriteStep(d, block, buf, k - 1);
      assert WriteProgram(d, block, buf, k)[..k - 1] == WriteProgram(d, block, buf, k - 1);
    }
  }

  // ---------------------------------------------------------------- recovery

  /** Recovery finds a journal record it can read. */
  predicate Readable(d: Disk) {
    d.header.magic == JOURNAL_MAGIC && Writable(d.header.target)
  }

  /** Recovery will copy the before-image over the target. */
  predicate Undoes(d: Disk) {
    Readable(d) && Checksum(d.image) == d.header.checksum && d.header.committed == 0
  }

  function RecoverStores(d: Disk): nat {
    if !Readable(d) then 0 else if Undoes(d) then BLOCK_SIZE + 4 else 4
  }

  function RecoverStore(d: Disk, k: nat): Store {
    if Undoes(d) then
      if k < BLOCK_SIZE then DataByte(d.header.target, k, d.image[k]) else ClearStore(k - BLOCK_SIZE)
    else ClearStore(k)
  }

  /** The first `k` stores of journal_recover, in program order. */
  function RecoverProgram(d: Disk, k: nat): (p: seq<Store>)
    ensures |p| == k
  {
    seq(k, i requires 0 <= i < k => RecoverStore(d, i))
  }

  /** The blocks an uninterrupted recovery leaves behind. */
  function Recovered(d: Disk): seq<Block>
    requires |d.blocks| == JOURNAL_BLOCK
  {
    if Undoes(d) then d.blocks[d.header.target := d.image] else d.blocks
  }

  function ClearedBy(h: Header, k: int): Header {
    Header(
      if k <= 0 then h.magic else 0,
      if k <= 1 then h.target else 0,
      if k <= 2 then h.checksum else 0,
      if k <= 3 then h.committed else 0)
  }

  /** Closed form of the disk after `k` stores of a recovery. */
  function DuringRecovery(d: Disk, k: nat): Disk
    requires WellFormed(d) && k <= RecoverStores(d)
  {
    if Undoes(d) then
      Disk(d.blocks[d.header.target := Mix(d.image, d.blocks[d.header.target], Clamp(k))],
           ClearedBy(d.header, k - BLOCK_SIZE), d.image)
    else
      d.(header := ClearedBy(d.header, k))
  }

  lemma DuringRecoveryStep(d: Disk, k: nat)
    requires WellFormed(d) && k < RecoverStores(d)
    ensures Apply(DuringRecovery(d, k), RecoverStore(d, k)) == DuringRecovery(d, k + 1)
  {
    if Undoes(d) && k < BLOCK_SIZE {
      var t := d.header.target;
      MixStep(d.image, d.blocks[t], k);
      var part := Mix(d.image, d.blocks[t], k);
      assert d.blocks[t := part][t := part[k := d.image[k]]] == d.blocks[t := Mix(d.image, d.blocks[t], k + 1)];
    }
  }

  lemma {:induction false} RunRecovery(d: Disk, k: nat)
    requires WellFormed(d) && k <= RecoverStores(d)
    ensures Run(d, RecoverProgram(d, k)) == DuringRecovery(d, k)
  {
    if k == 0 {
      if Undoes(d) {
        MixEnds(d.image, d.blocks[d.header.target]);
        assert d.blocks[d.header.target := d.blocks[d.header.target]] == d.blocks;
      }
    } else {
      RunRecovery(d, k - 1);
      DuringRecoveryStep(d, k - 1);
      assert RecoverProgram(d, k)[..k - 1] == RecoverProgram(d, k - 1);
    }
  }

  /**
    What an uninterrupted recovery does: nothing without a record; otherwise the journal is cleared,
    and the before-image goes back to its block if and only if it is undamaged and the write was not
    committed.
   */
  lemma RecoveryMeans(d: Disk)
    requires WellFormed(d)
    ensures var e := Run(d, RecoverProgram(d, RecoverStores(d)));
            && e.image == d.image && |e.blocks| == |d.blocks|
            && e.header == (if d.header.magic == JOURNAL_MAGIC then CLEARED else d.header)
            && e.blocks == if d.header.magic == JOURNAL_MAGIC && d.header.committed == 0
                              && Checksum(d.image) == d.header.checksum
                           then d.blocks[d.header.target := d.image] else d.blocks
  {
    RunRecovery(d, RecoverStores(d));
    if Undoes(d) {
      MixEnds(d.image, d.blocks[d.header.target]);
    }
  }

  /** A before-image with one wrong byte is never put back. */
  lemma DamagedImageIgnored(d: Disk, before: Block, k: nat)
    requires WellFormed(d) && d.header.checksum == Checksum(before)
    requires k < BLOCK_SIZE && d.image[k] != before[k] && d.image == before[k := d.image[k]]
    ensures Run(d, RecoverProgram(d, RecoverStores(d))).blocks == d.blocks
  {
    OneByteShows(before, k, d.image[k]);
    RecoveryMeans(d);
  }

  // ---------------------------------------------------------------- atomicity of one call

  /** No journal record is pending. */
  predicate Idle(d: Disk) {
    WellFormed(d) && d.header.magic != JOURNAL_MAGIC
  }

  /**
    The stale header words cannot turn the fresh before-image into a wrong undo while the
    new header is only partly stored.
   */
  predicate Benign(d: Disk, block: nat)
    requires WellFormed(d) && Writable(block)
  {
    d.header.committed == 0 && d.header.checksum == Checksum(d.blocks[block])
    ==> d.blocks[d.header.target] == d.blocks[block]
  }

  /** What recovery makes of a write interrupted after `k` stores. */
  function AfterCrash(d: Disk, block: nat, buf: Block, k: nat): seq<Block>
    requires WellFormed(d) && Writable(block) && k <= WRITE_STORES
  {
    RunWrite(d, block, buf, k);
    Recovered(Run(d, WriteProgram(d, block, buf, k)))
  }

  /** A write is all or nothing at crash point `k`; the commit store decides which. */
  predicate AtomicAt(d: Disk, block: nat, buf: Block, k: nat)
    requires WellFormed(d) && Writable(block) && k <= WRITE_STORES
  {
    AfterCrash(d, block, buf, k) == if k <= COMMIT then d.blocks else d.blocks[block := buf]
  }

  lemma WriteAtomicAt(d: Disk, block: nat, buf: Block, k: nat)
    requires Idle(d) && Writable(block) && Benign(d, block) && k <= WRITE_STORES
    ensures AtomicAt(d, block, buf, k)
  {
    RunWrite(d, block, buf, k);
    var before := d.blocks[block];
    var e := DuringWrite(d, block, buf, k);
    MixEnds(buf, before);
    MixEnds(before, d.image);
    assert d.blocks[block := before] == d.blocks;
    assert d.blocks[d.header.target := d.blocks[d.header.target]] == d.blocks;
    if HEADER_DONE <= k {
      assert e.blocks[block := before] == d.blocks;
    }
  }

  /**
    Crash atomicity of one block write holds at every store exactly when the stale header
    is benign for the block about to be written.
   */
  lemma WriteAtomicIff(d: Disk, block: nat, buf: Block)
    requires Idle(d) && Writable(block)
    ensures Benign(d, block) <==> forall k: nat | k <= WRITE_STORES :: AtomicAt(d, block, buf, k)
  {
    if Benign(d, block) {
      forall k: nat | k <= WRITE_STORES
        ensures AtomicAt(d, block, buf, k)
      {
        WriteAtomicAt(d, block, buf, k);
      }
    } else {
      var k := BLOCK_SIZE + 1;
      RunWrite(d, block, buf, k);
      var before := d.blocks[block];
      MixEnds(buf, before);
      MixEnds(before, d.image);
      assert d.blocks[block := before] == d.blocks;
      assert AfterCrash(d, block, buf, k)[d.header.target] == before;
      assert !AtomicAt(d, block, buf, k);
    }
  }

  /** A finished write leaves an idle, cleared journal and exactly one block changed. */
  lemma WriteCompletes(d: Disk, block: nat, buf: Block)
    requires WellFormed(d) && Writable(block)
    ensures Run(d, WriteProgram(d, block, buf, WRITE_STORES))
         == Disk(d.blocks[block := buf], CLEARED, d.blocks[block])
  {
    RunWrite(d, block, buf, WRITE_STORES);
    MixEnds(buf, d.blocks[block]);
    MixEnds(d.blocks[block], d.image);
  }

  /** Interrupting recovery after any store changes nothing about its final outcome. */
  lemma RecoveryRestartable(d: Disk, k: nat)
    requires WellFormed(d) && k <= RecoverStores(d)
    ensures var e := Run(d, RecoverProgram(d, k));
            && WellFormed(e) && Recovered(e) == Recovered(d)
            && (k == RecoverStores(d) ==> Idle(e) && e.blocks == Recovered(d))
  {
    RunRecovery(d, k);
    if Undoes(d) {
      var t := d.header.target;
      MixEnds(d.image, d.blocks[t]);
      var e := DuringRecovery(d, k);
      assert e.blocks[t := d.image] == d.blocks[t := d.image];
    }
  }

  // ---------------------------------------------------------------- whole runs

  /** A call cut off after `stores` stores, or completed when `stores` is large enough. */
  datatype Event =
    | Write(block: nat, buf: Block, stores: nat)
    | Recover(stores: nat)

  /** `up` holds from a completed recovery until the next crash. */
  datatype Machine = Machine(disk: Disk, up: bool)

  function Min(a: nat, b: nat): nat { if a < b then a else b }

  function Step(m: Machine, e: Event): Machine
    requires WellFormed(m.disk)
  {
    match e
    case Write(b, buf, n) =>
      if Writable(b) then
        var k := Min(n, WRITE_STORES);
        Machine(Run(m.disk, WriteProgram(m.disk, b, buf, k)), k == WRITE_STORES)
      else m
    case Recover(n) =>
      var k := Min(n, RecoverStores(m.disk));
      Machine(Run(m.disk, RecoverProgram(m.disk, k)), k == RecoverStores(m.disk))
  }

  /** Writes happen only while the machine is up, from a benign header. */
  predicate Allowed(m: Machine, e: Event)
    requires WellFormed(m.disk)
  {
    e.Write? ==> m.up && (Writable(e.block) ==> Benign(m.disk, e.block))
  }

  /** The reference: a write takes effect iff its commit store happened. */
  function Reference(blocks: seq<Block>, e: Event): seq<Block> {
    if e.Write? && e.stores > COMMIT && e.block < |blocks| && Writable(e.block)
    then blocks[e.block := e.buf] else blocks
  }

  /** `m` is consistent with the reference contents `blocks`. */
  predicate Tracks(m: Machine, blocks: seq<Block>) {
    && WellFormed(m.disk)
    && Recovered(m.disk) == blocks
    && (m.up ==> Idle(m.disk) && m.disk.blocks == blocks)
  }

  lemma StepTracks(m: Machine, blocks: seq<Block>, e: Event)
    requires Tracks(m, blocks) && Allowed(m, e)
    ensures Tracks(Step(m, e), Reference(blocks, e))
  {
    match e {
      case Write(b, buf, n) =>
        if Writable(b) {
          var k := Min(n, WRITE_STORES);
          RunWrite(m.disk, b, buf, k);
          WriteAtomicAt(m.disk, b, buf, k);
          if k == WRITE_STORES {
            WriteCompletes(m.disk, b, buf);
          }
        }
      case Recover(n) =>
        RecoveryRestartable(m.disk, Min(n, RecoverStores(m.disk)));
    }
  }

  function {:tailrecursion false} ReferenceAfter(blocks: seq<Block>, events: seq<Event>): seq<Block>
    decreases |events|
  {
    if events == [] then blocks else ReferenceAfter(Reference(blocks, events[0]), events[1..])
  }

  /** The machine can go from `m` to `m'` by `events`, all of them allowed. */
  ghost predicate IsRun(m: Machine, events: seq<Event>, m': Machine)
    decreases |events|
  {
    if events == [] then m' == m
    else WellFormed(m.disk) && Allowed(m, events[0]) && IsRun(Step(m, events[0]), events[1..], m')
  }

  /**
    Crash atomicity over whole runs: after any sequence of writes, crashes at any store and
    recoveries interrupted at any store, every completed recovery leaves each block as if
    exactly the committed writes had been applied in order.
   */
  lemma {:induction false} CrashAtomicity(m: Machine, blocks: seq<Block>, events: seq<Event>, m': Machine)
    requires Tracks(m, blocks) && IsRun(m, events, m')
    ensures Tracks(m', ReferenceAfter(blocks, events))
    decreases |events|
  {
    if events != [] {
      StepTracks(m, blocks, events[0]);
      CrashAtomicity(Step(m, events[0]), Reference(blocks, events[0]), events[1..], m');
    }
  }

  // ---------------------------------------------------------------- where atomicity fails

  /**
    A write of block `t` cut off before its data, a recovery cut off while it clears, another, and a
    second write cut off.
   */
  function BadEvents(t: nat, buf: Block): seq<Event> {
    [Write(t, buf, HEADER_DONE), Recover(BLOCK_SIZE + 2), Recover(0), Write(t, buf, BLOCK_SIZE + 1)]
  }

  function After(m: Machine, events: seq<Event>): Machine
    requires WellFormed(m.disk)
    decreases |events|
  {
    if events == [] then m
    else
      var next := Step(m, events[0]);
      if WellFormed(next.disk) then After(next, events[1..]) else next
  }

  lemma CutWrite(d: Disk, t: nat, buf: Block, k: nat)
    requires WellFormed(d) && Writable(t) && (k == HEADER_DONE || k == BLOCK_SIZE + 1)
    ensures Step(Machine(d, true), Write(t, buf, k)) == Machine(
              Disk(d.blocks,
                   if k == HEADER_DONE then Header(JOURNAL_MAGIC, t, Checksum(d.blocks[t]), 0)
                       else d.header.(magic := JOURNAL_MAGIC),
                   d.blocks[t]), false)
  {
    RunWrite(d, t, buf, k);
    MixEnds(buf, d.blocks[t]);
    MixEnds(d.blocks[t], d.image);
    assert d.blocks[t := d.blocks[t]] == d.blocks;
  }

  lemma CutRecovery(d: Disk, t: nat)
    requires WellFormed(d) && Writable(t) && d.header == Header(JOURNAL_MAGIC, t, Checksum(d.image), 0)
    requires d.image == d.blocks[t]
    ensures Step(Machine(d, false), Recover(BLOCK_SIZE + 2))
              == Machine(d.(header := Header(0, 0, Checksum(d.image), 0)), false)
  {
    RunRecovery(d, BLOCK_SIZE + 2);
    MixEnds(d.image, d.blocks[t]);
    assert d.blocks[t := d.image] == d.blocks;
  }

  /**
    The journal's promise fails on these events, from a cleared header and for any block `t` that
    differs from block 0: no write was committed, yet the next recovery puts the contents of
    block `t` into block 0.
   */
  lemma LeftOverHeaderDestroys(d: Disk, t: nat, buf: Block)
    requires WellFormed(d) && d.header == CLEARED && Writable(t) && d.blocks[t] != d.blocks[0]
    ensures var m := After(Machine(d, true), BadEvents(t, buf));
            && WellFormed(m.disk) && ReferenceAfter(d.blocks, BadEvents(t, buf)) == d.blocks
            && Recovered(m.disk) == d.blocks[0 := d.blocks[t]] != d.blocks
  {
    var events, sum := BadEvents(t, buf), Checksum(d.blocks[t]);
    var d1 := Disk(d.blocks, Header(JOURNAL_MAGIC, t, sum, 0), d.blocks[t]);
    var d2 := d1.(header := Header(0, 0, sum, 0));
    CutWrite(d, t, buf, HEADER_DONE);
    CutRecovery(d1, t);
    RunRecovery(d2, 0);
    CutWrite(d2, t, buf, BLOCK_SIZE + 1);
    assert events[1..][1..] == events[2..] && events[2..][1..] == events[3..] && events[3..][1..] == [];
    assert After(Machine(d2, true), events[3..]) == Step(Machine(d2, true), events[3]);
    assert After(Machine(d2, false), events[2..]) == After(Machine(d2, true), events[3..]);
    assert After(Machine(d1, false), events[1..]) == After(Machine(d2, false), events[2..]);
    ReferenceUncommitted(d.blocks, events);
  }

  lemma {:induction false} ReferenceUncommitted(blocks: seq<Block>, events: seq<Event>)
    requires forall k | 0 <= k < |events| && events[k].Write? :: events[k].stores <= COMMIT
    ensures ReferenceAfter(blocks, events) == blocks
    decreases |events|
  {
    if events != [] {
      ReferenceUncommitted(blocks, events[1..]);
    }
  }

  // ---------------------------------------------------------------- recovery that clears in one step

  /** The header words left behind when recovery's final clear is never interrupted. */
  predicate Settled(h: Header) {
    h.magic == JOURNAL_MAGIC || h.committed != 0 || (h.target == 0 && h.checksum == 0)
  }

  /**
    Recovery's final clear is one step, and no before-image hashes to 0 unless the target
    is block 0.
   */
  predicate Ordinary(m: Machine, e: Event)
    requires WellFormed(m.disk)
  {
    match e
    case Write(b, _, _) => m.up && (Writable(b) ==> b == 0 || Checksum(m.disk.blocks[b]) != 0)
    case Recover(n) => n + 4 <= RecoverStores(m.disk) || n >= RecoverStores(m.disk)
  }

  lemma OrdinaryIsAllowed(m: Machine, blocks: seq<Block>, e: Event)
    requires Tracks(m, blocks) && Settled(m.disk.header) && Ordinary(m, e)
    ensures Allowed(m, e) && Settled(Step(m, e).disk.header)
  {
    match e {
      case Write(b, buf, n) =>
        if Writable(b) {
          RunWrite(m.disk, b, buf, Min(n, WRITE_STORES));
        }
      case Recover(n) =>
        RunRecovery(m.disk, Min(n, RecoverStores(m.disk)));
    }
  }

  ghost predicate IsOrdinaryRun(m: Machine, events: seq<Event>)
    decreases |events|
  {
    events != [] ==> WellFormed(m.disk) && Ordinary(m, events[0]) && IsOrdinaryRun(Step(m, events[0]), events[1..])
  }

  /** Ordinary runs from a settled header are runs of the kind CrashAtomicity covers. */
  lemma {:induction false} OrdinaryRunAtomic(m: Machine, blocks: seq<Block>, events: seq<Event>) returns (m': Machine)
    requires Tracks(m, blocks) && Settled(m.disk.header) && IsOrdinaryRun(m, events)
    ensures IsRun(m, events, m')
    ensures Tracks(m', ReferenceAfter(blocks, events))
    decreases |events|
  {
    if events == [] {
      m' := m;
    } else {
      OrdinaryIsAllowed(m, blocks, events[0]);
      StepTracks(m, blocks, events[0]);
      m' := OrdinaryRunAtomic(Step(m, events[0]), Reference(blocks, events[0]), events[1..]);
    }
  }

  /** A zeroed device, as after power-on. */
  function ZeroMachine(): Machine {
    var zero: Block := seq(BLOCK_SIZE, _ => 0 as Byte);
    Machine(Disk(seq(JOURNAL_BLOCK, _ => zero), CLEARED, zero), true)
  }

  /** Every run from a zeroed device, under the hypotheses on the header. */
  lemma EveryRun(events: seq<Event>, m: Machine)
    requires IsRun(ZeroMachine(), events, m)
    ensures Tracks(m, ReferenceAfter(ZeroMachine().disk.blocks, events))
  {
    CrashAtomicity(ZeroMachine(), ZeroMachine().disk.blocks, events, m);
  }

  /** Every ordinary run from a zeroed device. */
  lemma EveryOrdinaryRun(events: seq<Event>) returns (m: Machine)
    requires IsOrdinaryRun(ZeroMachine(), events)
    ensures IsRun(ZeroMachine(), events, m) && Tracks(m, ReferenceAfter(ZeroMachine().disk.blocks, events))
  {
    m := OrdinaryRunAtomic(ZeroMachine(), ZeroMachine().disk.blocks, events);
  }

  // ---------------------------------------------------------------- the driver

  /** The driver over real buffers; `log` records every store it makes, in order. */
  class Device {
    const data: array2<Byte>
    const image: array<Byte>
    var magic: nat
    var target: nat
    var checksum: nat
    var committed: nat
    ghost var log: seq<Store>

    ghost predicate Valid()
      reads this
    {
      && data.Length0 == JOURNAL_BLOCK && data.Length1 == BLOCK_SIZE && image.Length == BLOCK_SIZE
      && Writable(target)
    }

    ghost function Row(b: nat): Block
      reads data
      requires b < data.Length0 && data.Length1 == BLOCK_SIZE
    {
      seq(BLOCK_SIZE, i requires 0 <= i < BLOCK_SIZE reads data => data[b, i])
    }

    ghost function View(): (d: Disk)
      reads this, data, image
      requires Valid()
      ensures WellFormed(d)
    {
      Disk(seq(JOURNAL_BLOCK, b requires 0 <= b < JOURNAL_BLOCK reads this, data => Row(b)),
           Header(magic, target, checksum, committed), image[..])
    }

    /** A zeroed disk, as it lies in BSS at boot. */
    constructor ()
      ensures Valid() && fresh(data) && fresh(image) && log == []
      ensures Idle(View()) && View().header == CLEARED
    {
      data := new Byte[JOURNAL_BLOCK, BLOCK_SIZE]((_, _) => 0);
      image := new Byte[BLOCK_SIZE](_ => 0);
      magic, target, checksum, committed := 0, 0, 0, 0;
      log := [];
    }

    method PutData(b: nat, i: nat, v: Byte)
      requires Valid() && b < JOURNAL_BLOCK && i < BLOCK_SIZE
      modifies data, this`log
      ensures Valid() && View() == Apply(old(View()), DataByte(b, i, v))
      ensures log == old(log) + [DataByte(b, i, v)]
    {
      data[b, i] := v;
      log := log + [DataByte(b, i, v)];
      assert Row(b) == old(Row(b))[i := v];
      forall c: nat | c < JOURNAL_BLOCK && c != b
        ensures Row(c) == old(Row(c))
      {
      }
      assert View().blocks == old(View()).blocks[b := old(Row(b))[i := v]];
    }

    method PutImage(i: nat, v: Byte)
      requires Valid() && i < BLOCK_SIZE
      modifies image, this`log
      ensures Valid() && View() == Apply(old(View()), ImageByte(i, v))
      ensures log == old(log) + [ImageByte(i, v)]
    {
      image[i] := v;
      log := log + [ImageByte(i, v)];
      assert View().blocks == old(View()).blocks;
    }

    method PutWord(s: Store)
      requires Valid() && !s.ImageByte? && !s.DataByte? && (s.SetTarget? ==> Writable(s.word))
      modifies this
      ensures Valid() && View() == Apply(old(View()), s)
      ensures log == old(log) + [s]
    {
      match s {
        case SetMagic(w) => magic := w;
        case SetTarget(w) => target := w;
        case SetChecksum(w) => checksum := w;
        case SetCommitted(w) => committed := w;
      }
      log := log + [s];
      assert View().blocks == old(View()).blocks;
    }

    method JournalClear()
      requires Valid()
      modifies this
      ensures Valid() && View() == old(View()).(header := CLEARED)
      ensures log == old(log) + seq(4, k requires 0 <= k < 4 => ClearStore(k))
    {
      PutWord(SetMagic(0));
      PutWord(SetTarget(0));
      PutWord(SetChecksum(0));
      PutWord(SetCommitted(0));
    }

    method ReadBlock(block: nat) returns (buf: seq<Byte>)
      requires Valid()
      ensures block < JOURNAL_BLOCK ==> buf == View().blocks[block]
      ensures block == JOURNAL_DATA_BLOCK ==> buf == View().image
    {
      buf := [];
      if block < JOURNAL_BLOCK {
        for i := 0 to BLOCK_SIZE
          invariant buf == View().blocks[block][..i]
        {
          buf := buf + [data[block, i]];
        }
      } else if block == JOURNAL_DATA_BLOCK {
        buf := image[..];
      }
    }

    /** Stores `WriteStore(d, block, buf, k)` for the next `k` in turn. */
    ghost predicate AtWrite(d: Disk, block: nat, buf: Block, k: nat, start: seq<Store>)
      reads this, data, image
      requires Valid() && block < |d.blocks| && k <= WRITE_STORES
    {
      View() == DuringWrite(d, block, buf, k) && log == start + WriteProgram(d, block, buf, k)
    }

    /** Copies the target into the before-image block. */
    method CopyImage(ghost d: Disk, block: nat, ghost buf: Block, ghost start: seq<Store>)
      requires Valid() && WellFormed(d) && Writable(block) && AtWrite(d, block, buf, 0, start)
      modifies image, this`log
      ensures Valid() && AtWrite(d, block, buf, BLOCK_SIZE, start)
    {
      MixEnds(buf, d.blocks[block]);
      for i := 0 to BLOCK_SIZE
        invariant Valid() && AtWrite(d, block, buf, i, start)
      {
        DuringWriteStep(d, block, buf, i);
        assert Row(block)[i] == View().blocks[block][i];
        PutImage(i, data[block, i]);
        WriteProgramStep(d, block, buf, i);
      }
    }

    method PutHeader(ghost d: Disk, block: nat, ghost buf: Block, ghost start: seq<Store>)
      requires Valid() && WellFormed(d) && Writable(block) && AtWrite(d, block, buf, BLOCK_SIZE, start)
      modifies this
      ensures Valid() && AtWrite(d, block, buf, HEADER_DONE, start)
    {
      MixEnds(d.blocks[block], d.image);
      PutWord(SetMagic(JOURNAL_MAGIC));
      WriteProgramStep(d, block, buf, BLOCK_SIZE);
      PutWord(SetTarget(block));
      WriteProgramStep(d, block, buf, BLOCK_SIZE + 1);
      var sum := Checksum32(image, BLOCK_SIZE);
      assert image[..BLOCK_SIZE] == image[..];
      PutWord(SetChecksum(sum));
      WriteProgramStep(d, block, buf, BLOCK_SIZE + 2);
      PutWord(SetCommitted(0));
      WriteProgramStep(d, block, buf, BLOCK_SIZE + 3);
    }

    /** Overwrites the target byte by byte. */
    method CopyTarget(ghost d: Disk, block: nat, buf: Block, ghost start: seq<Store>)
      requires Valid() && WellFormed(d) && Writable(block) && AtWrite(d, block, buf, HEADER_DONE, start)
      modifies data, this`log
      ensures Valid() && AtWrite(d, block, buf, COMMIT, start)
    {
      for i := 0 to BLOCK_SIZE
        invariant Valid() && AtWrite(d, block, buf, HEADER_DONE + i, start)
      {
        DuringWriteStep(d, block, buf, HEADER_DONE + i);
        PutData(block, i, buf[i]);
        WriteProgramStep(d, block, buf, HEADER_DONE + i);
      }
    }

    /** Marks the record committed and clears it. */
    method Commit(ghost d: Disk, block: nat, ghost buf: Block, ghost start: seq<Store>)
      requires Valid() && WellFormed(d) && Writable(block) && AtWrite(d, block, buf, COMMIT, start)
      modifies this
      ensures Valid() && AtWrite(d, block, buf, WRITE_STORES, start)
    {
      PutWord(SetCommitted(1));
      WriteProgramStep(d, block, buf, COMMIT);
      JournalClear();
      assert WriteProgram(d, block, buf, WRITE_STORES)
          == WriteProgram(d, block, buf, COMMIT + 1) + seq(4, k requires 0 <= k < 4 => ClearStore(k));
    }

    /** The stores made are exactly the modelled write program, in order. */
    method WriteBlock(block: nat, buf: Block) returns (rc: int)
      requires Valid()
      modifies this, data, image
      ensures Valid()
      ensures rc == if block < JOURNAL_BLOCK then 0 else -1
      ensures rc == 0 ==> View().blocks == old(View()).blocks[block := buf] && View().header == CLEARED
      ensures !Writable(block) ==> View() == old(View()) && log == old(log)
      ensures Writable(block) ==>
        && log == old(log) + WriteProgram(old(View()), block, buf, WRITE_STORES)
        && View() == Run(old(View()), WriteProgram(old(View()), block, buf, WRITE_STORES))
    {
      if !Writable(block) {
        return -1;
      }
      ghost var d := View();
      RunWrite(d, block, buf, 0);
      CopyImage(d, block, buf, log);
      PutHeader(d, block, buf, old(log));
      CopyTarget(d, block, buf, old(log));
      Commit(d, block, buf, old(log));
      RunWrite(d, block, buf, WRITE_STORES);
      MixEnds(buf, d.blocks[block]);
      return 0;
    }

    /** Copies the before-image over the target. */
    method Undo(ghost d: Disk, ghost start: seq<Store>)
      requires Valid() && Undoes(d) && View() == d && log == start
      modifies data, this`log
      ensures Valid() && View() == DuringRecovery(d, BLOCK_SIZE)
      ensures log == start + RecoverProgram(d, BLOCK_SIZE)
    {
      RunRecovery(d, 0);
      for i := 0 to BLOCK_SIZE
        invariant Valid() && View() == DuringRecovery(d, i)
        invariant log == start + RecoverProgram(d, i)
      {
        DuringRecoveryStep(d, i);
        PutData(target, i, image[i]);
        assert RecoverProgram(d, i + 1) == RecoverProgram(d, i) + [RecoverStore(d, i)];
      }
    }

    /** The stores made are exactly the modelled recovery program, in order. */
    method Recover()
      requires Valid()
      modifies this, data
      ensures Valid()
      ensures log == old(log) + RecoverProgram(old(View()), RecoverStores(old(View())))
      ensures View() == Run(old(View()), RecoverProgram(old(View()), RecoverStores(old(View()))))
    {
      ghost var d := View();
      RunRecovery(d, RecoverStores(d));
      if magic != JOURNAL_MAGIC || !Writable(target) {
        return;
      }
      var sum := Checksum32(image, BLOCK_SIZE);
      assert image[..BLOCK_SIZE] == image[..];
      if sum != checksum {
        JournalClear();
        return;
      }
      if committed == 0 {
        Undo(d, log);
        JournalClear();
        assert RecoverProgram(d, BLOCK_SIZE + 4)
            == RecoverProgram(d, BLOCK_SIZE) + seq(4, k requires 0 <= k < 4 => ClearStore(k));
        return;
      }
      JournalClear();
    }
  }
}
