/** The physical frame allocator over a firmware memory map. */
module Pmm {

  const PAGE_SIZE: nat := 4096
  const MAX_MEMORY: nat := 0x0800_0000
  const MAX_FRAMES: nat := 32768
  const MAX_ENTRIES: nat := 128
  const LOW_MEMORY: nat := 0x0010_0000

  /** One memory-map entry; kind 1 is usable memory. */
  datatype Entry = Entry(base: nat, length: nat, kind: nat)

  /** Only the first entries are looked at. */
  function Listed(memory: seq<Entry>): seq<Entry> {
    if |memory| <= MAX_ENTRIES then memory else memory[..MAX_ENTRIES]
  }

  /** base + length fits in 64 bits. */
  predicate NoWrap(e: Entry) { e.base + e.length < 0x1_0000_0000_0000_0000 }

  function AlignUp(v: nat): (r: nat)
    ensures r % PAGE_SIZE == 0 && v <= r < v + PAGE_SIZE
  {
    (v + PAGE_SIZE - 1) / PAGE_SIZE * PAGE_SIZE
  }

  /** Frame `f` lies wholly inside the usable entry `e`, below the supported limit. */
  predicate Inside(e: Entry, f: nat) {
    e.kind == 1 && e.base <= f * PAGE_SIZE && (f + 1) * PAGE_SIZE <= e.base + e.length && f < MAX_FRAMES
  }

  predicate Usable(entries: seq<Entry>, f: nat) {
    exists k | 0 <= k < |entries| :: Inside(entries[k], f)
  }

  /** The frame may be handed out: above low memory and above the kernel image. */
  predicate Above(kernelEnd: nat, f: nat) {
    f * PAGE_SIZE >= LOW_MEMORY && f * PAGE_SIZE >= AlignUp(kernelEnd)
  }

  // ---------------------------------------------------------------- counting

  function CountClear(bits: seq<bool>): nat {
    if bits == [] then 0 else CountClear(bits[..|bits| - 1]) + if bits[|bits| - 1] then 0 else 1
  }

  lemma {:induction false} CountUpdate(bits: seq<bool>, i: nat, b: bool)
    requires i < |bits|
    ensures CountClear(bits[i := b]) == CountClear(bits) - (if bits[i] then 0 else 1) + (if b then 0 else 1)
  {
    var n := |bits| - 1;
    if i == n {
      assert bits[i := b][..n] == bits[..n];
    } else {
      CountUpdate(bits[..n], i, b);
      assert bits[i := b][..n] == bits[..n][i := b];
    }
  }

  /** Setting more bits leaves fewer clear ones. */
  lemma {:induction false} CountMonotone(a: seq<bool>, b: seq<bool>)
    requires |a| == |b| && forall i | 0 <= i < |a| :: a[i] ==> b[i]
    ensures CountClear(b) <= CountClear(a)
  {
    if a != [] {
      CountMonotone(a[..|a| - 1], b[..|b| - 1]);
    }
  }

  lemma {:induction false} CountAllSet(bits: seq<bool>)
    requires forall i | 0 <= i < |bits| :: bits[i]
    ensures CountClear(bits) == 0
  {
    if bits != [] {
      CountAllSet(bits[..|bits| - 1]);
    }
  }

  // ---------------------------------------------------------------- the allocator

  class FrameAllocator {
    const entries: seq<Entry>
    const kernelEnd: nat
    /** One bit per frame: true for used. */
    const bits: array<bool>
    var frameCount: nat
    var total: nat
    var used: nat
    var reservedEnd: nat
    /** Frames handed out and not yet freed. */
    ghost var held: set<nat>
    /** The map as first scanned: false for usable frames. */
    ghost const mapped: seq<bool>

    predicate Good(f: nat) { Usable(entries, f) && Above(kernelEnd, f) }

    ghost predicate Valid()
      reads this, bits
    {
      && bits.Length == |mapped| == MAX_FRAMES && frameCount <= MAX_FRAMES && reservedEnd == AlignUp(kernelEnd)
      && (forall f | 0 <= f < MAX_FRAMES :: mapped[f] <==> !Usable(entries, f))
      && (forall f | 0 <= f < MAX_FRAMES && Usable(entries, f) :: f < frameCount)
      && total == CountClear(mapped) && total - used == CountClear(bits[..])
      && (forall f | 0 <= f < MAX_FRAMES :: !bits[f] <==> Good(f) && f !in held)
      && (forall f | f in held :: 0 <= f < MAX_FRAMES && Good(f))
    }

    /** Free frames, as pmm_free_frames reports them. */
    function FreeFrames(): (n: int)
      reads this, bits
      requires Valid()
      ensures n == CountClear(bits[..])
    {
      total - used
    }

    constructor (memory: seq<Entry>, kernelEnd: nat)
      requires forall k | 0 <= k < |memory| :: NoWrap(memory[k])
      ensures Valid() && fresh(bits) && held == {} && entries == Listed(memory) && this.kernelEnd == kernelEnd
    {
      var scanned := Listed(memory);
      var table := new bool[MAX_FRAMES](_ => true);
      CountAllSet(table[..]);
      var usable, maxEnd := 0, 0;
      for k := 0 to |scanned|
        invariant maxEnd <= MAX_MEMORY
        invariant forall f | 0 <= f < MAX_FRAMES :: !table[f] <==> Usable(scanned[..k], f)
        invariant forall f | 0 <= f < MAX_FRAMES && !table[f] :: (f + 1) * PAGE_SIZE <= maxEnd
        invariant usable == CountClear(table[..])
      {
        var e := scanned[k];
        assert scanned[..k + 1] == scanned[..k] + [e];
        var end := if e.base + e.length > MAX_MEMORY then MAX_MEMORY else e.base + e.length;
        if e.kind == 1 && e.length != 0 && e.base < MAX_MEMORY && end > e.base {
          if end > maxEnd {
            maxEnd := end;
          }
          usable := ClearRange(table, AlignUp(e.base) / PAGE_SIZE, end / PAGE_SIZE, usable);
          assert forall f | 0 <= f < MAX_FRAMES :: Inside(e, f) <==> AlignUp(e.base) / PAGE_SIZE <= f < end / PAGE_SIZE;
        } else {
          assert forall f | 0 <= f < MAX_FRAMES :: !Inside(e, f);
        }
        assert forall f | 0 <= f < MAX_FRAMES :: Usable(scanned[..k + 1], f) <==>
            Usable(scanned[..k], f) || Inside(e, f);
      }
      assert scanned[..|scanned|] == scanned;
      ghost var before := table[..];
      var count := maxEnd / PAGE_SIZE;
      var reserved := ReserveLow(table, count, AlignUp(kernelEnd));
      entries, this.kernelEnd, bits, mapped := scanned, kernelEnd, table, before;
      frameCount, total, used, reservedEnd := count, usable, reserved, AlignUp(kernelEnd);
      held := {};
    }

    /** pmm_alloc_frame: the lowest free frame, or 0 when there is none. */
    method Alloc() returns (addr: nat)
      requires Valid()
      modifies this`used, this`held, bits
      ensures Valid()
      ensures addr == 0 ==> held == old(held) && bits[..] == old(bits[..]) && FreeFrames() == 0
      ensures addr == 0 ==> forall f | 0 <= f < MAX_FRAMES :: bits[f]
      ensures addr != 0 ==>
        && addr % PAGE_SIZE == 0 && addr / PAGE_SIZE < MAX_FRAMES && addr >= LOW_MEMORY && addr >= AlignUp(kernelEnd)
        && Usable(entries, addr / PAGE_SIZE)
        && addr / PAGE_SIZE !in old(held) && held == old(held) + {addr / PAGE_SIZE}
        && bits[..] == old(bits[..])[addr / PAGE_SIZE := true] && used == old(used) + 1
        && forall f | 0 <= f < addr / PAGE_SIZE :: bits[f]
    {
      for i := 0 to frameCount
        invariant forall f | 0 <= f < i :: bits[f]
      {
        if !bits[i] {
          Take(i);
          return i * PAGE_SIZE;
        }
      }
      assert forall f | 0 <= f < MAX_FRAMES :: bits[f];
      CountAllSet(bits[..]);
      return 0;
    }

    /** A free frame is marked and handed out. */
    method Take(i: nat)
      requires Valid() && i < MAX_FRAMES && !bits[i]
      modifies this`used, this`held, bits
      ensures Valid() && used == old(used) + 1 && held == old(held) + {i} && i !in old(held) && Good(i)
      ensures bits[..] == old(bits[..])[i := true]
    {
      CountUpdate(bits[..], i, true);
      bits[i] := true;
      used := used + 1;
      held := held + {i};
      assert bits[..] == old(bits[..])[i := true];
    }

    /** The guards of pmm_free_frame let the address through. */
    predicate Accepted(addr: nat)
      reads this, bits
      requires Valid()
    {
      && addr / PAGE_SIZE < frameCount && addr % PAGE_SIZE == 0 && addr >= reservedEnd && addr >= LOW_MEMORY
      && bits[addr / PAGE_SIZE]
    }

    /**
      pmm_free_frame: an address that the guards let through frees its frame.  The accounts stay
      right exactly when such a frame was held; a hole in the memory map passes the guards too.
     */
    method Free(addr: nat)
      requires Valid()
      modifies this`used, this`held, bits
      ensures bits[..] == if old(Accepted(addr)) then old(bits[..])[addr / PAGE_SIZE := false] else old(bits[..])
      ensures used == if old(Accepted(addr)) && old(used) > 0 then old(used) - 1 else old(used)
      ensures held == if old(Accepted(addr)) then old(held) - {addr / PAGE_SIZE} else old(held)
      ensures Valid() <==> (old(Accepted(addr)) ==> addr / PAGE_SIZE in old(held))
      ensures addr % PAGE_SIZE == 0 && addr / PAGE_SIZE in old(held) ==> old(Accepted(addr)) && old(used) > 0
    {
      var frame := addr / PAGE_SIZE;
      if frame >= frameCount || addr % PAGE_SIZE != 0 {
        return;
      }
      if addr < reservedEnd || addr < LOW_MEMORY {
        return;
      }
      if !bits[frame] {
        return;
      }
      CountUpdate(bits[..], frame, false);
      assert bits[..][frame := false] == old(bits[..])[frame := false];
      bits[frame] := false;
      assert bits[..] == old(bits[..])[frame := false] && !bits[frame];
      if frame in held {
        CountMonotone(mapped, bits[..]);
      }
      if used > 0 {
        used := used - 1;
      }
      held := held - {frame};
    }
  }

  /** Clears the bits of [lo, hi), counting those that were set. */
  method ClearRange(table: array<bool>, lo: nat, hi: nat, start: nat) returns (count: nat)
    requires table.Length == MAX_FRAMES && hi <= MAX_FRAMES && start == CountClear(table[..])
    modifies table
    ensures forall f | 0 <= f < MAX_FRAMES :: table[f] == (old(table[f]) && !(lo <= f < hi))
    ensures count == CountClear(table[..])
  {
    count := start;
    var f := lo;
    while f < hi
      invariant lo <= f && forall g | 0 <= g < MAX_FRAMES :: table[g] == (old(table[g]) && !(lo <= g < f))
      invariant if lo < hi then f <= hi else f == lo
      invariant count == CountClear(table[..])
    {
      if table[f] {
        CountUpdate(table[..], f, false);
        assert table[..][f := false][..] == table[..][f := false];
        ghost var was := table[..];
        table[f] := false;
        assert table[..] == was[f := false];
        count := count + 1;
      }
      f := f + 1;
    }
  }

  /** Reserves the free frames below 1 MiB or below the end of the kernel. */
  method ReserveLow(table: array<bool>, frames: nat, kernelEnd: nat) returns (reserved: nat)
    requires table.Length == MAX_FRAMES && frames <= MAX_FRAMES
    requires forall f | 0 <= f < MAX_FRAMES && !table[f] :: f < frames
    modifies table
    ensures forall f | 0 <= f < MAX_FRAMES ::
              table[f] == (old(table[f]) || f * PAGE_SIZE < kernelEnd || f * PAGE_SIZE < LOW_MEMORY)
    ensures reserved == CountClear(old(table[..])) - CountClear(table[..])
  {
    reserved := 0;
    for i := 0 to frames
      invariant forall f | 0 <= f < i ::
                  table[f] == (old(table[f]) || f * PAGE_SIZE < kernelEnd || f * PAGE_SIZE < LOW_MEMORY)
      invariant forall f | i <= f < MAX_FRAMES :: table[f] == old(table[f])
      invariant reserved == CountClear(old(table[..])) - CountClear(table[..])
    {
      if !table[i] && (i * PAGE_SIZE < kernelEnd || i * PAGE_SIZE < LOW_MEMORY) {
        CountUpdate(table[..], i, true);
        ghost var was := table[..];
        table[i] := true;
        assert table[..] == was[i := true];
        reserved := reserved + 1;
      }
    }
  }
}
