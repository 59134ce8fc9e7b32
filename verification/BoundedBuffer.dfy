/**
  The bounded-buffer demonstration: one producer and one consumer over three semaphores.
  Every statement and every masked region is one step, and the two threads interleave freely.
 */
module BoundedBuffer {
  import opened Semaphores

  const TEST_ITEMS: nat := 20
  const BUFFER_SIZE: nat := 5

  const PRODUCER: Pid := 1
  const CONSUMER: Pid := 2

  /** Running; blocked in a semaphore queue; or woken and about to return from sem_wait. */
  datatype Status = Running | Blocked | Woken

  datatype ProducerAt =
    | TakeEmpty | PLock | Put | AdvanceIn | PUnlock | GiveFull | NextItem | PDone

  datatype ConsumerAt =
    | Test | TakeFull | CLock | Get | AdvanceOut | CUnlock | GiveEmpty | Check | CDone

  datatype Producer = Producer(at: ProducerAt, status: Status, item: nat)

  datatype Consumer = Consumer(at: ConsumerAt, status: Status, consumed: nat)

  /** Control: both threads and the three semaphores. */
  datatype Control = Control(empty: Sem, full: Sem, mutex: Sem, p: Producer, c: Consumer)

  /** The shared buffer and the consumer's variables; `received` records what it took out. */
  datatype Data = Data(
    buffer: seq<int>, inPos: nat, outPos: nat, value: int, expected: nat, error: bool, received: seq<int>)

  datatype State = State(k: Control, d: Data)

  const START: State := State(
    Control(Init(BUFFER_SIZE), Init(0), Init(1), Producer(TakeEmpty, Running, 1), Consumer(Test, Running, 0)),
    Data([0, 0, 0, 0, 0], 0, 0, 0, 1, false, []))

  // ---------------------------------------------------------------- steps

  function ProducerWaits(p: Producer, sem: Sem, next: ProducerAt): (Sem, Producer) {
    if p.status == Woken then (sem, p.(status := Running, at := next))
    else
      var (q, o) := Wait(sem, PRODUCER);
      (q, if o == Granted then p.(at := next) else if o == Blocks then p.(status := Blocked) else p)
  }

  function ConsumerWaits(c: Consumer, sem: Sem, next: ConsumerAt): (Sem, Consumer) {
    if c.status == Woken then (sem, c.(status := Running, at := next))
    else
      var (q, o) := Wait(sem, CONSUMER);
      (q, if o == Granted then c.(at := next) else if o == Blocks then c.(status := Blocked) else c)
  }

  /** scheduler_wake on the threads popped by a signal. */
  function WakeProducer(p: Producer, woken: seq<Pid>): Producer {
    if PRODUCER in woken then p.(status := Woken) else p
  }

  function WakeConsumer(c: Consumer, woken: seq<Pid>): Consumer {
    if CONSUMER in woken then c.(status := Woken) else c
  }

  function ProducerControl(k: Control): Control {
    match k.p.at
    case TakeEmpty => var (q, p) := ProducerWaits(k.p, k.empty, PLock); k.(empty := q, p := p)
    case PLock => var (q, p) := ProducerWaits(k.p, k.mutex, Put); k.(mutex := q, p := p)
    case Put => k.(p := k.p.(at := AdvanceIn))
    case AdvanceIn => k.(p := k.p.(at := PUnlock))
    case PUnlock => var (q, w) := Signal(k.mutex); k.(mutex := q, p := k.p.(at := GiveFull), c := WakeConsumer(k.c, w))
    case GiveFull => var (q, w) := Signal(k.full); k.(full := q, p := k.p.(at := NextItem), c := WakeConsumer(k.c, w))
    case NextItem => k.(p := Producer(if k.p.item + 1 <= TEST_ITEMS then TakeEmpty
        else PDone, k.p.status, k.p.item + 1))
    case PDone => k
  }

  function ConsumerControl(k: Control): Control {
    match k.c.at
    case Test => k.(c := k.c.(at := if k.c.consumed < TEST_ITEMS then TakeFull else CDone))
    case TakeFull => var (q, c) := ConsumerWaits(k.c, k.full, CLock); k.(full := q, c := c)
    case CLock => var (q, c) := ConsumerWaits(k.c, k.mutex, Get); k.(mutex := q, c := c)
    case Get => k.(c := k.c.(at := AdvanceOut))
    case AdvanceOut => k.(c := k.c.(at := CUnlock))
    case CUnlock => var (q, w) := Signal(k.mutex); k.(mutex := q, c := k.c.(at := GiveEmpty), p := WakeProducer(k.p, w))
    case GiveEmpty => var (q, w) := Signal(k.empty); k.(empty := q, c := k.c.(at := Check), p := WakeProducer(k.p, w))
    case Check => k.(c := Consumer(Test, k.c.status, k.c.consumed + 1))
    case CDone => k
  }

  predicate Typed(d: Data) {
    |d.buffer| == BUFFER_SIZE && d.inPos < BUFFER_SIZE && d.outPos < BUFFER_SIZE
  }

  function ProducerData(p: Producer, d: Data): Data
    requires Typed(d)
  {
    match p.at
    case Put => d.(buffer := d.buffer[d.inPos := p.item])
    case AdvanceIn => d.(inPos := (d.inPos + 1) % BUFFER_SIZE)
    case _ => d
  }

  function ConsumerData(c: Consumer, d: Data): Data
    requires Typed(d)
  {
    match c.at
    case Get => d.(value := d.buffer[d.outPos])
    case AdvanceOut => d.(outPos := (d.outPos + 1) % BUFFER_SIZE)
    case Check => d.(error := d.error
        || d.value != d.expected, received := d.received + [d.value], expected := d.expected + 1)
    case _ => d
  }

  predicate ProducerEnabled(k: Control) { k.p.status != Blocked && k.p.at != PDone }

  predicate ConsumerEnabled(k: Control) { k.c.status != Blocked && k.c.at != CDone }

  // ---------------------------------------------------------------- control invariant

  function One(b: bool): nat { if b then 1 else 0 }

  /** The producer holds an empty slot it has not yet handed on as a full one. */
  function ProducerSlot(p: Producer): nat {
    match p.at
    case TakeEmpty => One(p.status == Woken)
    case NextItem => 0
    case PDone => 0
    case _ => 1
  }

  /** The producer is granted the buffer lock. */
  function ProducerInside(p: Producer): nat {
    match p.at
    case PLock => One(p.status == Woken)
    case Put => 1
    case AdvanceIn => 1
    case PUnlock => 1
    case _ => 0
  }

  /** The consumer has claimed an item that it has not yet counted as consumed. */
  function ConsumerItem(c: Consumer): nat {
    match c.at
    case Test => 0
    case TakeFull => One(c.status == Woken)
    case CDone => 0
    case _ => 1
  }

  /** The consumer holds a full slot it has not yet handed back as an empty one. */
  function ConsumerSlot(c: Consumer): nat {
    if c.at == Check then 0 else ConsumerItem(c)
  }

  function ConsumerInside(c: Consumer): nat {
    match c.at
    case CLock => One(c.status == Woken)
    case Get => 1
    case AdvanceOut => 1
    case CUnlock => 1
    case _ => 0
  }

  predicate BlockedAt(waiting: bool, status: Status) { waiting && status == Blocked }

  predicate Queues(k: Control) {
    && k.empty.waiters == (if BlockedAt(k.p.at == TakeEmpty, k.p.status) then [PRODUCER] else [])
    && k.full.waiters == (if BlockedAt(k.c.at == TakeFull, k.c.status) then [CONSUMER] else [])
    && k.mutex.waiters == (if BlockedAt(k.p.at == PLock, k.p.status) then [PRODUCER]
                           else if BlockedAt(k.c.at == CLock, k.c.status) then [CONSUMER] else [])
    && (k.p.status != Running ==> k.p.at == TakeEmpty || k.p.at == PLock)
    && (k.c.status != Running ==> k.c.at == TakeFull || k.c.at == CLock)
    && (k.empty.waiters != [] ==> k.empty.count == 0)
    && (k.full.waiters != [] ==> k.full.count == 0)
    && (BlockedAt(k.p.at == PLock, k.p.status) || BlockedAt(k.c.at == CLock, k.c.status) ==> k.mutex.count == 0)
  }

  /** Slots, the lock and announced items are conserved. */
  predicate Counts(k: Control) { SlotCount(k) && LockCount(k) && ItemCount(k) }

  predicate SlotCount(k: Control) {
    k.empty.count + k.full.count + ProducerSlot(k.p) + ConsumerSlot(k.c) == BUFFER_SIZE
  }

  predicate LockCount(k: Control) { k.mutex.count + ProducerInside(k.p) + ConsumerInside(k.c) == 1 }

  predicate ItemCount(k: Control) {
    k.full.count == k.p.item - 1 + One(k.p.at == NextItem) - k.c.consumed - ConsumerItem(k.c)
  }

  predicate Ranges(k: Control) {
    && 1 <= k.p.item <= TEST_ITEMS + 1 && (k.p.item == TEST_ITEMS + 1 <==> k.p.at == PDone)
    && k.c.consumed <= TEST_ITEMS
    && (k.c.at == CDone ==> k.c.consumed == TEST_ITEMS)
    && (k.c.at != Test && k.c.at != CDone ==> k.c.consumed < TEST_ITEMS)
  }

  predicate ControlInv(k: Control) { Queues(k) && Counts(k) && Ranges(k) }

  lemma ProducerKeepsQueues(k: Control)
    requires ControlInv(k) && ProducerEnabled(k)
    ensures Queues(ProducerControl(k))
  {
    assert Enqueue([], PRODUCER) == [PRODUCER];
  }

  lemma ProducerKeepsCounts(k: Control)
    requires ControlInv(k) && ProducerEnabled(k)
    ensures Counts(ProducerControl(k))
  {
  }

  lemma ProducerAdvances(k: Control)
    requires ControlInv(k) && ProducerEnabled(k)
    ensures Ranges(ProducerControl(k)) && Progress(ProducerControl(k)) > Progress(k)
  {
  }

  lemma ConsumerKeepsQueues(k: Control)
    requires ControlInv(k) && ConsumerEnabled(k)
    ensures Queues(ConsumerControl(k))
  {
    assert Enqueue([], CONSUMER) == [CONSUMER];
  }

  lemma ConsumerKeepsCounts(k: Control)
    requires ControlInv(k) && ConsumerEnabled(k)
    ensures Counts(ConsumerControl(k))
  {
    ConsumerKeepsSlots(k);
    ConsumerKeepsLock(k);
    ConsumerKeepsItems(k);
  }

  lemma ConsumerKeepsSlots(k: Control)
    requires Queues(k) && SlotCount(k) && ConsumerEnabled(k)
    ensures SlotCount(ConsumerControl(k))
  {
  }

  lemma ConsumerKeepsLock(k: Control)
    requires Queues(k) && LockCount(k) && ConsumerEnabled(k)
    ensures LockCount(ConsumerControl(k))
  {
  }

  lemma ConsumerKeepsItems(k: Control)
    requires Queues(k) && ItemCount(k) && ConsumerEnabled(k)
    ensures ItemCount(ConsumerControl(k))
  {
  }

  lemma ConsumerAdvances(k: Control)
    requires ControlInv(k) && ConsumerEnabled(k)
    ensures Ranges(ConsumerControl(k)) && Progress(ConsumerControl(k)) > Progress(k)
  {
  }

  /** Until both threads have finished, one of them can take a step. */
  lemma NeverStuck(k: Control)
    requires ControlInv(k) && !(k.p.at == PDone && k.c.at == CDone)
    ensures ProducerEnabled(k) || ConsumerEnabled(k)
  {
  }

  // ---------------------------------------------------------------- progress

  function Stage(s: Status): nat {
    match s case Running => 0 case Blocked => 1 case Woken => 2
  }

  function ProducerIndex(a: ProducerAt): nat {
    match a
    case TakeEmpty => 0 case PLock => 1 case Put => 2 case AdvanceIn => 3
    case PUnlock => 4 case GiveFull => 5 case NextItem => 6 case PDone => 0
  }

  function ConsumerIndex(a: ConsumerAt): nat {
    match a
    case Test => 0 case TakeFull => 1 case CLock => 2 case Get => 3 case AdvanceOut => 4
    case CUnlock => 5 case GiveEmpty => 6 case Check => 7 case CDone => 1
  }

  /** Grows with every step of either thread. */
  function Progress(k: Control): int {
    21 * k.p.item + 3 * ProducerIndex(k.p.at) + Stage(k.p.status) +
    24 * k.c.consumed + 3 * ConsumerIndex(k.c.at) + Stage(k.c.status)
  }

  const LONGEST: nat := 21 * (TEST_ITEMS + 1) + 24 * TEST_ITEMS + 3

  lemma ProgressBounded(k: Control)
    requires ControlInv(k)
    ensures 21 <= Progress(k) <= LONGEST
  {
  }

  // ---------------------------------------------------------------- data invariant

  /** Items written into the buffer, and items whose slot the producer has moved past. */
  function Stored(p: Producer): int { Inserted(p) + One(p.at == AdvanceIn) }

  function Inserted(p: Producer): int { p.item - 1 + One(p.at == PUnlock || p.at == GiveFull || p.at == NextItem) }

  /** Items whose slot the consumer has moved past. */
  function Removed(c: Consumer): int { c.consumed + One(c.at == CUnlock || c.at == GiveEmpty || c.at == Check) }

  /** Items `lo + 1` to `hi` lie in their ring slots. */
  ghost predicate Window(buffer: seq<int>, lo: int, hi: int)
    requires |buffer| == BUFFER_SIZE
  {
    forall j: nat | lo <= j < hi :: buffer[j % BUFFER_SIZE] == j + 1
  }

  /** Exactly the items 1, 2, 3, ... have been received so far, and no error was flagged. */
  ghost predicate InOrder(consumed: nat, d: Data) {
    && !d.error && d.expected == consumed + 1
    && |d.received| == consumed && forall j | 0 <= j < |d.received| :: d.received[j] == j + 1
  }

  ghost predicate DataInv(p: Producer, c: Consumer, d: Data) {
    && Typed(d) && 1 <= p.item
    && d.inPos == Inserted(p) % BUFFER_SIZE && d.outPos == Removed(c) % BUFFER_SIZE
    && Window(d.buffer, Removed(c), Stored(p))
    && (c.at == AdvanceOut || c.at == CUnlock || c.at == GiveEmpty || c.at == Check ==> d.value == c.consumed + 1)
    && InOrder(c.consumed, d)
  }

  /** What control guarantees about the buffer: room to put, something to get. */
  lemma Occupancy(k: Control)
    requires ControlInv(k)
    ensures 0 <= Inserted(k.p) - Removed(k.c) <= BUFFER_SIZE
    ensures k.p.at == Put ==> Inserted(k.p) - Removed(k.c) < BUFFER_SIZE
    ensures k.c.at == Get ==> Removed(k.c) < Inserted(k.p)
  {
  }

  lemma PutKeepsWindow(buffer: seq<int>, lo: nat, hi: nat)
    requires |buffer| == BUFFER_SIZE && Window(buffer, lo, hi) && hi - lo < BUFFER_SIZE
    ensures Window(buffer[hi % BUFFER_SIZE := hi + 1], lo, hi + 1)
  {
  }

  /** Control changes of a thread that does not move the data counters. */
  lemma ProducerKeepsData(p: Producer, p': Producer, c: Consumer, d: Data)
    requires DataInv(p, c, d) && (p.at == Put ==> Inserted(p) - Removed(c) < BUFFER_SIZE)
    requires 1 <= p'.item && Inserted(p') == Inserted(p) + One(p.at == AdvanceIn)
    requires Stored(p') == Stored(p) + One(p.at == Put)
    ensures DataInv(p', c, ProducerData(p, d))
  {
    ProducerWindow(p, p', c, d);
    ProducerPosition(p, p', d);
  }

  lemma ProducerWindow(p: Producer, p': Producer, c: Consumer, d: Data)
    requires Typed(d) && Window(d.buffer, Removed(c), Stored(p)) && d.inPos == Inserted(p) % BUFFER_SIZE
    requires 1 <= p.item && (p.at == Put ==> Inserted(p) - Removed(c) < BUFFER_SIZE)
    requires Stored(p') == Stored(p) + One(p.at == Put)
    ensures Window(ProducerData(p, d).buffer, Removed(c), Stored(p'))
  {
    if p.at == Put {
      PutKeepsWindow(d.buffer, Removed(c), Stored(p));
    }
  }

  lemma ProducerPosition(p: Producer, p': Producer, d: Data)
    requires Typed(d) && 1 <= p.item && d.inPos == Inserted(p) % BUFFER_SIZE
    requires Inserted(p') == Inserted(p) + One(p.at == AdvanceIn)
    ensures ProducerData(p, d).inPos == Inserted(p') % BUFFER_SIZE
  {
    if p.at == AdvanceIn {
      NextSlot(Inserted(p));
    }
  }

  lemma NextSlot(n: nat)
    ensures (n % BUFFER_SIZE + 1) % BUFFER_SIZE == (n + 1) % BUFFER_SIZE
  {
  }

  lemma ProducerMoves(k: Control)
    requires ControlInv(k) && ProducerEnabled(k)
    ensures var p' := ProducerControl(k).p; var c' := ProducerControl(k).c;
            && Inserted(p') == Inserted(k.p) + One(k.p.at == AdvanceIn)
            && Stored(p') == Stored(k.p) + One(k.p.at == Put)
            && c'.at == k.c.at && c'.consumed == k.c.consumed
  {
  }

  lemma ConsumerMoves(k: Control)
    requires ControlInv(k) && ConsumerEnabled(k)
    ensures var p' := ConsumerControl(k).p; var c' := ConsumerControl(k).c;
            && p'.at == k.p.at && p'.item == k.p.item
            && Removed(c') == Removed(k.c) + One(k.c.at == AdvanceOut)
            && c'.consumed == k.c.consumed + One(k.c.at == Check)
            && (c'.at == AdvanceOut || c'.at == CUnlock || c'.at == GiveEmpty || c'.at == Check ==>
                  k.c.at == Get || k.c.at == AdvanceOut || k.c.at == CUnlock || k.c.at == GiveEmpty)
  {
  }

  lemma ConsumerKeepsData(p: Producer, c: Consumer, c': Consumer, d: Data)
    requires DataInv(p, c, d) && (c.at == Get ==> Removed(c) < Stored(p))
    requires Removed(c') == Removed(c) + One(c.at == AdvanceOut) && c'.consumed == c.consumed + One(c.at == Check)
    requires c'.at == AdvanceOut || c'.at == CUnlock || c'.at == GiveEmpty || c'.at == Check ==>
               c.at == Get || c.at == AdvanceOut || c.at == CUnlock || c.at == GiveEmpty
    ensures DataInv(p, c', ConsumerData(c, d))
  {
  }

  // ---------------------------------------------------------------- runs

  ghost predicate Inv(s: State) { ControlInv(s.k) && DataInv(s.k.p, s.k.c, s.d) }

  function ProducerStep(s: State): State
    requires Typed(s.d)
  {
    State(ProducerControl(s.k), ProducerData(s.k.p, s.d))
  }

  function ConsumerStep(s: State): State
    requires Typed(s.d)
  {
    State(ConsumerControl(s.k), ConsumerData(s.k.c, s.d))
  }

  lemma ProducerKeepsControl(k: Control)
    requires ControlInv(k) && ProducerEnabled(k)
    ensures ControlInv(ProducerControl(k)) && Progress(ProducerControl(k)) > Progress(k)
  {
    ProducerKeepsQueues(k);
    ProducerKeepsCounts(k);
    ProducerAdvances(k);
  }

  lemma ProducerCarries(k: Control, k': Control, d: Data)
    requires ControlInv(k) && ProducerEnabled(k) && k' == ProducerControl(k) && DataInv(k.p, k.c, d)
    ensures DataInv(k'.p, k'.c, ProducerData(k.p, d))
  {
    ProducerMoves(k);
    Occupancy(k);
    ProducerKeepsData(k.p, k'.p, k.c, d);
  }

  lemma ProducerKeepsInv(s: State)
    requires Inv(s) && ProducerEnabled(s.k)
    ensures Inv(ProducerStep(s)) && Progress(ProducerStep(s).k) > Progress(s.k)
  {
    ProducerKeepsControl(s.k);
    ProducerCarries(s.k, ProducerControl(s.k), s.d);
  }

  lemma ConsumerKeepsControl(k: Control)
    requires ControlInv(k) && ConsumerEnabled(k)
    ensures ControlInv(ConsumerControl(k)) && Progress(ConsumerControl(k)) > Progress(k)
  {
    ConsumerKeepsQueues(k);
    ConsumerKeepsCounts(k);
    ConsumerAdvances(k);
  }

  /** Which item the producer is at, and where, is all that the data know of it. */
  lemma SameProducer(p: Producer, p': Producer, c: Consumer, d: Data)
    requires DataInv(p, c, d) && p'.at == p.at && p'.item == p.item
    ensures DataInv(p', c, d)
  {
  }

  lemma ConsumerCarries(k: Control, d: Data)
    requires ControlInv(k) && ConsumerEnabled(k) && DataInv(k.p, k.c, d)
    ensures DataInv(ConsumerControl(k).p, ConsumerControl(k).c, ConsumerData(k.c, d))
  {
    var p', c' := ConsumerControl(k).p, ConsumerControl(k).c;
    assert DataInv(k.p, c', ConsumerData(k.c, d)) by {
      ConsumerMoves(k);
      Occupancy(k);
      ConsumerKeepsData(k.p, k.c, c', d);
    }
    assert p'.at == k.p.at && p'.item == k.p.item by {
      ConsumerMoves(k);
    }
    SameProducer(k.p, p', c', ConsumerData(k.c, d));
  }

  lemma ConsumerKeepsInv(s: State)
    requires Inv(s) && ConsumerEnabled(s.k)
    ensures Inv(ConsumerStep(s)) && Progress(ConsumerStep(s).k) > Progress(s.k)
  {
    ConsumerKeepsControl(s.k);
    ConsumerCarries(s.k, s.d);
  }

  /** A schedule names the thread that takes each step: true for the producer. */
  ghost predicate IsRun(s: State, schedule: seq<bool>, t: State)
    decreases |schedule|
  {
    if schedule == [] then t == s
    else if schedule[0] then Typed(s.d) && ProducerEnabled(s.k) && IsRun(ProducerStep(s), schedule[1..], t)
    else Typed(s.d) && ConsumerEnabled(s.k) && IsRun(ConsumerStep(s), schedule[1..], t)
  }

  lemma {:induction false} RunKeepsInv(s: State, schedule: seq<bool>, t: State)
    requires Inv(s) && IsRun(s, schedule, t)
    ensures Inv(t) && Progress(t.k) >= Progress(s.k) + |schedule|
    decreases |schedule|
  {
    if schedule != [] {
      if schedule[0] {
        ProducerKeepsInv(s);
        RunKeepsInv(ProducerStep(s), schedule[1..], t);
      } else {
        ConsumerKeepsInv(s);
        RunKeepsInv(ConsumerStep(s), schedule[1..], t);
      }
    }
  }

  /**
    Under every interleaving the items arrive in order and without error, the buffer never
    over- or underflows, no reachable state is stuck before both threads finish, and no run
    is longer than a fixed bound, so every maximal run delivers all the items.
   */
  lemma EveryRun(schedule: seq<bool>, t: State)
    requires IsRun(START, schedule, t)
    ensures InOrder(t.k.c.consumed, t.d)
    ensures 0 <= Inserted(t.k.p) - Removed(t.k.c) <= BUFFER_SIZE
    ensures |schedule| <= LONGEST
    ensures !ProducerEnabled(t.k) && !ConsumerEnabled(t.k) ==>
              t.k.p.at == PDone && t.k.c.at == CDone && |t.d.received| == TEST_ITEMS
  {
    RunKeepsInv(START, schedule, t);
    ProgressBounded(t.k);
    Occupancy(t.k);
    if !(t.k.p.at == PDone && t.k.c.at == CDone) {
      NeverStuck(t.k);
    }
  }
}
