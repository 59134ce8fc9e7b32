/**
  The blocking reader-writer lock.  Each masked region is one atomic step; a thread is named
  by its PCB slot, and slot 0 (the shell) never takes part.
 */
module RwLocks {
  import opened Pigeonhole

  const MAX_WAITERS: nat := 16
  const MAX_PROCESSES: nat := 16

  type Pid = p: nat | 0 < p < MAX_PROCESSES witness 1

  datatype Writer = NoWriter | By(pid: Pid)

  datatype Lock = Lock(readers: nat, writer: Writer, readQ: seq<Pid>, writeQ: seq<Pid>)

  const FREE: Lock := Lock(0, NoWriter, [], [])

  /** The bounded, duplicate-free enqueue. */
  function Add(q: seq<Pid>, p: Pid): seq<Pid> {
    if |q| >= MAX_WAITERS || p in q then q else q + [p]
  }

  // ---------------------------------------------------------------- atomic regions

  function ReadTry(l: Lock, p: Pid): (Lock, bool) {
    if l.writer == NoWriter && l.writeQ == [] then (l.(readers := l.readers + 1), true)
    else (l.(readQ := Add(l.readQ, p)), false)
  }

  function WriteTry(l: Lock, p: Pid): (Lock, bool) {
    if l.writer == NoWriter && l.readers == 0 then (l.(writer := By(p)), true)
    else (l.(writeQ := Add(l.writeQ, p)), false)
  }

  /** The last reader out wakes one queued writer, which must try again. */
  function ReadUnlock(l: Lock): (Lock, seq<Pid>) {
    var m := l.(readers := if l.readers > 0 then l.readers - 1 else 0);
    if m.readers == 0 && m.writer == NoWriter && m.writeQ != [] then (m.(writeQ := m.writeQ[1..]), [m.writeQ[0]])
    else (m, [])
  }

  /** The writer hands the lock to the next queued writer, or else to all queued readers. */
  function WriteUnlock(l: Lock): (Lock, seq<Pid>) {
    if l.writeQ != [] then (l.(writer := By(l.writeQ[0]), writeQ := l.writeQ[1..]), [l.writeQ[0]])
    else (Lock(l.readers + |l.readQ|, NoWriter, [], []), l.readQ)
  }

  // ---------------------------------------------------------------- threads

  /** Where a thread stands; Retry is a woken writer that found the lock not handed to it. */
  datatype At = Outside | TryRead | ParkedRead | ReadGranted | TryWrite | ParkedWrite | WokenWrite | Retry

  datatype Thread = Thread(at: At, held: nat)

  datatype State = State(lock: Lock, threads: seq<Thread>)

  const START: State := State(FREE, seq(MAX_PROCESSES, _ => Thread(Outside, 0)))

  datatype Action = CallRead | CallWrite | CallReadUnlock | CallWriteUnlock | Continue

  function Move(ts: seq<Thread>, p: Pid, at: At): seq<Thread>
    requires |ts| == MAX_PROCESSES
  {
    ts[p := ts[p].(at := at)]
  }

  /** Gives a read lock to every thread of `q` and wakes it. */
  function GrantReaders(ts: seq<Thread>, q: seq<Pid>): (r: seq<Thread>)
    requires |ts| == MAX_PROCESSES
    ensures |r| == |ts|
    ensures forall p: Pid | p !in q :: r[p] == ts[p]
    decreases |q|
  {
    if q == [] then ts else GrantReaders(ts[q[0] := Thread(ReadGranted, ts[q[0]].held + 1)], q[1..])
  }

  predicate Enabled(s: State, p: Pid, a: Action)
    requires |s.threads| == MAX_PROCESSES
  {
    var at := s.threads[p].at;
    if a == Continue then at != Outside && at != ParkedRead && at != ParkedWrite else at == Outside
  }

  function Step(s: State, p: Pid, a: Action): State
    requires |s.threads| == MAX_PROCESSES && Enabled(s, p, a)
  {
    var t := s.threads[p];
    match a
    case CallRead => s.(threads := Move(s.threads, p, TryRead))
    case CallWrite => s.(threads := Move(s.threads, p, TryWrite))
    case CallReadUnlock =>
      if t.held == 0 then s
      else
        var (l, woken) := ReadUnlock(s.lock);
        var ts := s.threads[p := t.(held := t.held - 1)];
        State(l, if woken == [] then ts else Move(ts, woken[0], WokenWrite))
    case CallWriteUnlock =>
      if s.lock.writer != By(p) then s
      else
        var (l, woken) := WriteUnlock(s.lock);
        State(l, if s.lock.writeQ != [] then Move(s.threads, woken[0], WokenWrite) else GrantReaders(s.threads, woken))
    case Continue =>
      if t.at == TryRead then
        var (l, ok) := ReadTry(s.lock, p);
        State(l, s.threads[p := if ok then Thread(Outside, t.held + 1) else t.(at := ParkedRead)])
      else if t.at == ReadGranted then s.(threads := Move(s.threads, p, Outside))
      else if t.at == WokenWrite
          then s.(threads := Move(s.threads, p, if s.lock.writer == By(p) then Outside else Retry))
      else
        var (l, ok) := WriteTry(s.lock, p);
        State(l, Move(s.threads, p, if ok then Outside else ParkedWrite))
  }

  // ---------------------------------------------------------------- invariant

  function Held(ts: seq<Thread>): nat {
    if ts == [] then 0 else Held(ts[..|ts| - 1]) + ts[|ts| - 1].held
  }

  lemma {:induction false} HeldUpdate(ts: seq<Thread>, i: nat, t: Thread)
    requires i < |ts|
    ensures Held(ts[i := t]) == Held(ts) - ts[i].held + t.held
  {
    var n := |ts| - 1;
    if i == n {
      assert ts[i := t][..n] == ts[..n];
    } else {
      HeldUpdate(ts[..n], i, t);
      assert ts[i := t][..n] == ts[..n][i := t];
    }
  }

  lemma {:induction false} HeldBounds(ts: seq<Thread>, i: nat)
    requires i < |ts|
    ensures ts[i].held <= Held(ts)
  {
    if i < |ts| - 1 {
      HeldBounds(ts[..|ts| - 1], i);
    }
  }

  /** The queue holds exactly the threads parked at `at`, each once. */
  ghost predicate QueueOf(q: seq<Pid>, ts: seq<Thread>, at: At)
    requires |ts| == MAX_PROCESSES
  {
    Distinct(q) && forall p: Pid :: p in q <==> ts[p].at == at
  }

  /** A writer woken by a reader's exit that has not tried again yet. */
  predicate Pending(s: State, p: Pid)
    requires |s.threads| == MAX_PROCESSES
  {
    s.threads[p].at == Retry || (s.threads[p].at == WokenWrite && s.lock.writer != By(p))
  }

  ghost predicate SomePending(s: State)
    requires |s.threads| == MAX_PROCESSES
  {
    exists p: Pid :: Pending(s, p)
  }

  ghost predicate Exclusion(s: State) {
    && |s.threads| == MAX_PROCESSES
    && (s.lock.writer != NoWriter ==> s.lock.readers == 0)
    && s.lock.readers == Held(s.threads)
  }

  ghost predicate Queued(s: State) {
    && |s.threads| == MAX_PROCESSES
    && QueueOf(s.lock.readQ, s.threads, ParkedRead)
    && QueueOf(s.lock.writeQ, s.threads, ParkedWrite)
  }

  ghost predicate NoLostWakeup(s: State)
    requires |s.threads| == MAX_PROCESSES
  {
    && (s.lock.readQ != [] ==> s.lock.writer != NoWriter || s.lock.writeQ != [] || SomePending(s))
    && (s.lock.writeQ != [] ==> s.lock.writer != NoWriter || s.lock.readers > 0 || SomePending(s))
  }

  ghost predicate Inv(s: State) { Exclusion(s) && Queued(s) && NoLostWakeup(s) }

  /** A queue without the thread `p` has room for it. */
  lemma Room(q: seq<Pid>, p: Pid)
    requires Distinct(q) && p !in q
    ensures |q| < MAX_WAITERS && Add(q, p) == q + [p]
  {
    DistinctFits(q + [p], 1, MAX_PROCESSES);
  }

  lemma {:induction false} GrantSums(ts: seq<Thread>, q: seq<Pid>)
    requires |ts| == MAX_PROCESSES && Distinct(q)
    ensures Held(GrantReaders(ts, q)) == Held(ts) + |q|
    ensures forall p: Pid | p in q :: GrantReaders(ts, q)[p].at == ReadGranted
    decreases |q|
  {
    if q != [] {
      HeldUpdate(ts, q[0], Thread(ReadGranted, ts[q[0]].held + 1));
      GrantSums(ts[q[0] := Thread(ReadGranted, ts[q[0]].held + 1)], q[1..]);
      assert forall p: Pid | p in q :: p == q[0] || p in q[1..];
    }
  }

  // ---------------------------------------------------------------- every step keeps the invariant

  lemma StepExclusion(s: State, p: Pid, a: Action)
    requires Inv(s) && Enabled(s, p, a)
    ensures Exclusion(Step(s, p, a))
  {
    var t := s.threads[p];
    HeldBounds(s.threads, p);
    match a {
      case CallReadUnlock =>
        if t.held > 0 {
          var ts := s.threads[p := t.(held := t.held - 1)];
          HeldUpdate(s.threads, p, t.(held := t.held - 1));
          var (l, woken) := ReadUnlock(s.lock);
          if woken != [] {
            HeldUpdate(ts, woken[0], ts[woken[0]].(at := WokenWrite));
          }
        }
      case CallWriteUnlock =>
        if s.lock.writer == By(p) {
          if s.lock.writeQ != [] {
            HeldUpdate(s.threads, s.lock.writeQ[0], s.threads[s.lock.writeQ[0]].(at := WokenWrite));
          } else {
            GrantSums(s.threads, s.lock.readQ);
          }
        }
      case _ =>
        HeldUpdate(s.threads, p, Step(s, p, a).threads[p]);
    }
  }

  /** Moving one thread that is in neither queue, to a place that is in neither queue. */
  lemma QueueUnmoved(q: seq<Pid>, ts: seq<Thread>, p: Pid, t: Thread, at: At)
    requires |ts| == MAX_PROCESSES && QueueOf(q, ts, at) && ts[p].at != at && t.at != at
    ensures QueueOf(q, ts[p := t], at)
  {
  }

  lemma QueueGrows(q: seq<Pid>, ts: seq<Thread>, p: Pid, t: Thread, at: At)
    requires |ts| == MAX_PROCESSES && QueueOf(q, ts, at) && ts[p].at != at && t.at == at
    ensures QueueOf(Add(q, p), ts[p := t], at) && Add(q, p) == q + [p]
  {
    Room(q, p);
  }

  lemma QueueShrinks(q: seq<Pid>, ts: seq<Thread>, t: Thread, at: At)
    requires |ts| == MAX_PROCESSES && QueueOf(q, ts, at) && q != [] && t.at != at
    ensures QueueOf(q[1..], ts[q[0] := t], at)
  {
    assert forall p: Pid | p in q :: p == q[0] || p in q[1..];
  }

  lemma StepQueued(s: State, p: Pid, a: Action)
    requires Inv(s) && Enabled(s, p, a)
    ensures Queued(Step(s, p, a))
  {
    var l, ts, t := s.lock, s.threads, s.threads[p];
    var s' := Step(s, p, a);
    match a {
      case CallReadUnlock =>
        if t.held > 0 {
          var us := ts[p := t.(held := t.held - 1)];
          QueueUnmoved(l.readQ, ts, p, us[p], ParkedRead);
          QueueUnmoved(l.writeQ, ts, p, us[p], ParkedWrite);
          if ReadUnlock(l).1 != [] {
            var w := l.writeQ[0];
            QueueShrinks(l.writeQ, us, us[w].(at := WokenWrite), ParkedWrite);
            QueueUnmoved(l.readQ, us, w, us[w].(at := WokenWrite), ParkedRead);
          }
        }
      case CallWriteUnlock =>
        if l.writer == By(p) {
          if l.writeQ != [] {
            var w := l.writeQ[0];
            QueueShrinks(l.writeQ, ts, ts[w].(at := WokenWrite), ParkedWrite);
            QueueUnmoved(l.readQ, ts, w, ts[w].(at := WokenWrite), ParkedRead);
          } else {
            GrantSums(ts, l.readQ);
          }
        }
      case _ =>
        var t' := s'.threads[p];
        if t'.at == ParkedRead {
          QueueGrows(l.readQ, ts, p, t', ParkedRead);
        } else {
          QueueUnmoved(l.readQ, ts, p, t', ParkedRead);
        }
        if t'.at == ParkedWrite {
          QueueGrows(l.writeQ, ts, p, t', ParkedWrite);
        } else {
          QueueUnmoved(l.writeQ, ts, p, t', ParkedWrite);
        }
    }
  }

  lemma StepWakeups(s: State, p: Pid, a: Action)
    requires Inv(s) && Enabled(s, p, a)
    ensures NoLostWakeup(Step(s, p, a))
  {
    var s' := Step(s, p, a);
    HeldBounds(s.threads, p);
    if a == CallReadUnlock {
      if ReadUnlock(s.lock).1 != [] && s.threads[p].held > 0 {
        assert Pending(s', s.lock.writeQ[0]);
      } else if SomePending(s) {
        var q: Pid :| Pending(s, q);
        assert Pending(s', q);
      }
    } else if a != CallWriteUnlock {
      if s.threads[p].at == WokenWrite && Pending(s, p) {
        assert Pending(s', p);
      } else if SomePending(s) {
        var q: Pid :| Pending(s, q);
        assert q != p ==> Pending(s', q) || s'.lock.writer == By(q);
      }
    }
  }

  lemma StepKeepsInv(s: State, p: Pid, a: Action)
    requires Inv(s) && Enabled(s, p, a)
    ensures Inv(Step(s, p, a))
  {
    StepExclusion(s, p, a);
    StepQueued(s, p, a);
    StepWakeups(s, p, a);
  }

  // ---------------------------------------------------------------- who gets the lock

  /** All threads but `p` are as they were. */
  predicate OthersSame(s: State, t: State, p: Pid)
    requires |s.threads| == |t.threads| == MAX_PROCESSES
  {
    forall q: Pid | q != p :: t.threads[q] == s.threads[q]
  }

  /**
    A reader is granted the lock at once if there is neither a writer nor a queued one; otherwise it
    goes to the end of the readers' queue and nothing else happens.
   */
  lemma ReaderTries(s: State, p: Pid)
    requires Inv(s) && s.threads[p].at == TryRead
    ensures var t := Step(s, p, Continue);
            && |t.threads| == MAX_PROCESSES && OthersSame(s, t, p)
            && t.lock.writer == s.lock.writer && t.lock.writeQ == s.lock.writeQ
            && if s.lock.writer == NoWriter && s.lock.writeQ == []
               then t.lock.readers == s.lock.readers + 1 && t.lock.readQ == s.lock.readQ
                    && t.threads[p] == Thread(Outside, s.threads[p].held + 1)
               else t.lock.readers == s.lock.readers && t.lock.readQ == s.lock.readQ + [p]
                    && t.threads[p] == Thread(ParkedRead, s.threads[p].held)
  {
    Room(s.lock.readQ, p);
  }

  /** A writer, woken or new, takes the lock if nobody holds it; otherwise it goes to the end of the writers' queue. */
  lemma WriterTries(s: State, p: Pid)
    requires Inv(s) && (s.threads[p].at == TryWrite || s.threads[p].at == Retry)
    ensures var t := Step(s, p, Continue);
            && |t.threads| == MAX_PROCESSES && OthersSame(s, t, p) && t.threads[p].held == s.threads[p].held
            && t.lock.readers == s.lock.readers && t.lock.readQ == s.lock.readQ
            && if s.lock.writer == NoWriter && s.lock.readers == 0
               then t.lock.writer == By(p) && t.lock.writeQ == s.lock.writeQ && t.threads[p].at == Outside
               else t.lock.writer == s.lock.writer && t.lock.writeQ == s.lock.writeQ + [p]
                    && t.threads[p].at == ParkedWrite
  {
    Room(s.lock.writeQ, p);
  }

  /** A writer hands the lock to the first queued writer, or else to every queued reader and to nobody else. */
  lemma WriterLeaves(s: State, p: Pid)
    requires Inv(s) && s.threads[p].at == Outside && s.lock.writer == By(p)
    ensures var t := Step(s, p, CallWriteUnlock);
            |t.threads| == MAX_PROCESSES &&
            if s.lock.writeQ != []
            then
              var w := s.lock.writeQ[0];
              && t.lock == s.lock.(writer := By(w), writeQ := s.lock.writeQ[1..])
              && OthersSame(s, t, w) && t.threads[w] == Thread(WokenWrite, s.threads[w].held)
            else
              && t.lock == Lock(|s.lock.readQ|, NoWriter, [], [])
              && forall q: Pid :: t.threads[q] == if s.threads[q].at == ParkedRead
                                                  then Thread(ReadGranted, s.threads[q].held + 1) else s.threads[q]
  {
    if s.lock.writeQ == [] {
      GrantsOne(s.threads, s.lock.readQ);
    }
  }

  lemma {:induction false} GrantsOne(ts: seq<Thread>, q: seq<Pid>)
    requires |ts| == MAX_PROCESSES && Distinct(q)
    ensures forall p: Pid | p in q :: GrantReaders(ts, q)[p] == Thread(ReadGranted, ts[p].held + 1)
    decreases |q|
  {
    if q != [] {
      GrantsOne(ts[q[0] := Thread(ReadGranted, ts[q[0]].held + 1)], q[1..]);
      assert forall p: Pid | p in q :: p == q[0] || p in q[1..];
    }
  }

  /** A reader gives one lock back; the last one out wakes the first queued writer without granting it the lock. */
  lemma ReaderLeaves(s: State, p: Pid)
    requires Inv(s) && s.threads[p].at == Outside && s.threads[p].held > 0
    ensures var t, r := Step(s, p, CallReadUnlock), s.lock.readers - 1;
            && r >= 0 && |t.threads| == MAX_PROCESSES && t.threads[p].held == s.threads[p].held - 1
            && if r == 0 && s.lock.writeQ != []
               then
                 var w := s.lock.writeQ[0];
                 && t.lock == s.lock.(readers := 0, writeQ := s.lock.writeQ[1..]) && t.threads[w].at == WokenWrite
                 && t.threads[p].at == Outside
                 && forall q: Pid | q != p && q != w :: t.threads[q] == s.threads[q]
               else t.lock == s.lock.(readers := r) && t.threads[p].at == Outside && OthersSame(s, t, p)
  {
    HeldBounds(s.threads, p);
  }

  /** While a writer is queued, no step gives anybody a read lock. */
  lemma NoReadLockPastWriters(s: State, p: Pid, a: Action)
    requires Inv(s) && Enabled(s, p, a) && s.lock.writeQ != []
    ensures var t := Step(s, p, a);
            && |t.threads| == MAX_PROCESSES && t.lock.readers <= s.lock.readers
            && forall q: Pid :: t.threads[q].held <= s.threads[q].held
  {
    HeldBounds(s.threads, p);
  }

  /** Queues are served in the order of arrival: threads join at the end, and leave from the front or all together. */
  lemma QueuesInOrder(s: State, p: Pid, a: Action)
    requires Inv(s) && Enabled(s, p, a)
    ensures var q, r := s.lock.writeQ, Step(s, p, a).lock.writeQ; r == q || r == q + [p] || (q != [] && r == q[1..])
    ensures var q, r := s.lock.readQ, Step(s, p, a).lock.readQ; r == q || r == q + [p] || r == []
  {
    if a == Continue && s.threads[p].at == TryRead {
      ReaderTries(s, p);
    } else if a == Continue && (s.threads[p].at == TryWrite || s.threads[p].at == Retry) {
      WriterTries(s, p);
    }
  }

  /** Some writer is queued in every state of the run but perhaps the last. */
  ghost predicate WritersWait(s: State, steps: seq<(Pid, Action)>)
    decreases |steps|
  {
    steps == [] ||
    (&& s.lock.writeQ != [] && |s.threads| == MAX_PROCESSES && Enabled(s, steps[0].0, steps[0].1)
     && WritersWait(Step(s, steps[0].0, steps[0].1), steps[1..]))
  }

  /** So readers drain: as long as writers wait, however many readers come, none gets the lock. */
  lemma {:induction false} ReadersDrain(s: State, steps: seq<(Pid, Action)>, t: State)
    requires Inv(s) && IsRun(s, steps, t) && WritersWait(s, steps)
    ensures |t.threads| == MAX_PROCESSES && t.lock.readers <= s.lock.readers
    ensures forall q: Pid :: t.threads[q].held <= s.threads[q].held
    decreases |steps|
  {
    if steps != [] {
      NoReadLockPastWriters(s, steps[0].0, steps[0].1);
      StepKeepsInv(s, steps[0].0, steps[0].1);
      ReadersDrain(Step(s, steps[0].0, steps[0].1), steps[1..], t);
    }
  }

  // ---------------------------------------------------------------- runs

  ghost predicate IsRun(s: State, steps: seq<(Pid, Action)>, t: State)
    decreases |steps|
  {
    if steps == [] then t == s
    else
      && |s.threads| == MAX_PROCESSES && Enabled(s, steps[0].0, steps[0].1)
      && IsRun(Step(s, steps[0].0, steps[0].1), steps[1..], t)
  }

  lemma {:induction false} RunKeepsInv(s: State, steps: seq<(Pid, Action)>, t: State)
    requires Inv(s) && IsRun(s, steps, t)
    ensures Inv(t)
    decreases |steps|
  {
    if steps != [] {
      StepKeepsInv(s, steps[0].0, steps[0].1);
      RunKeepsInv(Step(s, steps[0].0, steps[0].1), steps[1..], t);
    }
  }

  lemma {:induction false} HeldZero(n: nat)
    ensures Held(seq(n, _ => Thread(Outside, 0))) == 0
  {
    if n > 0 {
      HeldZero(n - 1);
      assert seq(n, _ => Thread(Outside, 0))[..n - 1] == seq(n - 1, _ => Thread(Outside, 0));
    }
  }

  /**
    In every interleaving of callers on one lock: a writer excludes every reader, `readers`
    is the number of read locks held, and a queued thread always has someone who will come
    back to wake it, including after newcomers have barged in.
   */
  lemma EveryRun(steps: seq<(Pid, Action)>, t: State)
    requires IsRun(START, steps, t)
    ensures Exclusion(t) && NoLostWakeup(t)
    ensures t.lock.writer != NoWriter ==> forall p: Pid :: t.threads[p].held == 0
  {
    HeldZero(MAX_PROCESSES);
    RunKeepsInv(START, steps, t);
    forall p: Pid
      ensures t.threads[p].held <= t.lock.readers
    {
      HeldBounds(t.threads, p);
    }
  }

  // ---------------------------------------------------------------- the implementation

  lemma Regroup(done: seq<Pid>, last: seq<Pid>, r: seq<Pid>, q: seq<Pid>, rest: seq<Pid>)
    requires rest == r + q
    ensures (done + last) + r + q == done + last + rest
  {
  }

  /** A waiter array with its count. */
  class WaitQueue {
    const slots: array<Pid>
    var count: nat

    ghost predicate Valid()
      reads this
    {
      slots.Length == MAX_WAITERS && count <= MAX_WAITERS
    }

    ghost function View(): seq<Pid>
      reads this, slots
      requires Valid()
    {
      slots[..count]
    }

    constructor ()
      ensures Valid() && fresh(slots) && View() == []
    {
      slots := new Pid[MAX_WAITERS](_ => 1);
      count := 0;
    }

    method Enqueue(p: Pid)
      requires Valid()
      modifies this, slots
      ensures Valid() && View() == Add(old(View()), p)
    {
      if count >= MAX_WAITERS {
        return;
      }
      for i := 0 to count
        invariant p !in slots[..i]
      {
        if slots[i] == p {
          return;
        }
      }
      slots[count] := p;
      count := count + 1;
    }

    method Pop() returns (popped: seq<Pid>)
      requires Valid()
      modifies this, slots
      ensures Valid() && old(View()) == popped + View()
      ensures |popped| == if old(View()) == [] then 0 else 1
    {
      if count == 0 {
        return [];
      }
      popped := [slots[0]];
      for i := 1 to count
        invariant count == old(count)
        invariant forall k | 0 <= k < i - 1 :: slots[k] == old(slots[k + 1])
        invariant forall k | i - 1 <= k < MAX_WAITERS :: slots[k] == old(slots[k])
      {
        slots[i - 1] := slots[i];
      }
      count := count - 1;
    }
  }

  class RwLock {
    var readers: nat
    var writer: Writer
    const readWaiters: WaitQueue
    const writeWaiters: WaitQueue

    ghost predicate Valid()
      reads this, readWaiters, writeWaiters
    {
      readWaiters.Valid() && writeWaiters.Valid() && readWaiters != writeWaiters &&
      readWaiters.slots != writeWaiters.slots
    }

    ghost function View(): Lock
      reads this, readWaiters, writeWaiters, readWaiters.slots, writeWaiters.slots
      requires Valid()
    {
      Lock(readers, writer, readWaiters.View(), writeWaiters.View())
    }

    constructor ()
      ensures Valid() && View() == FREE
    {
      readers, writer := 0, NoWriter;
      readWaiters := new WaitQueue();
      writeWaiters := new WaitQueue();
    }

    method ReadLockRegion(cur: Pid) returns (ok: bool)
      requires Valid()
      modifies this, readWaiters, readWaiters.slots
      ensures Valid() && (View(), ok) == ReadTry(old(View()), cur)
    {
      if writer == NoWriter && writeWaiters.count == 0 {
        readers := readers + 1;
        return true;
      }
      readWaiters.Enqueue(cur);
      return false;
    }

    method WriteLockRegion(cur: Pid) returns (ok: bool)
      requires Valid()
      modifies this, writeWaiters, writeWaiters.slots
      ensures Valid() && (View(), ok) == WriteTry(old(View()), cur)
    {
      if writer == NoWriter && readers == 0 {
        writer := By(cur);
        return true;
      }
      writeWaiters.Enqueue(cur);
      return false;
    }

    method ReadUnlockRegion() returns (woken: seq<Pid>)
      requires Valid()
      modifies this, writeWaiters, writeWaiters.slots
      ensures Valid() && (View(), woken) == ReadUnlock(old(View()))
    {
      woken := [];
      if readers > 0 {
        readers := readers - 1;
      }
      if readers == 0 && writer == NoWriter {
        woken := writeWaiters.Pop();
        assert woken != [] ==> old(View()).writeQ == [woken[0]] + View().writeQ;
      }
    }

    method WriteUnlockRegion() returns (woken: seq<Pid>)
      requires Valid()
      modifies this, readWaiters, writeWaiters, readWaiters.slots, writeWaiters.slots
      ensures Valid() && (View(), woken) == WriteUnlock(old(View()))
    {
      writer := NoWriter;
      woken := writeWaiters.Pop();
      if woken != [] {
        assert old(View()).writeQ == [woken[0]] + View().writeQ;
        writer := By(woken[0]);
        return;
      }
      assert View().writeQ == [] && View().readQ == old(View()).readQ;
      woken := DrainReaders();
    }

    /** All queued readers get the lock at once. */
    method DrainReaders() returns (woken: seq<Pid>)
      requires Valid() && View().writeQ == [] && writer == NoWriter
      modifies this, readWaiters, readWaiters.slots
      ensures Valid() && woken == old(View()).readQ && writer == NoWriter
      ensures View().writeQ == [] && View().readQ == [] && readers == old(readers) + |woken|
    {
      woken := [];
      var r := readWaiters.Pop();
      while r != []
        invariant Valid() && writer == NoWriter && View().writeQ == []
        invariant |r| <= 1 && woken + r + View().readQ == old(View()).readQ
        invariant r == [] ==> View().readQ == []
        invariant readers == old(readers) + |woken|
        decreases |r| + |View().readQ|
      {
        readers := readers + 1;
        ghost var done, last, rest := woken, r, View().readQ;
        woken := woken + r;
        r := readWaiters.Pop();
        Regroup(done, last, r, View().readQ, rest);
      }
      assert woken + [] + [] == woken;
    }
  }
}
