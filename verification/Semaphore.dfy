/**
  Counting semaphores.  Each region between masking and unmasking interrupts is one atomic
  step; threads are named by their PCB slot.
 */
module Semaphores {
  import opened Pigeonhole

  const MAX_WAITERS: nat := 16

  type Pid = nat

  /** What a pass through the wait region ends in. */
  datatype Outcome = Granted | Blocks | Retries

  datatype Sem = Sem(count: nat, waiters: seq<Pid>)

  function Init(initial: int): Sem {
    Sem(if initial < 0 then 0 else initial, [])
  }

  function Enqueue(q: seq<Pid>, p: Pid): seq<Pid> {
    if |q| >= MAX_WAITERS || p in q then q else q + [p]
  }

  function Wait(s: Sem, p: Pid): (Sem, Outcome) {
    if s.count > 0 then (s.(count := s.count - 1), Granted)
    else if |s.waiters| < MAX_WAITERS then (s.(waiters := Enqueue(s.waiters, p)), Blocks)
    else (s, Retries)
  }

  /** A queued waiter gets the unit directly; otherwise the count grows. */
  function Signal(s: Sem): (Sem, seq<Pid>) {
    if |s.waiters| > 0 then (s.(waiters := s.waiters[1..]), [s.waiters[0]])
    else (s.(count := s.count + 1), [])
  }

  // ---------------------------------------------------------------- conservation over every history

  datatype Op = OpWait(pid: Pid) | OpSignal

  /** What one pass through the wait region does. */
  lemma WaitMeans(s: Sem, p: Pid)
    ensures var (t, o) := Wait(s, p);
            && (o == Granted <==> s.count > 0) && (o == Retries <==> s.count == 0 && |s.waiters| >= MAX_WAITERS)
            && t.count == (if o == Granted then s.count - 1 else s.count)
            && (o == Blocks ==> p in t.waiters && t.waiters == if p in s.waiters then s.waiters else s.waiters + [p])
            && (o != Blocks ==> t.waiters == s.waiters)
  {
  }

  /** The semaphore, the number of units signalled and handed out so far, and who queued and was woken, in order. */
  datatype Ledger = Ledger(sem: Sem, signals: nat, grants: nat, arrived: seq<Pid>, woken: seq<Pid>)

  function Do(l: Ledger, op: Op): Ledger {
    match op
    case OpWait(p) =>
      var (s, o) := Wait(l.sem, p);
      Ledger(s, l.signals, l.grants + (if o == Granted then 1 else 0),
             if o == Blocks && p !in l.sem.waiters then l.arrived + [p] else l.arrived, l.woken)
    case OpSignal =>
      var (s, woken) := Signal(l.sem);
      Ledger(s, l.signals + 1, l.grants + |woken|, l.arrived, l.woken + woken)
  }

  function DoAll(l: Ledger, ops: seq<Op>): Ledger {
    if ops == [] then l else Do(DoAll(l, ops[..|ops| - 1]), ops[|ops| - 1])
  }

  /**
    Initial units plus signals equal the units left plus the units handed out, nobody waits while a
    unit is left, and waiters are woken in the order in which they queued, in every interleaving of
    waits and signals.
   */
  lemma {:induction false} Conservation(initial: int, ops: seq<Op>)
    ensures var l := DoAll(Ledger(Init(initial), 0, 0, [], []), ops);
            && (if initial < 0 then 0 else initial) + l.signals == l.sem.count + l.grants
            && l.arrived == l.woken + l.sem.waiters
            && (l.sem.waiters != [] ==> l.sem.count == 0)
            && Distinct(l.sem.waiters) && |l.sem.waiters| <= MAX_WAITERS
  {
    if ops != [] {
      Conservation(initial, ops[..|ops| - 1]);
      OrderKept(DoAll(Ledger(Init(initial), 0, 0, [], []), ops[..|ops| - 1]), ops[|ops| - 1]);
    }
  }

  lemma OrderKept(l: Ledger, op: Op)
    requires l.arrived == l.woken + l.sem.waiters && |l.sem.waiters| <= MAX_WAITERS
    ensures var m := Do(l, op); m.arrived == m.woken + m.sem.waiters
  {
    if op.OpSignal? && l.sem.waiters != [] {
      assert l.woken + l.sem.waiters == (l.woken + [l.sem.waiters[0]]) + l.sem.waiters[1..];
    }
  }

  // ---------------------------------------------------------------- the implementation

  class Semaphore {
    var count: nat
    const slots: array<Pid>
    var waiterCount: nat

    ghost predicate Valid()
      reads this
    {
      slots.Length == MAX_WAITERS && waiterCount <= MAX_WAITERS
    }

    ghost function View(): Sem
      reads this, slots
      requires Valid()
    {
      Sem(count, slots[..waiterCount])
    }

    constructor (initial: int)
      ensures Valid() && fresh(slots) && View() == Init(initial)
    {
      count := if initial < 0 then 0 else initial;
      slots := new Pid[MAX_WAITERS](_ => 0);
      waiterCount := 0;
    }

    method WaitqAdd(p: Pid)
      requires Valid()
      modifies this`waiterCount, slots
      ensures Valid() && View() == old(View()).(waiters := Enqueue(old(View()).waiters, p))
    {
      if waiterCount >= MAX_WAITERS {
        return;
      }
      for i := 0 to waiterCount
        invariant p !in slots[..i]
      {
        if slots[i] == p {
          return;
        }
      }
      slots[waiterCount] := p;
      waiterCount := waiterCount + 1;
    }

    method WaitqPop() returns (woken: seq<Pid>)
      requires Valid()
      modifies this`waiterCount, slots
      ensures Valid()
      ensures old(View()).waiters == woken + View().waiters && count == old(count)
      ensures |woken| == if old(waiterCount) == 0 then 0 else 1
    {
      if waiterCount == 0 {
        return [];
      }
      woken := [slots[0]];
      for i := 1 to waiterCount
        invariant waiterCount == old(waiterCount)
        invariant forall k | 0 <= k < i - 1 :: slots[k] == old(slots[k + 1])
        invariant forall k | i - 1 <= k < MAX_WAITERS :: slots[k] == old(slots[k])
      {
        slots[i - 1] := slots[i];
      }
      waiterCount := waiterCount - 1;
      slots[waiterCount] := 0;
    }

    /** One pass of sem_wait's loop, up to the point where interrupts are unmasked. */
    method WaitRegion(p: Pid) returns (o: Outcome)
      requires Valid()
      modifies this, slots
      ensures Valid() && (View(), o) == Wait(old(View()), p)
    {
      if count > 0 {
        count := count - 1;
        return Granted;
      }
      if waiterCount < MAX_WAITERS {
        WaitqAdd(p);
        return Blocks;
      }
      return Retries;
    }

    method SignalRegion() returns (woken: seq<Pid>)
      requires Valid()
      modifies this, slots
      ensures Valid() && (View(), woken) == Signal(old(View()))
    {
      woken := WaitqPop();
      assert old(waiterCount) > 0 ==> old(View()).waiters == [old(slots[0])] + View().waiters;
      if woken == [] {
        count := count + 1;
      }
    }
  }
}
