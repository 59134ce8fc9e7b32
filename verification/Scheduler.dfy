/**
  The multi-level feedback scheduler with its PCB table and sorted sleep queue.  A process is
  named by its slot; slot 0 is the shell (pid 0).
 */
module Scheduler {
  import opened Pigeonhole

  const MAX_PROCESSES: nat := 16
  const MLFQ_LEVELS: nat := 3

  function Quantum(level: nat): nat {
    if level == 0 then 4 else if level == 1 then 8 else 16
  }

  datatype Status = Ready | Running | Blocked | Terminated

  datatype Pcb = Pcb(status: Status, priority: nat, quantum: nat, ticksUsed: nat, wakeTick: nat, hasStack: bool)

  datatype State = State(pcbs: seq<Pcb>, current: nat, tick: nat, sleepers: seq<nat>)

  /** The state set up by process_init and scheduler_init. */
  function Boot(): State {
    State(seq(MAX_PROCESSES, i => if i == 0 then Pcb(Running, 0, 4, 0, 0, false)
        else Pcb(Terminated, 0, 0, 0, 0, false)),
          0, 0, [])
  }

  predicate Typed(s: State) {
    && |s.pcbs| == MAX_PROCESSES && s.current < MAX_PROCESSES
    && forall k | 0 <= k < |s.sleepers| :: s.sleepers[k] < MAX_PROCESSES
  }

  // ---------------------------------------------------------------- sleep queue

  /** Insertion from the back: past every later riser, behind equal ones. */
  function Insert(pcbs: seq<Pcb>, q: seq<nat>, i: nat): (r: seq<nat>)
    requires i < |pcbs| && forall k | 0 <= k < |q| :: q[k] < |pcbs|
    ensures |r| == |q| + 1 && forall k | 0 <= k < |r| :: r[k] < |pcbs|
  {
    if q == [] then [i]
    else
      var n := |q| - 1;
      if pcbs[q[n]].wakeTick <= pcbs[i].wakeTick then q + [i] else Insert(pcbs, q[..n], i) + [q[n]]
  }

  /** sleep_queue_insert, with its capacity check. */
  function SleepInsert(pcbs: seq<Pcb>, q: seq<nat>, i: nat): seq<nat>
    requires i < |pcbs| && forall k | 0 <= k < |q| :: q[k] < |pcbs|
  {
    if |q| >= MAX_PROCESSES then q else Insert(pcbs, q, i)
  }

  function Remove(q: seq<nat>, i: nat): (r: seq<nat>)
    ensures forall x | x in r :: x in q
    ensures i !in q ==> r == q
    ensures |r| == if i in q then |q| - 1 else |q|
  {
    if q == [] then [] else if q[0] == i then q[1..] else [q[0]] + Remove(q[1..], i)
  }

  function Woken(p: Pcb): Pcb {
    Pcb(Ready, 0, Quantum(0), 0, 0, p.hasStack)
  }

  /** wake_sleepers: wake expired heads until the head has not expired. */
  function WakeHeads(s: State): (t: State)
    requires Typed(s)
    ensures Typed(t)
    decreases |s.sleepers|
  {
    if s.sleepers == [] then s
    else
      var h := s.sleepers[0];
      var p := s.pcbs[h];
      if p.wakeTick == 0 || s.tick < p.wakeTick then s
      else WakeHeads(s.(sleepers := s.sleepers[1..],
                        pcbs := if p.status == Blocked then s.pcbs[h := Woken(p)] else s.pcbs))
  }

  predicate Expired(s: State, i: nat)
    requires i < |s.pcbs|
  {
    s.pcbs[i].status == Blocked && 0 < s.pcbs[i].wakeTick <= s.tick
  }

  /** The reference: scan the whole table. */
  function WakeByScan(s: State): seq<Pcb> {
    seq(|s.pcbs|, i requires 0 <= i < |s.pcbs| => if Expired(s, i) then Woken(s.pcbs[i]) else s.pcbs[i])
  }

  // ---------------------------------------------------------------- choosing the next process

  predicate Runnable(p: Pcb) { p.status == Ready || p.status == Running }

  function BestLevel(pcbs: seq<Pcb>, n: nat): nat
    requires n <= |pcbs|
  {
    if n == 0 then MLFQ_LEVELS
    else
      var b := BestLevel(pcbs, n - 1);
      if Runnable(pcbs[n - 1]) && pcbs[n - 1].priority < b then pcbs[n - 1].priority else b
  }

  predicate Candidate(p: Pcb, level: nat) { Runnable(p) && p.priority == level }

  /** Round-robin scan from `start`, skipping the first `pass` slots. */
  function Scan(pcbs: seq<Pcb>, start: nat, pass: nat, level: nat): (r: nat)
    requires |pcbs| == MAX_PROCESSES && pass <= MAX_PROCESSES
    ensures r <= MAX_PROCESSES
    ensures r < MAX_PROCESSES ==> Candidate(pcbs[r], level)
    decreases MAX_PROCESSES - pass
  {
    if pass == MAX_PROCESSES then MAX_PROCESSES
    else
      var i := (start + pass) % MAX_PROCESSES;
      if Candidate(pcbs[i], level) then i else Scan(pcbs, start, pass + 1, level)
  }

  /** pick_next: a slot, or MAX_PROCESSES for none. */
  function PickNext(pcbs: seq<Pcb>, start: nat): (r: nat)
    requires |pcbs| == MAX_PROCESSES
    ensures r <= MAX_PROCESSES
    ensures r < MAX_PROCESSES ==> Runnable(pcbs[r])
  {
    var level := BestLevel(pcbs, MAX_PROCESSES);
    if level == MLFQ_LEVELS then MAX_PROCESSES else Scan(pcbs, start, 0, level)
  }

  // ---------------------------------------------------------------- dispatch

  /** Time accounting for the interrupted process. */
  function Charge(p: Pcb, isShell: bool, countTick: bool): Pcb {
    if p.status != Running then p
    else if isShell then p.(priority := 0, quantum := Quantum(0), ticksUsed := 0)
    else
      var used := (p.ticksUsed + 1) % 256;
      if countTick && used >= p.quantum then
        var level := if p.priority + 1 < MLFQ_LEVELS then p.priority + 1 else p.priority;
        p.(priority := level, ticksUsed := 0, quantum := Quantum(level))
      else p.(ticksUsed := used)
  }

  /** The tick's wake-ups and the accounting, before the choice is made. */
  function Account(s: State, countTick: bool): (t: State)
    requires Typed(s)
    ensures Typed(t)
  {
    var w := if countTick then WakeHeads(s.(tick := s.tick + 1)) else s;
    w.(pcbs := w.pcbs[w.current := Charge(w.pcbs[w.current], w.current == 0, countTick)])
  }

  /** Make `next` the running process. */
  function SwitchTo(s: State, next: nat): (t: State)
    requires Typed(s) && next < MAX_PROCESSES
    ensures Typed(t)
  {
    var cur := s.pcbs[s.current];
    var pcbs := if s.current != next && cur.status == Running then s.pcbs[s.current := cur.(status := Ready)]
        else s.pcbs;
    s.(pcbs := pcbs[next := pcbs[next].(status := Running)], current := next)
  }

  function NextProcess(s: State): (next: nat)
    requires Typed(s)
    ensures next <= MAX_PROCESSES
  {
    var picked := PickNext(s.pcbs, (s.current + 1) % MAX_PROCESSES);
    if picked == MAX_PROCESSES && Runnable(s.pcbs[s.current]) then s.current else picked
  }

  function Switch(s: State): (t: State)
    requires Typed(s)
    ensures Typed(t)
  {
    var next := NextProcess(s);
    if next == MAX_PROCESSES then s else SwitchTo(s, next)
  }

  function Dispatch(s: State, countTick: bool): (t: State)
    requires Typed(s)
    ensures Typed(t)
  {
    Switch(Account(s, countTick))
  }

  // ---------------------------------------------------------------- process operations

  /** The slot process_create would use, or MAX_PROCESSES. */
  function FreeSlot(pcbs: seq<Pcb>, i: nat): (r: nat)
    requires 1 <= i <= |pcbs|
    ensures i <= r <= |pcbs|
    ensures r < |pcbs| ==> Vacant(pcbs[r])
    ensures forall j | i <= j < r :: !Vacant(pcbs[j])
    decreases |pcbs| - i
  {
    if i == |pcbs| || Vacant(pcbs[i]) then i else FreeSlot(pcbs, i + 1)
  }

  predicate Vacant(p: Pcb) { p.status == Terminated && !p.hasStack }

  /** A fresh process, a thread with its parent's level, or a fork with its quantum too. */
  datatype Birth = Process | Thread | Fork

  datatype Action =
    | Tick | Yield
    | Sleep(ticks: nat) | BlockForever | Exit
    | Create(birth: Birth)
    | Wake(slot: nat) | Kill(slot: nat)
    | Adjust(slot: nat, level: nat)

  /**
    What the kernel lets happen next: the current process acts only while it runs,
    scheduler_wake is applied only to synchronisation waiters, and the mutexes set only
    priorities below MLFQ_LEVELS, never the shell's.
   */
  predicate Enabled(s: State, a: Action)
    requires Typed(s)
  {
    match a
    case Tick => true
    case Yield => true
    case Sleep(n) => s.pcbs[s.current].status == Running && s.current != 0 && n > 0
    case BlockForever => s.pcbs[s.current].status == Running && s.current != 0
    case Exit => s.pcbs[s.current].status == Running && s.current != 0
    case Create(birth) => s.pcbs[s.current].status == Running && (birth.Fork? ==> s.pcbs[s.current].hasStack)
    case Wake(i) => i < MAX_PROCESSES && s.pcbs[i].wakeTick == 0
    case Kill(i) => 0 < i < MAX_PROCESSES && s.pcbs[i].status != Terminated
    case Adjust(i, v) => 0 < i < MAX_PROCESSES && v < MLFQ_LEVELS
  }

  function Update(s: State, i: nat, p: Pcb): State
    requires Typed(s) && i < MAX_PROCESSES
  {
    s.(pcbs := s.pcbs[i := p])
  }

  function Born(birth: Birth, parent: Pcb): Pcb {
    Pcb(Ready, if birth.Process? then 0 else parent.priority, if birth.Fork? then parent.quantum else 4, 0, 0, true)
  }

  function SleepFor(s: State, n: nat): State
    requires Typed(s)
  {
    var t := Update(s, s.current, s.pcbs[s.current].(status := Blocked, wakeTick := s.tick + n));
    t.(sleepers := SleepInsert(t.pcbs, s.sleepers, s.current))
  }

  function WakeOne(s: State, i: nat): State
    requires Typed(s) && i < MAX_PROCESSES
  {
    var p := s.pcbs[i];
    if p.status != Blocked then s
    else Update(s, i, p.(status := Ready, wakeTick := 0, ticksUsed := 0, quantum := if p.quantum == 0 then 4
        else p.quantum))
  }

  function KillSlot(s: State, i: nat): (t: State)
    requires Typed(s) && i < MAX_PROCESSES
    ensures Typed(t)
  {
    var t := Update(s, i, s.pcbs[i].(status := Terminated, wakeTick := 0, hasStack := false))
             .(sleepers := Remove(s.sleepers, i));
    assert forall k | 0 <= k < |t.sleepers| :: t.sleepers[k] in s.sleepers;
    if i == s.current then Dispatch(t, false) else t
  }

  function Step(s: State, a: Action): (t: State)
    requires Typed(s) && Enabled(s, a)
    ensures Typed(t)
  {
    var cur := s.pcbs[s.current];
    match a
    case Tick => Dispatch(s, true)
    case Yield => Dispatch(s, false)
    case Sleep(n) => SleepFor(s, n)
    case BlockForever => Update(s, s.current, cur.(status := Blocked, wakeTick := 0))
    case Exit => Update(s, s.current, cur.(status := Terminated, hasStack := false))
    case Create(birth) =>
      var i := FreeSlot(s.pcbs, 1);
      if i == MAX_PROCESSES then s else Update(s, i, Born(birth, cur))
    case Wake(i) => WakeOne(s, i)
    case Kill(i) => KillSlot(s, i)
    case Adjust(i, v) => Update(s, i, s.pcbs[i].(priority := v))
  }

  // ---------------------------------------------------------------- invariants

  /** The shell is always runnable at level 0, levels stay in range, and only the current process can be running. */
  ghost predicate Sched(s: State) {
    && Typed(s)
    && Candidate(s.pcbs[0], 0)
    && (forall i | 0 <= i < MAX_PROCESSES :: s.pcbs[i].priority < MLFQ_LEVELS)
    && (forall i | 0 <= i < MAX_PROCESSES && i != s.current :: s.pcbs[i].status != Running)
  }

  ghost predicate Sorted(pcbs: seq<Pcb>, q: seq<nat>)
    requires forall k | 0 <= k < |q| :: q[k] < |pcbs|
  {
    forall i, j | 0 <= i < j < |q| :: pcbs[q[i]].wakeTick <= pcbs[q[j]].wakeTick
  }

  /** Queue entries are blocked processes with a wake-up time. */
  ghost predicate Sleepers(pcbs: seq<Pcb>, q: seq<nat>)
    requires |pcbs| == MAX_PROCESSES
  {
    forall k | 0 <= k < |q| :: 0 < q[k] < MAX_PROCESSES && pcbs[q[k]].status == Blocked && pcbs[q[k]].wakeTick > 0
  }

  /** Every process with a wake-up time is queued. */
  ghost predicate Complete(pcbs: seq<Pcb>, q: seq<nat>)
    requires |pcbs| == MAX_PROCESSES
  {
    forall i | 0 <= i < MAX_PROCESSES && pcbs[i].wakeTick > 0 :: i in q
  }

  /** The sleep queue holds, once each and in waking order, exactly the blocked processes with a wake-up time. */
  ghost predicate Sleeping(s: State) {
    && Typed(s) && Distinct(s.sleepers) && Sorted(s.pcbs, s.sleepers)
    && Sleepers(s.pcbs, s.sleepers) && Complete(s.pcbs, s.sleepers)
  }

  // ---------------------------------------------------------------- wake-ups

  function DropHead(s: State): (t: State)
    requires Typed(s) && s.sleepers != []
    ensures Typed(t)
  {
    s.(sleepers := s.sleepers[1..], pcbs := s.pcbs[s.sleepers[0] := Woken(s.pcbs[s.sleepers[0]])])
  }

  lemma DropHeadSleeping(s: State)
    requires Sleeping(s) && s.sleepers != []
    ensures Sleeping(DropHead(s))
  {
    var h, t := s.sleepers[0], DropHead(s);
    assert forall k | 0 <= k < |t.sleepers| :: t.sleepers[k] == s.sleepers[k + 1];
    forall i | 0 <= i < MAX_PROCESSES && t.pcbs[i].wakeTick > 0
      ensures i in t.sleepers
    {
      assert i != h && i in s.sleepers;
    }
  }

  /** Waking an expired head leaves the scan's answer unchanged. */
  lemma DropHeadScan(s: State)
    requires Typed(s) && s.sleepers != [] && Expired(s, s.sleepers[0])
    ensures WakeByScan(DropHead(s)) == WakeByScan(s)
  {
  }

  /** Stopping at the first unexpired head misses nobody. */
  lemma NoneExpired(s: State)
    requires Sleeping(s) && (s.sleepers == [] || s.tick < s.pcbs[s.sleepers[0]].wakeTick)
    ensures forall i | 0 <= i < MAX_PROCESSES && s.pcbs[i].wakeTick > 0 :: s.tick < s.pcbs[i].wakeTick
    ensures WakeByScan(s) == s.pcbs
  {
    forall i | 0 <= i < MAX_PROCESSES && s.pcbs[i].wakeTick > 0
      ensures s.tick < s.pcbs[i].wakeTick
    {
      var k :| 0 <= k < |s.sleepers| && s.sleepers[k] == i;
      assert k > 0 ==> s.pcbs[s.sleepers[0]].wakeTick <= s.pcbs[s.sleepers[k]].wakeTick;
    }
  }

  /** The head-only loop wakes exactly the processes a full table scan would wake. */
  lemma {:induction false} WakeHeadsIsScan(s: State)
    requires Sleeping(s)
    ensures var t := WakeHeads(s);
            && Sleeping(t) && t.pcbs == WakeByScan(s) && t.current == s.current && t.tick == s.tick
            && forall i | 0 <= i < MAX_PROCESSES && t.pcbs[i].wakeTick > 0 :: s.tick < t.pcbs[i].wakeTick
    decreases |s.sleepers|
  {
    if s.sleepers == [] || s.tick < s.pcbs[s.sleepers[0]].wakeTick {
      NoneExpired(s);
    } else {
      var h := s.sleepers[0];
      assert s.pcbs[h].wakeTick > 0;
      DropHeadSleeping(s);
      DropHeadScan(s);
      WakeHeadsIsScan(DropHead(s));
    }
  }

  // ---------------------------------------------------------------- insertion and removal

  /** Position `k` splits the queue at tick `w`: the entry before it rises no later, all from it on rise later. */
  ghost predicate SplitsAt(pcbs: seq<Pcb>, q: seq<nat>, k: nat, w: nat) {
    && (forall j | 0 <= j < |q| :: q[j] < |pcbs|) && k <= |q|
    && (k > 0 ==> pcbs[q[k - 1]].wakeTick <= w)
    && (forall j | k <= j < |q| :: w < pcbs[q[j]].wakeTick)
  }

  lemma SplitLonger(pcbs: seq<Pcb>, q: seq<nat>, p: seq<nat>, x: nat, k: nat, w: nat, i: nat)
    requires q == p + [x] && x < |pcbs| && w < pcbs[x].wakeTick && SplitsAt(pcbs, p, k, w)
    ensures SplitsAt(pcbs, q, k, w) && (p[..k] + [i] + p[k..]) + [x] == q[..k] + [i] + q[k..]
  {
    assert q[..k] == p[..k] && q[k..] == p[k..] + [x];
  }

  /** Insertion splits the queue between those rising no later and those rising later. */
  lemma {:induction false} InsertSplits(pcbs: seq<Pcb>, q: seq<nat>, i: nat) returns (k: nat)
    requires i < |pcbs| && forall k | 0 <= k < |q| :: q[k] < |pcbs|
    ensures SplitsAt(pcbs, q, k, pcbs[i].wakeTick) && Insert(pcbs, q, i) == q[..k] + [i] + q[k..]
  {
    if q == [] {
      k := 0;
    } else {
      var n := |q| - 1;
      if pcbs[q[n]].wakeTick <= pcbs[i].wakeTick {
        k := |q|;
      } else {
        k := InsertSplits(pcbs, q[..n], i);
        SplitLonger(pcbs, q, q[..n], q[n], k, pcbs[i].wakeTick, i);
      }
    }
  }

  /** `r` is `q` with `i` put in at position `k`. */
  ghost predicate PutAt(q: seq<nat>, k: nat, i: nat, r: seq<nat>) {
    && k <= |q| && |r| == |q| + 1 && r[k] == i
    && (forall j | 0 <= j < k :: r[j] == q[j])
    && (forall j | k < j < |r| :: r[j] == q[j - 1])
  }

  lemma InsertedElements(q: seq<nat>, k: nat, i: nat, r: seq<nat>)
    requires k <= |q| && r == q[..k] + [i] + q[k..]
    ensures PutAt(q, k, i, r)
    ensures i in r && forall x | x in q :: x in r
  {
    assert q == q[..k] + q[k..];
    assert r[k] == i;
  }

  lemma InsertedDistinct(q: seq<nat>, k: nat, i: nat, r: seq<nat>)
    requires PutAt(q, k, i, r) && Distinct(q) && forall j | 0 <= j < |q| :: q[j] != i
    ensures Distinct(r)
  {
  }

  lemma InsertedSorted(pcbs: seq<Pcb>, q: seq<nat>, k: nat, i: nat, r: seq<nat>)
    requires i < |pcbs| && (forall j | 0 <= j < |q| :: q[j] < |pcbs|) && Sorted(pcbs, q)
    requires PutAt(q, k, i, r)
    requires k > 0 ==> pcbs[q[k - 1]].wakeTick <= pcbs[i].wakeTick
    requires forall j | k <= j < |q| :: pcbs[i].wakeTick < pcbs[q[j]].wakeTick
    ensures (forall j | 0 <= j < |r| :: r[j] < |pcbs|) && Sorted(pcbs, r)
  {
    assert k > 0 ==> forall j | 0 <= j < k :: pcbs[q[j]].wakeTick <= pcbs[q[k - 1]].wakeTick;
  }

  lemma SleeperAdded(pcbs: seq<Pcb>, pcbs': seq<Pcb>, q: seq<nat>, k: nat, c: nat, r: seq<nat>)
    requires |pcbs| == |pcbs'| == MAX_PROCESSES && 0 < c < MAX_PROCESSES && PutAt(q, k, c, r)
    requires forall i | 0 <= i < MAX_PROCESSES && i != c :: pcbs'[i] == pcbs[i]
    requires Sleepers(pcbs, q) && pcbs[c].status == Running && pcbs'[c].status == Blocked && pcbs'[c].wakeTick > 0
    ensures Sleepers(pcbs', r)
  {
  }

  /** The running process always finds room in the sleep queue. */
  lemma QueueHasRoom(s: State)
    requires Sleeping(s) && s.current != 0 && s.pcbs[s.current].status == Running
    ensures |s.sleepers| < MAX_PROCESSES
  {
    DistinctFits(s.sleepers + [s.current], 1, MAX_PROCESSES);
  }

  /** Going to sleep never finds the queue full, and keeps it exact. */
  lemma SleepKeepsQueue(s: State, n: nat)
    requires Sleeping(s) && n > 0 && s.current != 0 && s.pcbs[s.current].status == Running
    ensures |s.sleepers| < MAX_PROCESSES && Sleeping(SleepFor(s, n))
  {
    QueueHasRoom(s);
    var c := s.current;
    var t := SleepFor(s, n);
    var k := InsertSplits(t.pcbs, s.sleepers, c);
    SleepQueueExact(s.pcbs, t.pcbs, s.sleepers, k, c, t.sleepers);
  }

  lemma SleepQueueExact(pcbs: seq<Pcb>, pcbs': seq<Pcb>, q: seq<nat>, k: nat, c: nat, r: seq<nat>)
    requires |pcbs| == |pcbs'| == MAX_PROCESSES && 0 < c < MAX_PROCESSES
    requires Sleepers(pcbs, q) && Complete(pcbs, q) && Sorted(pcbs, q) && Distinct(q)
    requires pcbs' == pcbs[c := pcbs'[c]]
    requires pcbs[c].status == Running && pcbs'[c].status == Blocked && pcbs'[c].wakeTick > 0
    requires k <= |q| && r == q[..k] + [c] + q[k..]
    requires k > 0 ==> pcbs'[q[k - 1]].wakeTick <= pcbs'[c].wakeTick
    requires forall j | k <= j < |q| :: pcbs'[c].wakeTick < pcbs'[q[j]].wakeTick
    ensures Sleepers(pcbs', r) && Complete(pcbs', r) && Sorted(pcbs', r) && Distinct(r)
  {
    InsertedElements(q, k, c, r);
    InsertedDistinct(q, k, c, r);
    SleeperAdded(pcbs, pcbs', q, k, c, r);
    assert Sorted(pcbs', q);
    InsertedSorted(pcbs', q, k, c, r);
  }

  lemma {:induction false} RemoveSplits(q: seq<nat>, i: nat) returns (k: nat)
    requires i in q
    ensures k < |q| && q[k] == i && Remove(q, i) == q[..k] + q[k + 1..]
  {
    if q[0] == i {
      k := 0;
    } else {
      k := RemoveSplits(q[1..], i);
      assert q[..k + 1] == [q[0]] + q[1..][..k] && q[k + 2..] == q[1..][k + 1..];
      k := k + 1;
    }
  }

  /** `r` is `q` without its entry at position `k`. */
  ghost predicate TakenAt(q: seq<nat>, k: nat, r: seq<nat>) {
    && k < |q| && |r| == |q| - 1
    && (forall j | 0 <= j < k :: r[j] == q[j])
    && (forall j | k <= j < |r| :: r[j] == q[j + 1])
  }

  lemma RemovedElements(q: seq<nat>, k: nat, r: seq<nat>)
    requires k < |q| && Distinct(q) && r == q[..k] + q[k + 1..]
    ensures TakenAt(q, k, r)
    ensures forall x | x in q && x != q[k] :: x in r
  {
    assert q == q[..k] + [q[k]] + q[k + 1..];
  }

  lemma RemovedQueue(pcbs: seq<Pcb>, pcbs': seq<Pcb>, q: seq<nat>, k: nat, r: seq<nat>)
    requires |pcbs| == |pcbs'| == MAX_PROCESSES && TakenAt(q, k, r) && Distinct(q)
    requires Sleepers(pcbs, q) && Sorted(pcbs, q)
    requires forall i | 0 <= i < MAX_PROCESSES && i != q[k] :: pcbs'[i] == pcbs[i]
    ensures Distinct(r) && Sleepers(pcbs', r) && Sorted(pcbs', r)
  {
  }

  lemma KillKeepsQueue(s: State, i: nat, p: Pcb)
    requires Sleeping(s) && i < MAX_PROCESSES && p.wakeTick == 0
    ensures Sleeping(Update(s, i, p).(sleepers := Remove(s.sleepers, i)))
  {
    var q := s.sleepers;
    if i in q {
      var k := RemoveSplits(q, i);
      var r := Remove(q, i);
      RemovedElements(q, k, r);
      RemovedQueue(s.pcbs, s.pcbs[i := p], q, k, r);
    } else {
      assert forall k | 0 <= k < |q| :: q[k] in q;
      UpdateKeepsSleeping(s, i, p);
    }
  }

  // ---------------------------------------------------------------- every step keeps both invariants

  /** A process that is not asleep has no wake-up time. */
  lemma AwakeHasNoTime(s: State, i: nat)
    requires Sleeping(s) && i < MAX_PROCESSES && s.pcbs[i].status != Blocked
    ensures s.pcbs[i].wakeTick == 0
  {
  }

  lemma UpdateKeepsSleeping(s: State, i: nat, p: Pcb)
    requires Sleeping(s) && i < MAX_PROCESSES && s.pcbs[i].wakeTick == 0 && p.wakeTick == 0
    ensures Sleeping(Update(s, i, p))
  {
    assert forall k | 0 <= k < |s.sleepers| :: s.sleepers[k] != i;
  }

  lemma UpdateKeeps(s: State, i: nat, p: Pcb)
    requires Sched(s) && Sleeping(s) && i < MAX_PROCESSES && s.pcbs[i].wakeTick == 0 && p.wakeTick == 0
    requires p.priority < MLFQ_LEVELS && (i == 0 ==> Candidate(p, 0)) && (i != s.current ==> p.status != Running)
    ensures Sched(Update(s, i, p)) && Sleeping(Update(s, i, p))
  {
    UpdateKeepsSleeping(s, i, p);
  }

  lemma {:induction false} BestIsLeast(pcbs: seq<Pcb>, n: nat)
    requires n <= |pcbs|
    ensures BestLevel(pcbs, n) <= MLFQ_LEVELS
    ensures forall i | 0 <= i < n && Runnable(pcbs[i]) :: BestLevel(pcbs, n) <= pcbs[i].priority
    ensures BestLevel(pcbs, n) < MLFQ_LEVELS ==> exists i | 0 <= i < n :: Candidate(pcbs[i], BestLevel(pcbs, n))
  {
    if n > 0 {
      BestIsLeast(pcbs, n - 1);
      assert BestLevel(pcbs, n) != BestLevel(pcbs, n - 1) ==> Candidate(pcbs[n - 1], BestLevel(pcbs, n));
    }
  }

  /** The scan stops at the first candidate in cyclic order. */
  lemma {:induction false} ScanStops(pcbs: seq<Pcb>, start: nat, pass: nat, level: nat, hit: nat) returns (at: nat)
    requires |pcbs| == MAX_PROCESSES && pass <= hit < MAX_PROCESSES
    requires Candidate(pcbs[(start + hit) % MAX_PROCESSES], level)
    ensures pass <= at <= hit && Scan(pcbs, start, pass, level) == (start + at) % MAX_PROCESSES
    decreases hit - pass
  {
    if Candidate(pcbs[(start + pass) % MAX_PROCESSES], level) {
      at := pass;
    } else {
      at := ScanStops(pcbs, start, pass + 1, level, hit);
    }
  }

  /** Slots after `from` up to `to`, in cyclic order. */
  function Distance(from: nat, to: nat): nat
    requires from < MAX_PROCESSES && to < MAX_PROCESSES
  {
    if from < to then to - from else to + MAX_PROCESSES - from
  }

  lemma Wrap(n: nat)
    requires n < 2 * MAX_PROCESSES
    ensures n % MAX_PROCESSES == if n < MAX_PROCESSES then n else n - MAX_PROCESSES
  {
  }

  lemma CyclicSlot(from: nat, to: nat)
    requires from < MAX_PROCESSES && to < MAX_PROCESSES
    ensures ((from + 1) % MAX_PROCESSES + Distance(from, to) - 1) % MAX_PROCESSES == to
  {
    Wrap(from + 1);
    Wrap((from + 1) % MAX_PROCESSES + Distance(from, to) - 1);
  }

  lemma CyclicDistance(from: nat, at: nat)
    requires from < MAX_PROCESSES && at < MAX_PROCESSES
    ensures Distance(from, ((from + 1) % MAX_PROCESSES + at) % MAX_PROCESSES) == at + 1
  {
    Wrap(from + 1);
    Wrap((from + 1) % MAX_PROCESSES + at);
  }

  /** The choice falls on a level-0 process no further round than any given level-0 candidate. */
  lemma PickIsNearest(s: State, t: nat)
    requires Typed(s) && t < MAX_PROCESSES && Candidate(s.pcbs[t], 0)
    ensures var n := PickNext(s.pcbs, (s.current + 1) % MAX_PROCESSES);
            && n < MAX_PROCESSES && Candidate(s.pcbs[n], 0)
            && Distance(s.current, n) <= Distance(s.current, t)
  {
    BestIsLeast(s.pcbs, MAX_PROCESSES);
    CyclicSlot(s.current, t);
    var at := ScanStops(s.pcbs, (s.current + 1) % MAX_PROCESSES, 0, 0, Distance(s.current, t) - 1);
    CyclicDistance(s.current, at);
  }

  lemma TickWakes(s: State)
    requires Sched(s) && Sleeping(s)
    ensures var w := WakeHeads(s.(tick := s.tick + 1));
            && Sched(w) && Sleeping(w) && w.current == s.current
            && forall t | 0 <= t < MAX_PROCESSES && Waiting(s, t) :: Waiting(w, t)
  {
    WakeHeadsIsScan(s.(tick := s.tick + 1));
  }

  lemma ChargeKeeps(s: State, countTick: bool)
    requires Sched(s) && Sleeping(s)
    ensures var t := Update(s, s.current, Charge(s.pcbs[s.current], s.current == 0, countTick)); Sched(t) && Sleeping(t)
  {
    var p := s.pcbs[s.current];
    if p.status == Running {
      AwakeHasNoTime(s, s.current);
      UpdateKeeps(s, s.current, Charge(p, s.current == 0, countTick));
    } else {
      assert s.pcbs[s.current := p] == s.pcbs;
    }
  }

  lemma AccountKeeps(s: State, countTick: bool)
    requires Sched(s) && Sleeping(s)
    ensures var t := Account(s, countTick);
            && Sched(t) && Sleeping(t) && t.current == s.current
            && forall i | 0 <= i < MAX_PROCESSES && Waiting(s, i) :: Waiting(t, i)
  {
    if countTick {
      TickWakes(s);
      ChargeKeeps(WakeHeads(s.(tick := s.tick + 1)), true);
    } else {
      ChargeKeeps(s, false);
    }
  }

  /** After a dispatch exactly one process is running, and it is the current one. */
  ghost predicate OneRunning(s: State) {
    Typed(s) && forall i | 0 <= i < MAX_PROCESSES :: s.pcbs[i].status == Running <==> i == s.current
  }

  lemma SwitchToKeeps(s: State, next: nat)
    requires Sched(s) && Sleeping(s) && next < MAX_PROCESSES && Runnable(s.pcbs[next])
    ensures var t := SwitchTo(s, next); Sched(t) && Sleeping(t) && OneRunning(t)
  {
    var cur := s.pcbs[s.current];
    AwakeHasNoTime(s, next);
    var mid := if s.current != next && cur.status == Running then Update(s, s.current, cur.(status := Ready)) else s;
    if s.current != next && cur.status == Running {
      AwakeHasNoTime(s, s.current);
      UpdateKeeps(s, s.current, cur.(status := Ready));
    }
    UpdateKeepsSleeping(mid, next, mid.pcbs[next].(status := Running));
  }

  lemma SwitchKeeps(s: State)
    requires Sched(s) && Sleeping(s)
    ensures var t := Switch(s); Sched(t) && Sleeping(t) && OneRunning(t)
    ensures Switch(s).current == PickNext(s.pcbs, (s.current + 1) % MAX_PROCESSES)
  {
    PickIsNearest(s, 0);
    SwitchToKeeps(s, PickNext(s.pcbs, (s.current + 1) % MAX_PROCESSES));
  }

  lemma DispatchKeeps(s: State, countTick: bool)
    requires Sched(s) && Sleeping(s)
    ensures var t := Dispatch(s, countTick); Sched(t) && Sleeping(t) && OneRunning(t)
  {
    AccountKeeps(s, countTick);
    SwitchKeeps(Account(s, countTick));
  }

  lemma SleepKeeps(s: State, n: nat)
    requires Sched(s) && Sleeping(s) && Enabled(s, Sleep(n))
    ensures Sched(SleepFor(s, n)) && Sleeping(SleepFor(s, n))
  {
    SleepKeepsQueue(s, n);
  }

  lemma KillKeeps(s: State, i: nat)
    requires Sched(s) && Sleeping(s) && Enabled(s, Kill(i))
    ensures Sched(KillSlot(s, i)) && Sleeping(KillSlot(s, i))
  {
    var p := s.pcbs[i].(status := Terminated, wakeTick := 0, hasStack := false);
    KillKeepsQueue(s, i, p);
    if i == s.current {
      DispatchKeeps(Update(s, i, p).(sleepers := Remove(s.sleepers, i)), false);
    }
  }

  lemma AdjustKeeps(s: State, i: nat, v: nat)
    requires Sched(s) && Sleeping(s) && 0 < i < MAX_PROCESSES && v < MLFQ_LEVELS
    ensures var t := Update(s, i, s.pcbs[i].(priority := v)); Sched(t) && Sleeping(t)
  {
    var t := Update(s, i, s.pcbs[i].(priority := v));
    assert forall j | 0 <= j < MAX_PROCESSES ::
        t.pcbs[j].wakeTick == s.pcbs[j].wakeTick && t.pcbs[j].status == s.pcbs[j].status;
  }

  lemma StepKeeps(s: State, a: Action)
    requires Sched(s) && Sleeping(s) && Enabled(s, a)
    ensures Sched(Step(s, a)) && Sleeping(Step(s, a))
    ensures a.Tick? || a.Yield? ==> OneRunning(Step(s, a))
  {
    match a {
      case Tick => DispatchKeeps(s, true);
      case Yield => DispatchKeeps(s, false);
      case Sleep(n) => SleepKeeps(s, n);
      case Kill(i) => KillKeeps(s, i);
      case Adjust(i, v) => AdjustKeeps(s, i, v);
      case _ => LocalKeeps(s, a);
    }
  }

  /** Actions that rewrite one PCB. */
  lemma LocalKeeps(s: State, a: Action)
    requires Sched(s) && Sleeping(s) && Enabled(s, a)
    requires a.BlockForever? || a.Exit? || a.Create? || a.Wake?
    ensures Sched(Step(s, a)) && Sleeping(Step(s, a))
  {
    var cur := s.pcbs[s.current];
    if a.Wake? {
      if s.pcbs[a.slot].status == Blocked {
        UpdateKeeps(s, a.slot, WakeOne(s, a.slot).pcbs[a.slot]);
      }
    } else {
      AwakeHasNoTime(s, s.current);
      if a.Create? {
        var i := FreeSlot(s.pcbs, 1);
        if i < MAX_PROCESSES {
          AwakeHasNoTime(s, i);
          UpdateKeeps(s, i, Born(a.birth, cur));
        }
      } else if a.Exit? {
        UpdateKeeps(s, s.current, cur.(status := Terminated, hasStack := false));
      } else {
        UpdateKeeps(s, s.current, cur.(status := Blocked, wakeTick := 0));
      }
    }
  }

  // ---------------------------------------------------------------- what each action does

  /** All processes but `i` are as they were, and so is the clock. */
  predicate OthersSame(s: State, t: State, i: nat) {
    && |s.pcbs| == |t.pcbs| == MAX_PROCESSES && t.tick == s.tick
    && forall j | 0 <= j < MAX_PROCESSES && j != i :: t.pcbs[j] == s.pcbs[j]
  }

  /** Whether a sleeper's time has come at tick `now`. */
  predicate Due(p: Pcb, now: nat) { p.status == Blocked && 0 < p.wakeTick <= now }

  /** From p to q, a sleeper was woken: ready at the top level with a full quantum. */
  predicate Roused(p: Pcb, q: Pcb) {
    && q.status == Ready && q.priority == 0 && q.quantum == 4 && q.ticksUsed == 0 && q.wakeTick == 0
    && q.hasStack == p.hasStack
  }

  /** The head-only loop rouses every sleeper whose time has come and takes it off the queue; nobody else changes. */
  lemma WakesExactly(s: State)
    requires Sleeping(s)
    ensures var t := WakeHeads(s);
            && t.tick == s.tick && t.current == s.current
            && (forall i | 0 <= i < MAX_PROCESSES && Due(s.pcbs[i], s.tick) ::
                  Roused(s.pcbs[i], t.pcbs[i]) && i !in t.sleepers)
            && (forall i | 0 <= i < MAX_PROCESSES && !Due(s.pcbs[i], s.tick) ::
                  t.pcbs[i] == s.pcbs[i] && (i in t.sleepers <==> i in s.sleepers))
  {
    WakeHeadsIsScan(s);
    var t := WakeHeads(s);
    forall i | 0 <= i < MAX_PROCESSES
      ensures i in t.sleepers <==> t.pcbs[i].wakeTick > 0
      ensures i in s.sleepers <==> s.pcbs[i].wakeTick > 0
    {
      QueuedHasTime(s, i);
      QueuedHasTime(t, i);
    }
  }

  lemma QueuedHasTime(s: State, i: nat)
    requires Sleeping(s) && i < MAX_PROCESSES
    ensures i in s.sleepers <==> s.pcbs[i].wakeTick > 0
  {
    assert forall k | 0 <= k < |s.sleepers| :: s.pcbs[s.sleepers[k]].wakeTick > 0;
  }

  /** From s to w, the clock has moved on and exactly those sleepers were roused whose time had come. */
  predicate Moved(s: State, w: State, now: nat)
    requires |s.pcbs| == |w.pcbs| == MAX_PROCESSES
  {
    && w.tick == now && w.current == s.current
    && (forall i | 0 <= i < MAX_PROCESSES && now > s.tick && Due(s.pcbs[i], now) ::
          Roused(s.pcbs[i], w.pcbs[i]) && i !in w.sleepers)
    && (forall i | 0 <= i < MAX_PROCESSES && !(now > s.tick && Due(s.pcbs[i], now)) ::
          w.pcbs[i] == s.pcbs[i] && (i in w.sleepers <==> i in s.sleepers))
  }

  lemma TickMoves(s: State)
    requires Sched(s) && Sleeping(s)
    ensures Moved(s, WakeHeads(s.(tick := s.tick + 1)), s.tick + 1)
  {
    var s' := s.(tick := s.tick + 1);
    TickWakes(s);
    WakesExactly(s');
    assert forall i | 0 <= i < MAX_PROCESSES :: Due(s'.pcbs[i], s'.tick) <==> Due(s.pcbs[i], s.tick + 1);
  }

  /** The charge touches only the current process, and only if it was running. */
  predicate ChargedOnly(s: State, t: State, now: nat, q: Pcb)
    requires |s.pcbs| == |t.pcbs| == MAX_PROCESSES
  {
    && t.tick == now && t.current == s.current < MAX_PROCESSES
    && (forall i | 0 <= i < MAX_PROCESSES && now > s.tick && Due(s.pcbs[i], now) ::
          Roused(s.pcbs[i], t.pcbs[i]) && i !in t.sleepers)
    && (forall i | 0 <= i < MAX_PROCESSES && !(now > s.tick && Due(s.pcbs[i], now)) ::
          && (i in t.sleepers <==> i in s.sleepers)
          && (i != s.current || s.pcbs[i].status != Running ==> t.pcbs[i] == s.pcbs[i]))
    && (s.pcbs[s.current].status == Running ==> t.pcbs[s.current] == q)
  }

  lemma ChargeOne(s: State, w: State, now: nat, q: Pcb)
    requires |s.pcbs| == |w.pcbs| == MAX_PROCESSES && s.current < MAX_PROCESSES && Moved(s, w, now)
    requires w.pcbs[s.current].status != Running ==> q == w.pcbs[s.current]
    ensures ChargedOnly(s, w.(pcbs := w.pcbs[w.current := q]), now, q)
  {
  }

  lemma AccountMeans(s: State, countTick: bool)
    requires Sched(s) && Sleeping(s)
    ensures ChargedOnly(s, Account(s, countTick), if countTick then s.tick + 1 else s.tick,
              Charge(s.pcbs[s.current], s.current == 0, countTick))
  {
    if countTick {
      TickMoves(s);
      var w := WakeHeads(s.(tick := s.tick + 1));
      ChargeOne(s, w, s.tick + 1, Charge(w.pcbs[s.current], s.current == 0, true));
    } else {
      ChargeOne(s, s, s.tick, Charge(s.pcbs[s.current], s.current == 0, false));
    }
  }

  /** The process chosen runs, the one that ran is ready; nothing else changes. */
  lemma SwitchMeans(s: State)
    requires Sched(s) && Sleeping(s)
    ensures var t := Switch(s);
            && t.tick == s.tick && t.sleepers == s.sleepers && t.current < MAX_PROCESSES && Runnable(s.pcbs[t.current])
            && |t.pcbs| == MAX_PROCESSES
            && forall i | 0 <= i < MAX_PROCESSES ::
                 t.pcbs[i] == if i == t.current then s.pcbs[i].(status := Running)
                              else if i == s.current && s.pcbs[i].status == Running then s.pcbs[i].(status := Ready)
                              else s.pcbs[i]
  {
    PickIsNearest(s, 0);
  }

  /** What a dispatch makes of a process that was not running: nothing, or it is chosen. */
  predicate Passed(p: Pcb, q: Pcb, chosen: bool) {
    q == if chosen then p.(status := Running) else p
  }

  /**
    A dispatch.  On a tick the clock moves on by one and exactly those sleepers are roused whose time
    has come; apart from that only the process that ran and the one that is chosen change.
   */
  lemma DispatchMeans(s: State, countTick: bool)
    requires Sched(s) && Sleeping(s)
    ensures var t, now := Dispatch(s, countTick), if countTick then s.tick + 1 else s.tick;
            && t.tick == now && |t.pcbs| == MAX_PROCESSES
            && (forall i | 0 <= i < MAX_PROCESSES && countTick && Due(s.pcbs[i], now) ::
                  i !in t.sleepers && Roused(s.pcbs[i], t.pcbs[i].(status := Ready)) && Runnable(t.pcbs[i]))
            && (forall i | 0 <= i < MAX_PROCESSES && !(countTick && Due(s.pcbs[i], now)) ::
                  && (i in t.sleepers <==> i in s.sleepers)
                  && (i != s.current || s.pcbs[i].status != Running ==> Passed(s.pcbs[i], t.pcbs[i], i == t.current))
                  && (i == t.current ==> Runnable(s.pcbs[i])))
  {
    AccountMeans(s, countTick);
    AccountKeeps(s, countTick);
    SwitchMeans(Account(s, countTick));
    forall i | 0 <= i < MAX_PROCESSES && i == Dispatch(s, countTick).current
      ensures Runnable(Account(s, countTick).pcbs[i])
    {
    }
  }

  /**
    What a dispatch charges the running process other than the shell: one unit, in eight bits; and on a tick, if
    that uses up its quantum, it drops a level, the lowest excepted, and starts on the
    quantum of its new level.
   */
  lemma ChargeMeans(s: State, countTick: bool)
    requires Sched(s) && Sleeping(s) && s.current != 0 && s.pcbs[s.current].status == Running
    ensures var p, q := s.pcbs[s.current], Dispatch(s, countTick).pcbs[s.current];
            var used := if p.ticksUsed % 256 == 255 then 0 else p.ticksUsed % 256 + 1;
            && q.wakeTick == p.wakeTick && q.hasStack == p.hasStack && Runnable(q)
            && if countTick && used >= p.quantum
               then
                 && q.ticksUsed == 0 && q.priority == (if p.priority == 2 then 2 else p.priority + 1)
                 && q.quantum == if q.priority == 0 then 4 else if q.priority == 1 then 8 else 16
               else q.ticksUsed == used && q.priority == p.priority && q.quantum == p.quantum
  {
    AccountMeans(s, countTick);
    AccountKeeps(s, countTick);
    SwitchMeans(Account(s, countTick));
    ChargeAlone(s.pcbs[s.current], countTick);
  }

  lemma ChargeAlone(p: Pcb, countTick: bool)
    requires p.status == Running && p.priority < MLFQ_LEVELS
    ensures var q := Charge(p, false, countTick);
            var used := if p.ticksUsed % 256 == 255 then 0 else p.ticksUsed % 256 + 1;
            && q.status == Running && q.wakeTick == p.wakeTick && q.hasStack == p.hasStack
            && if countTick && used >= p.quantum
               then
                 && q.ticksUsed == 0 && q.priority == (if p.priority == 2 then 2 else p.priority + 1)
                 && q.quantum == if q.priority == 0 then 4 else if q.priority == 1 then 8 else 16
               else q.ticksUsed == used && q.priority == p.priority && q.quantum == p.quantum
  {
  }

  /** The shell is never charged. */
  lemma ShellKept(s: State, countTick: bool)
    requires Sched(s) && Sleeping(s) && s.current == 0 && s.pcbs[0].status == Running
    ensures var q := Dispatch(s, countTick).pcbs[0]; q.priority == 0 && q.quantum == 4 && q.ticksUsed == 0
  {
    AccountMeans(s, countTick);
    AccountKeeps(s, countTick);
    SwitchMeans(Account(s, countTick));
  }

  /** A new process gets the lowest vacant slot; without one nothing happens. */
  lemma CreateMeans(s: State, birth: Birth)
    requires Typed(s) && Enabled(s, Create(birth))
    ensures var t, cur := Step(s, Create(birth)), s.pcbs[s.current];
            if forall j | 1 <= j < MAX_PROCESSES :: !Vacant(s.pcbs[j]) then t == s
            else exists i ::
              && 1 <= i < MAX_PROCESSES && Vacant(s.pcbs[i]) && (forall j | 1 <= j < i :: !Vacant(s.pcbs[j]))
              && OthersSame(s, t, i) && t.current == s.current && t.sleepers == s.sleepers
              && t.pcbs[i].status == Ready && t.pcbs[i].hasStack
              && t.pcbs[i].ticksUsed == 0 && t.pcbs[i].wakeTick == 0
              && t.pcbs[i].priority == (if birth == Process then 0 else cur.priority)
              && t.pcbs[i].quantum == if birth == Fork then cur.quantum else 4
  {
    var i := FreeSlot(s.pcbs, 1);
    var t := Step(s, Create(birth));
    assert i < MAX_PROCESSES ==> Vacant(s.pcbs[i]) && OthersSame(s, t, i) && t.pcbs[i].status == Ready;
  }

  /** A process that exits is gone, its slot can be taken again, and the next dispatch runs another one. */
  lemma ExitMeans(s: State)
    requires Sched(s) && Sleeping(s) && Enabled(s, Exit)
    ensures var t := Step(s, Exit);
            && OthersSame(s, t, s.current) && t.sleepers == s.sleepers && Vacant(t.pcbs[s.current])
            && Step(t, Yield).current != s.current && Vacant(Step(t, Yield).pcbs[s.current])
  {
    StepKeeps(s, Exit);
    var t := Step(s, Exit);
    DispatchMeans(t, false);
    DispatchKeeps(t, false);
    assert Passed(t.pcbs[s.current], Step(t, Yield).pcbs[s.current], false);
  }

  /** A killed process is gone from the table and from the sleep queue; if it was running, another one runs. */
  lemma KillMeans(s: State, i: nat)
    requires Sched(s) && Sleeping(s) && Enabled(s, Kill(i))
    ensures var t := Step(s, Kill(i));
            && Vacant(t.pcbs[i]) && t.pcbs[i].wakeTick == 0 && i !in t.sleepers && t.tick == s.tick
            && (forall j | 0 <= j < MAX_PROCESSES && j in s.sleepers && j != i :: j in t.sleepers)
            && if i != s.current then OthersSame(s, t, i) && t.current == s.current
               else t.current != i && OneRunning(t)
  {
    var k := Killed(s, i);
    KilledMeans(s, i);
    if i == s.current {
      DispatchMeans(k, false);
      DispatchKeeps(k, false);
      assert Passed(k.pcbs[i], Step(s, Kill(i)).pcbs[i], i == Step(s, Kill(i)).current);
    }
  }

  /** The state just after the kill, before anybody else is chosen. */
  function Killed(s: State, i: nat): State
    requires Typed(s) && i < MAX_PROCESSES
  {
    Update(s, i, s.pcbs[i].(status := Terminated, wakeTick := 0, hasStack := false))
        .(sleepers := Remove(s.sleepers, i))
  }

  lemma KilledMeans(s: State, i: nat)
    requires Sched(s) && Sleeping(s) && 0 < i < MAX_PROCESSES
    ensures var k := Killed(s, i);
            && Sched(k) && Sleeping(k) && i !in k.sleepers && (forall j | j in s.sleepers && j != i :: j in k.sleepers)
            && OthersSame(s, k, i) && k.current == s.current && Vacant(k.pcbs[i]) && k.pcbs[i].wakeTick == 0
  {
    var k := Killed(s, i);
    KillKeepsQueue(s, i, k.pcbs[i]);
    NotQueued(k, i);
    RemoveOthers(s.sleepers, i);
  }

  lemma NotQueued(s: State, i: nat)
    requires Typed(s) && Sleepers(s.pcbs, s.sleepers) && i < MAX_PROCESSES && s.pcbs[i].status != Blocked
    ensures i !in s.sleepers
  {
    assert forall n | 0 <= n < |s.sleepers| :: s.pcbs[s.sleepers[n]].status == Blocked;
  }

  /** A process that blocks is not run by the next dispatch, and only its own entry changes. */
  lemma BlockMeans(s: State)
    requires Sched(s) && Sleeping(s) && Enabled(s, BlockForever)
    ensures var t, c := Step(s, BlockForever), s.current;
            && OthersSame(s, t, c) && t.current == c && t.sleepers == s.sleepers
            && t.pcbs[c].status == Blocked && t.pcbs[c].wakeTick == 0 && t.pcbs[c].priority == s.pcbs[c].priority
            && Step(t, Yield).current != c && Step(t, Yield).pcbs[c] == t.pcbs[c]
  {
    StepKeeps(s, BlockForever);
    var t := Step(s, BlockForever);
    DispatchMeans(t, false);
    DispatchKeeps(t, false);
    assert Passed(t.pcbs[s.current], Step(t, Yield).pcbs[s.current], s.current == Step(t, Yield).current);
  }

  /** The mutexes change one priority and nothing else. */
  lemma AdjustMeans(s: State, i: nat, v: nat)
    requires Typed(s) && Enabled(s, Adjust(i, v))
    ensures var t := Step(s, Adjust(i, v));
            && OthersSame(s, t, i) && t.current == s.current && t.sleepers == s.sleepers
            && t.pcbs[i] == s.pcbs[i].(priority := v)
  {
  }

  lemma {:induction false} RemoveOthers(q: seq<nat>, i: nat)
    ensures forall j | j in q && j != i :: j in Remove(q, i)
  {
    if q != [] {
      RemoveOthers(q[1..], i);
      assert forall j | j in q :: j == q[0] || j in q[1..];
    }
  }

  /** A blocked waiter becomes ready, with a quantum and at its old level; anybody else is left alone. */
  lemma WakeMeans(s: State, i: nat)
    requires Typed(s) && Enabled(s, Wake(i))
    ensures var t, p, q := Step(s, Wake(i)), s.pcbs[i], Step(s, Wake(i)).pcbs[i];
            if p.status != Blocked then t == s
            else
              && OthersSame(s, t, i) && t.current == s.current && t.sleepers == s.sleepers
              && q.status == Ready && q.priority == p.priority && q.wakeTick == 0 && q.ticksUsed == 0
              && q.hasStack == p.hasStack && q.quantum > 0 && (p.quantum > 0 ==> q.quantum == p.quantum)
  {
  }

  // ---------------------------------------------------------------- runs

  ghost predicate IsRun(s: State, actions: seq<Action>, t: State)
    decreases |actions|
  {
    if actions == [] then t == s
    else Typed(s) && Enabled(s, actions[0]) && IsRun(Step(s, actions[0]), actions[1..], t)
  }

  lemma BootKeeps()
    ensures Sched(Boot()) && Sleeping(Boot()) && OneRunning(Boot())
    ensures Boot().current == 0 && Boot().tick == 0 && Boot().sleepers == []
    ensures forall i | 1 <= i < MAX_PROCESSES :: Vacant(Boot().pcbs[i])
  {
  }

  lemma {:induction false} RunKeeps(s: State, actions: seq<Action>, t: State)
    requires Sched(s) && Sleeping(s) && IsRun(s, actions, t)
    ensures Sched(t) && Sleeping(t)
    decreases |actions|
  {
    if actions != [] {
      StepKeeps(s, actions[0]);
      RunKeeps(Step(s, actions[0]), actions[1..], t);
    }
  }

  /**
    Both invariants hold in every reachable state, so a dispatch always finds a process, and
    afterwards exactly one is running, the current one.
   */
  lemma EveryRun(actions: seq<Action>, t: State, countTick: bool)
    requires IsRun(Boot(), actions, t)
    ensures Sched(t) && Sleeping(t)
    ensures OneRunning(Dispatch(t, countTick))
  {
    BootKeeps();
    RunKeeps(Boot(), actions, t);
    DispatchKeeps(t, countTick);
  }

  // ---------------------------------------------------------------- sleeping until the time has come

  /** Process `c` sleeps until tick `w`. */
  predicate Asleep(s: State, c: nat, w: nat) {
    c < |s.pcbs| && s.pcbs[c].status == Blocked && s.pcbs[c].wakeTick == w > 0 && c in s.sleepers
  }

  /** Process `c` can run, at the top level. */
  predicate Awake(s: State, c: nat) {
    c < |s.pcbs| && Runnable(s.pcbs[c]) && s.pcbs[c].priority == 0 && s.pcbs[c].wakeTick == 0 && c !in s.sleepers
  }

  /** Going to sleep for `n` ticks; nobody else is concerned. */
  lemma FallsAsleep(s: State, n: nat)
    requires Sched(s) && Sleeping(s) && Enabled(s, Sleep(n))
    ensures var t := Step(s, Sleep(n));
            && Asleep(t, s.current, s.tick + n) && OthersSame(s, t, s.current) && t.current == s.current
            && forall j | j in s.sleepers :: j in t.sleepers
  {
    SleepKeepsQueue(s, n);
    var t := Step(s, Sleep(n));
    forall j | j in s.sleepers
      ensures j in t.sleepers
    {
      QueuedHasTime(s, j);
      QueuedHasTime(t, j);
    }
  }

  /** Time passes only by ticks. */
  lemma TicksAdd(s: State, a: Action)
    requires Sched(s) && Sleeping(s) && Enabled(s, a)
    ensures Step(s, a).tick == s.tick + if a == Tick then 1 else 0
  {
    match a {
      case Tick => DispatchMeans(s, true);
      case Yield => DispatchMeans(s, false);
      case Kill(i) => KillMeans(s, i);
      case _ =>
    }
  }

  /** A sleeper sleeps on through everything but the tick it waits for and being killed. */
  lemma SleepsOn(s: State, a: Action, c: nat, w: nat)
    requires Sched(s) && Sleeping(s) && Enabled(s, a) && Asleep(s, c, w) && a != Kill(c)
    requires a == Tick ==> s.tick + 1 < w
    ensures Asleep(Step(s, a), c, w)
  {
    match a {
      case Tick => DispatchMeans(s, true); DispatchKeeps(s, true);
      case Yield => DispatchMeans(s, false); DispatchKeeps(s, false);
      case Sleep(n) => FallsAsleep(s, n);
      case Kill(i) => SurvivesKill(s, i, c, w);
      case _ =>
    }
  }

  lemma SurvivesKill(s: State, i: nat, c: nat, w: nat)
    requires Sched(s) && Sleeping(s) && Enabled(s, Kill(i)) && Asleep(s, c, w) && i != c
    ensures Asleep(Step(s, Kill(i)), c, w)
  {
    KilledMeans(s, i);
    if i == s.current {
      DispatchMeans(Killed(s, i), false);
      DispatchKeeps(Killed(s, i), false);
    }
  }

  lemma {:induction false} SleepRun(s: State, c: nat, w: nat, actions: seq<Action>, t: State)
    requires Sched(s) && Sleeping(s) && IsRun(s, actions, t) && Kill(c) !in actions
    requires s.tick < w ==> Asleep(s, c, w)
    ensures t.tick < w ==> Asleep(t, c, w)
    decreases |actions|
  {
    if actions != [] {
      var a := actions[0];
      StepKeeps(s, a);
      TicksAdd(s, a);
      if Step(s, a).tick < w {
        SleepsOn(s, a, c, w);
      }
      SleepRun(Step(s, a), c, w, actions[1..], t);
    }
  }

  /**
    A process that sleeps `n` ticks from tick k on is asleep as long as the clock is below k + n,
    whatever happens short of killing it; and the tick that brings the clock to k + n makes it
    ready at the top level, or running.
   */
  lemma SleepsUntil(s: State, n: nat, actions: seq<Action>, t: State)
    requires Sched(s) && Sleeping(s) && Enabled(s, Sleep(n))
    requires IsRun(Step(s, Sleep(n)), actions, t) && Kill(s.current) !in actions
    ensures Typed(t)
    ensures t.tick < s.tick + n ==> Asleep(t, s.current, s.tick + n)
    ensures t.tick == s.tick + n - 1 ==> Step(t, Tick).tick == s.tick + n && Awake(Step(t, Tick), s.current)
  {
    StepKeeps(s, Sleep(n));
    FallsAsleep(s, n);
    SleepRun(Step(s, Sleep(n)), s.current, s.tick + n, actions, t);
    RunKeeps(Step(s, Sleep(n)), actions, t);
    if t.tick == s.tick + n - 1 {
      DispatchMeans(t, true);
    }
  }

  // ---------------------------------------------------------------- fairness

  /** `t` is ready at level 0. */
  predicate Waiting(s: State, t: nat) {
    t < |s.pcbs| && s.pcbs[t].status == Ready && s.pcbs[t].priority == 0
  }

  /** Dispatches in a run; killing the current process dispatches too. */
  function Dispatches(s: State, a: Action): nat {
    if a == Tick || a == Yield || a == Kill(s.current) then 1 else 0
  }

  /** `t` waits in every state of the run, the last one included. */
  ghost predicate WaitsThrough(s: State, actions: seq<Action>, t: nat)
    requires Typed(s)
    decreases |actions|
  {
    && Waiting(s, t)
    && (actions != [] ==> Enabled(s, actions[0]) && WaitsThrough(Step(s, actions[0]), actions[1..], t))
  }

  ghost function CountDispatches(s: State, actions: seq<Action>): nat
    requires Typed(s)
    decreases |actions|
  {
    if actions == [] || !Enabled(s, actions[0]) then 0
    else Dispatches(s, actions[0]) + CountDispatches(Step(s, actions[0]), actions[1..])
  }

  /** A dispatch that passes over a waiting process brings the cyclic position closer to it. */
  lemma DispatchApproaches(s: State, countTick: bool, t: nat)
    requires Sched(s) && Sleeping(s) && Waiting(s, t)
    ensures var d := Dispatch(s, countTick);
            d.current == t || Distance(d.current, t) < Distance(s.current, t)
  {
    AccountKeeps(s, countTick);
    SwitchApproaches(Account(s, countTick), t);
  }

  lemma SwitchApproaches(s: State, t: nat)
    requires Sched(s) && Sleeping(s) && Waiting(s, t)
    ensures var n := Switch(s).current; n == t || Distance(n, t) < Distance(s.current, t)
  {
    SwitchKeeps(s);
    PickIsNearest(s, t);
  }

  lemma StepApproaches(s: State, a: Action, t: nat)
    requires Sched(s) && Sleeping(s) && Enabled(s, a) && Waiting(s, t) && Waiting(Step(s, a), t)
    ensures Distance(Step(s, a).current, t) + Dispatches(s, a) <= Distance(s.current, t)
  {
    if a.Tick? || a.Yield? {
      DispatchKeeps(s, a.Tick?);
      DispatchApproaches(s, a.Tick?, t);
    } else if a == Kill(s.current) {
      KillApproaches(s, t);
    }
  }

  lemma KillApproaches(s: State, t: nat)
    requires Sched(s) && Sleeping(s) && Enabled(s, Kill(s.current)) && Waiting(s, t)
    requires Waiting(KillSlot(s, s.current), t)
    ensures Distance(KillSlot(s, s.current).current, t) < Distance(s.current, t)
  {
    var i := s.current;
    var p := s.pcbs[i].(status := Terminated, wakeTick := 0, hasStack := false);
    var k := Update(s, i, p).(sleepers := Remove(s.sleepers, i));
    KillKeepsQueue(s, i, p);
    DispatchKeeps(k, false);
    if t == i {
      DeadStaysDead(k);
    } else {
      DispatchApproaches(k, false, t);
    }
  }

  /** A terminated current process is still terminated after a dispatch. */
  lemma DeadStaysDead(s: State)
    requires Sched(s) && Sleeping(s) && s.pcbs[s.current].status == Terminated
    ensures Dispatch(s, false).pcbs[s.current].status == Terminated
  {
    AccountKeeps(s, false);
    var a := Account(s, false);
    assert a.pcbs[s.current].status == Terminated;
    PickIsNearest(a, 0);
  }

  /**
    Fairness: while a process stays ready at level 0, fewer dispatches happen than its cyclic
    distance from the current slot; so it is dispatched within 15 dispatches, or 16 when it
    sits in the current slot.
   */
  lemma {:induction false} WaitIsBounded(s: State, actions: seq<Action>, t: nat)
    requires Sched(s) && Sleeping(s) && WaitsThrough(s, actions, t)
    ensures CountDispatches(s, actions) < Distance(s.current, t) <= MAX_PROCESSES
    decreases |actions|
  {
    if actions != [] {
      StepKeeps(s, actions[0]);
      StepApproaches(s, actions[0], t);
      WaitIsBounded(Step(s, actions[0]), actions[1..], t);
    }
  }

  // ---------------------------------------------------------------- the implementation

  /** A queue without its entry at `at`. */
  lemma CutOut(q: seq<nat>, at: nat, r: seq<nat>)
    requires at < |q| == |r| + 1 && forall k | 0 <= k < |q| :: q[k] < MAX_PROCESSES
    requires (forall j | 0 <= j < at :: r[j] == q[j]) && (forall j | at <= j < |r| :: r[j] == q[j + 1])
    ensures r == q[..at] + q[at + 1..] && forall k | 0 <= k < |r| :: r[k] < MAX_PROCESSES
  {
  }

  class Kernel {
    const pcbs: array<Pcb>
    var current: nat
    var tick: nat
    const queue: array<nat>
    var count: nat

    ghost predicate Valid()
      reads this, pcbs, queue
    {
      pcbs.Length == queue.Length == MAX_PROCESSES && count <= MAX_PROCESSES && Typed(View())
    }

    ghost function View(): State
      reads this, pcbs, queue
      requires count <= queue.Length
    {
      State(pcbs[..], current, tick, queue[..count])
    }

    constructor ()
      ensures Valid() && fresh(pcbs) && fresh(queue) && View() == Boot()
    {
      pcbs := new Pcb[MAX_PROCESSES](i => if i == 0 then Pcb(Running, 0, 4, 0, 0, false)
          else Pcb(Terminated, 0, 0, 0, 0, false));
      current, tick := 0, 0;
      queue := new nat[MAX_PROCESSES](_ => 0);
      count := 0;
    }

    /** Shifts the later risers up by one and returns the place that opens. */
    method OpenPlace(i: nat, ghost q: seq<nat>) returns (pos: nat)
      requires pcbs.Length == queue.Length == MAX_PROCESSES && count < MAX_PROCESSES && i < MAX_PROCESSES
      requires q == queue[..count] && forall k | 0 <= k < |q| :: q[k] < MAX_PROCESSES
      modifies queue
      ensures pos <= count
      ensures (forall k | 0 <= k < pos :: queue[k] == q[k]) && (forall k | pos < k <= count :: queue[k] == q[k - 1])
      ensures pos > 0 ==> pcbs[q[pos - 1]].wakeTick <= pcbs[i].wakeTick
      ensures forall k | pos <= k < |q| :: pcbs[i].wakeTick < pcbs[q[k]].wakeTick
    {
      pos := count;
      while pos > 0
        invariant pos <= count
        invariant (forall k | 0 <= k < pos :: queue[k] == q[k]) && (forall k | pos < k <= count :: queue[k] == q[k - 1])
        invariant forall k | pos <= k < |q| :: pcbs[i].wakeTick < pcbs[q[k]].wakeTick
      {
        var prev := queue[pos - 1];
        if pcbs[prev].wakeTick <= pcbs[i].wakeTick {
          break;
        }
        queue[pos] := prev;
        pos := pos - 1;
      }
    }

    method SleepQueueInsert(i: nat)
      requires Valid() && i < MAX_PROCESSES
      modifies queue, this`count
      ensures Valid() && View() == old(View()).(sleepers := SleepInsert(pcbs[..], old(View()).sleepers, i))
    {
      if count >= MAX_PROCESSES {
        return;
      }
      ghost var q := queue[..count];
      var pos := OpenPlace(i, q);
      queue[pos] := i;
      count := count + 1;
      InsertHere(pcbs[..], q, i, pos, queue[..count]);
    }

    method SleepQueueRemove(i: nat)
      requires Valid()
      modifies queue, this`count
      ensures Valid() && View() == old(View()).(sleepers := Remove(old(View()).sleepers, i))
    {
      ghost var q := queue[..count];
      var k := 0;
      while k < count
        invariant k <= count == |q| && i !in q[..k]
      {
        if queue[k] == i {
          RemoveAt(q, k, i);
          ShiftDown(k, q);
          return;
        }
        k := k + 1;
      }
      assert q[..k] == q;
    }

    /** Closes the gap at position `at`. */
    method ShiftDown(at: nat, ghost q: seq<nat>)
      requires Valid() && at < count && q == queue[..count]
      modifies queue, this`count
      ensures Valid() && View() == old(View()).(sleepers := q[..at] + q[at + 1..])
    {
      var k := at;
      while k + 1 < count
        invariant at <= k < count == |q|
        invariant forall j | 0 <= j < at :: queue[j] == q[j]
        invariant forall j | at <= j < k :: queue[j] == q[j + 1]
        invariant forall j | k < j < count :: queue[j] == q[j]
      {
        queue[k] := queue[k + 1];
        k := k + 1;
      }
      count := count - 1;
      CutOut(q, at, queue[..count]);
    }

    method WakeSleepers()
      requires Valid()
      modifies pcbs, queue, this`count
      ensures Valid() && View() == WakeHeads(old(View()))
    {
      while count > 0
        invariant Valid() && WakeHeads(View()) == WakeHeads(old(View()))
        decreases count
      {
        var index := queue[0];
        var proc := pcbs[index];
        if proc.wakeTick == 0 || tick < proc.wakeTick {
          break;
        }
        assert Remove(queue[..count], index) == queue[..count][1..];
        SleepQueueRemove(index);
        if proc.status == Blocked {
          pcbs[index] := Woken(proc);
        }
      }
    }

    method PickNextSlot(start: nat) returns (next: nat)
      requires Valid()
      ensures next == PickNext(pcbs[..], start)
    {
      var best := MLFQ_LEVELS;
      for i := 0 to MAX_PROCESSES
        invariant best == BestLevel(pcbs[..], i)
      {
        if Runnable(pcbs[i]) && pcbs[i].priority < best {
          best := pcbs[i].priority;
        }
      }
      if best == MLFQ_LEVELS {
        return MAX_PROCESSES;
      }
      for pass := 0 to MAX_PROCESSES
        invariant Scan(pcbs[..], start, 0, best) == Scan(pcbs[..], start, pass, best)
      {
        var i := (start + pass) % MAX_PROCESSES;
        if Runnable(pcbs[i]) && pcbs[i].priority == best {
          return i;
        }
      }
      return MAX_PROCESSES;
    }

    method AccountCurrent(countTick: bool)
      requires Valid()
      modifies this, pcbs, queue
      ensures Valid() && View() == Account(old(View()), countTick)
    {
      if countTick {
        tick := tick + 1;
        assert View() == old(View()).(tick := tick);
        WakeSleepers();
      }
      pcbs[current] := Charge(pcbs[current], current == 0, countTick);
    }

    method ChooseNext() returns (next: nat)
      requires Valid()
      ensures next == NextProcess(View())
    {
      next := PickNextSlot((current + 1) % MAX_PROCESSES);
      if next == MAX_PROCESSES && Runnable(pcbs[current]) {
        next := current;
      }
    }

    method SwitchNext()
      requires Valid()
      modifies this`current, pcbs
      ensures Valid() && View() == Switch(old(View()))
    {
      var next := ChooseNext();
      if next == MAX_PROCESSES {
        return;
      }
      MakeRunning(next);
    }

    method MakeRunning(next: nat)
      requires Valid() && next < MAX_PROCESSES
      modifies this`current, pcbs
      ensures Valid() && View() == SwitchTo(old(View()), next)
    {
      if current != next && pcbs[current].status == Running {
        pcbs[current] := pcbs[current].(status := Ready);
      }
      pcbs[next] := pcbs[next].(status := Running);
      current := next;
    }

    method DispatchNext(countTick: bool)
      requires Valid()
      modifies this, pcbs, queue
      ensures Valid() && View() == Dispatch(old(View()), countTick)
    {
      AccountCurrent(countTick);
      SwitchNext();
    }

    /** sleep() up to its yield: the current process goes onto the sleep queue. */
    method SleepCurrent(ms: nat)
      requires Valid()
      modifies this, pcbs, queue
      ensures Valid()
      ensures View() == if current == 0 || ms == 0 then old(View()) else SleepFor(old(View()), (ms + 9) / 10)
    {
      var ticks := (ms + 9) / 10;
      if current == 0 || ticks == 0 {
        return;
      }
      pcbs[current] := pcbs[current].(wakeTick := tick + ticks, status := Blocked);
      assert View() == Update(old(View()), current, pcbs[current]);
      SleepQueueInsert(current);
    }
  }

  lemma {:induction false} InsertHere(pcbs: seq<Pcb>, q: seq<nat>, i: nat, k: nat, r: seq<nat>)
    requires i < |pcbs| && (forall j | 0 <= j < |q| :: q[j] < |pcbs|) && PutAt(q, k, i, r)
    requires k > 0 ==> pcbs[q[k - 1]].wakeTick <= pcbs[i].wakeTick
    requires forall j | k <= j < |q| :: pcbs[i].wakeTick < pcbs[q[j]].wakeTick
    ensures r == Insert(pcbs, q, i)
  {
    if k < |q| {
      var n := |q| - 1;
      InsertHere(pcbs, q[..n], i, k, r[..n + 1]);
      assert r == r[..n + 1] + [q[n]];
    } else if k > 0 {
      assert r == q + [i];
    }
  }

  lemma {:induction false} RemoveAt(q: seq<nat>, k: nat, i: nat)
    requires k < |q| && q[k] == i && i !in q[..k]
    ensures Remove(q, i) == q[..k] + q[k + 1..]
  {
    if k > 0 {
      assert q[0] in q[..k] && q[1..][..k - 1] == q[..k][1..];
      RemoveAt(q[1..], k - 1, i);
      assert q[..k] == [q[0]] + q[1..][..k - 1] && q[k + 1..] == q[1..][k..];
    }
  }
}
