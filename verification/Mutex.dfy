/**
  Blocking mutexes with ownership hand-off and priority inheritance.  Each masked region is
  one atomic step; a thread is named by its PCB slot, and slot 0 (the shell) never takes part.
  A smaller priority number is more urgent.
 */
module Mutexes {
  import opened Pigeonhole

  const MAX_PROCESSES: nat := 16
  const MAX_WAITERS: nat := 16
  const MAX_OWNED: nat := 4

  type Pid = p: nat | 0 < p < MAX_PROCESSES witness 1
  type Mid = nat

  datatype Owner = NoOwner | By(pid: Pid)
  datatype Waiting = Nothing | For(mid: Mid)

  /** `arrived` and `served` record the order of queueing and of hand-off. */
  datatype Mutex = Mutex(locked: bool, owner: Owner, waiters: seq<Pid>, arrived: seq<Pid>, served: seq<Pid>)

  /** Where a thread stands; Parked is BLOCKED in the queue, Woken is on its way out of it. */
  datatype At = Outside | Trying(mid: Mid) | Parked(mid: Mid) | Woken(mid: Mid)

  datatype Proc = Proc(at: At, waiting: Waiting, owned: seq<Mid>, priority: nat, base: nat)

  datatype State = State(locks: seq<Mutex>, procs: seq<Proc>)

  // ---------------------------------------------------------------- queue and ownership lists

  function WaitqAdd(q: seq<Pid>, p: Pid): seq<Pid> {
    if |q| >= MAX_WAITERS || p in q then q else q + [p]
  }

  function OwnerAdd(owned: seq<Mid>, m: Mid): seq<Mid> {
    if |owned| >= MAX_OWNED || m in owned then owned else owned + [m]
  }

  function OwnerRemove(owned: seq<Mid>, m: Mid): seq<Mid> {
    if owned == [] then [] else if owned[0] == m then owned[1..] else [owned[0]] + OwnerRemove(owned[1..], m)
  }

  predicate Typed(s: State) {
    && |s.procs| == MAX_PROCESSES
    && (forall p | 0 <= p < |s.procs| :: s.procs[p].waiting.For? ==> s.procs[p].waiting.mid < |s.locks|)
    && (forall p | 0 <= p < |s.procs| :: !s.procs[p].at.Outside? ==> s.procs[p].at.mid < |s.locks|)
    && (forall p | 0 <= p < |s.procs| :: Known(s.locks, s.procs[p].owned))
  }

  predicate Known(locks: seq<Mutex>, owned: seq<Mid>) {
    forall i | 0 <= i < |owned| :: owned[i] < |locks|
  }

  function SetPriority(s: State, p: Pid, v: nat): (t: State)
    requires Typed(s)
    ensures Typed(t)
  {
    s.(procs := s.procs[p := s.procs[p].(priority := v)])
  }

  // ---------------------------------------------------------------- priorities

  /** The owner of the mutex `p` waits for. */
  function Blocker(s: State, p: Pid): Owner
    requires Typed(s)
  {
    if s.procs[p].waiting.Nothing? then NoOwner else s.locks[s.procs[p].waiting.mid].owner
  }

  /** propagate_priority: follow the chain of owners while the boost still helps. */
  function Propagate(s: State, p: Pid, guard: nat): (t: State)
    requires Typed(s) && guard <= MAX_PROCESSES
    ensures Typed(t)
    decreases MAX_PROCESSES - guard
  {
    if Blocker(s, p).NoOwner? || guard >= MAX_PROCESSES then s
    else
      var o := Blocker(s, p).pid;
      if s.procs[p].priority >= s.procs[o].priority then s
      else Propagate(SetPriority(s, o, s.procs[p].priority), o, guard + 1)
  }

  function LeastOf(procs: seq<Proc>, waiters: seq<Pid>, v: nat): nat
    requires |procs| == MAX_PROCESSES
  {
    if waiters == [] then v
    else
      var r := LeastOf(procs, waiters[..|waiters| - 1], v);
      var w := procs[waiters[|waiters| - 1]].priority;
      if w < r then w else r
  }

  /** The most urgent of `v` and the waiters of the listed mutexes. */
  function LeastOver(s: State, owned: seq<Mid>, v: nat): nat
    requires Typed(s) && Known(s.locks, owned)
  {
    if owned == [] then v
    else LeastOf(s.procs, s.locks[owned[|owned| - 1]].waiters, LeastOver(s, owned[..|owned| - 1], v))
  }

  // ---------------------------------------------------------------- atomic regions

  /** mutex_lock's region: take a free mutex, or queue up and boost the owner. */
  function LockRegion(s: State, p: Pid, m: Mid): (t: State)
    requires Typed(s) && m < |s.locks|
    ensures Typed(t)
  {
    var l, c := s.locks[m], s.procs[p];
    if !l.locked then
      State(s.locks[m := l.(locked := true, owner := By(p))],
            s.procs[p := c.(at := Outside, owned := OwnerAdd(c.owned, m))])
    else if |l.waiters| >= MAX_WAITERS then s
    else Boost(Enqueue(s, p, m), p)
  }

  function Enqueue(s: State, p: Pid, m: Mid): (t: State)
    requires Typed(s) && m < |s.locks|
    ensures Typed(t)
  {
    var l := s.locks[m];
    State(s.locks[m := l.(waiters := WaitqAdd(l.waiters, p), arrived := l.arrived + [p])],
          s.procs[p := s.procs[p].(at := Parked(m), waiting := For(m))])
  }

  function Boost(s: State, p: Pid): (t: State)
    requires Typed(s)
    ensures Typed(t)
  {
    if Blocker(s, p).By? && s.procs[p].priority < s.procs[Blocker(s, p).pid].priority then
      var o := Blocker(s, p).pid;
      Propagate(SetPriority(s, o, s.procs[p].priority), o, 0)
    else s
  }

  /** mutex_unlock's region before the priority is recomputed: release or hand off. */
  function Release(s: State, p: Pid, m: Mid): (t: State)
    requires Typed(s) && m < |s.locks|
    ensures Typed(t)
  {
    var l, c := s.locks[m], s.procs[p];
    RemoveKnown(s.locks, c.owned, m);
    var procs := s.procs[p := c.(owned := OwnerRemove(c.owned, m))];
    if l.waiters == [] then State(s.locks[m := l.(locked := false, owner := NoOwner)], procs)
    else
      var next := l.waiters[0];
      var n := procs[next];
      State(s.locks[m := l.(owner := By(next), waiters := l.waiters[1..], served := l.served + [next])],
            procs[next := n.(at := Woken(m), waiting := Nothing, owned := OwnerAdd(n.owned, m))])
  }

  function Recompute(s: State, p: Pid): (t: State)
    requires Typed(s)
    ensures Typed(t)
  {
    SetPriority(s, p, LeastOver(s, s.procs[p].owned, s.procs[p].base))
  }

  lemma {:induction false} RemoveKeeps(owned: seq<Mid>, m: Mid)
    ensures forall x | x in OwnerRemove(owned, m) :: x in owned
    ensures forall x | x in owned :: x == m || x in OwnerRemove(owned, m)
  {
    if owned != [] {
      RemoveKeeps(owned[1..], m);
      assert forall x | x in owned :: x == owned[0] || x in owned[1..];
    }
  }

  lemma {:induction false} RemoveKnown(locks: seq<Mutex>, owned: seq<Mid>, m: Mid)
    requires Known(locks, owned)
    ensures Known(locks, OwnerRemove(owned, m))
  {
    if owned != [] {
      RemoveKnown(locks, owned[1..], m);
    }
  }

  // ---------------------------------------------------------------- threads

  datatype Action = CallLock(mid: Mid) | CallUnlock(mid: Mid) | Continue

  predicate Enabled(s: State, p: Pid, a: Action)
    requires Typed(s)
  {
    var at := s.procs[p].at;
    if a.Continue? then at.Trying? || at.Woken? else at.Outside? && a.mid < |s.locks|
  }

  function Step(s: State, p: Pid, a: Action): (t: State)
    requires Typed(s) && Enabled(s, p, a)
    ensures Typed(t)
  {
    var c := s.procs[p];
    match a
    case CallLock(m) =>
      if s.locks[m].owner == By(p) then s else s.(procs := s.procs[p := c.(at := Trying(m))])
    case CallUnlock(m) =>
      if s.locks[m].owner == By(p) then Recompute(Release(s, p, m), p) else s
    case Continue =>
      var m := c.at.mid;
      if c.at.Trying? then LockRegion(s, p, m)
      else if s.locks[m].owner == By(p) then s.(procs := s.procs[p := c.(at := Outside, waiting := Nothing)])
      else s.(procs := s.procs[p := c.(at := Trying(m))])
  }

  // ---------------------------------------------------------------- mutual exclusion and FIFO hand-off

  ghost predicate LockOk(l: Mutex) {
    && (l.locked <==> l.owner.By?)
    && (l.waiters != [] ==> l.locked)
    && Distinct(l.waiters)
    && l.arrived == l.served + l.waiters
  }

  ghost predicate ProcOk(s: State, p: Pid)
    requires Typed(s)
  {
    var c := s.procs[p];
    && (c.waiting == if c.at.Parked? then For(c.at.mid) else Nothing)
    && (c.at.Woken? ==> s.locks[c.at.mid].owner == By(p))
    && (c.at.Trying? || c.at.Parked? ==> s.locks[c.at.mid].owner != By(p))
  }

  ghost predicate Inv(s: State) {
    && Typed(s)
    && (forall m | 0 <= m < |s.locks| :: LockOk(s.locks[m]))
    && (forall p: Pid :: ProcOk(s, p))
    && (forall m, p: Pid | 0 <= m < |s.locks| :: p in s.locks[m].waiters <==> s.procs[p].at == Parked(m))
  }

  /** Nothing but priorities differs. */
  ghost predicate SameButPriority(s: State, t: State) {
    && Typed(s) && Typed(t) && s.locks == t.locks
    && forall p: Pid :: t.procs[p] == s.procs[p].(priority := t.procs[p].priority)
  }

  lemma {:induction false} PropagateFrame(s: State, p: Pid, guard: nat)
    requires Typed(s) && guard <= MAX_PROCESSES
    ensures SameButPriority(s, Propagate(s, p, guard))
    decreases MAX_PROCESSES - guard
  {
    if Blocker(s, p).By? && guard < MAX_PROCESSES {
      var o := Blocker(s, p).pid;
      if s.procs[p].priority < s.procs[o].priority {
        PropagateFrame(SetPriority(s, o, s.procs[p].priority), o, guard + 1);
      }
    }
  }

  lemma InvIgnoresPriority(s: State, t: State)
    requires Inv(s) && SameButPriority(s, t)
    ensures Inv(t)
  {
    forall p: Pid
      ensures ProcOk(t, p)
    {
      assert ProcOk(s, p);
    }
  }

  /** The waiter-queue-full branch is never taken. */
  lemma QueueHasRoom(s: State, p: Pid, m: Mid)
    requires Inv(s) && m < |s.locks| && s.procs[p].at != Parked(m)
    ensures |s.locks[m].waiters| < MAX_WAITERS && WaitqAdd(s.locks[m].waiters, p) == s.locks[m].waiters + [p]
  {
    var q := s.locks[m].waiters;
    assert LockOk(s.locks[m]);
    DistinctFits(q + [p], 1, MAX_PROCESSES);
  }

  lemma EnqueueKeepsInv(s: State, p: Pid, m: Mid)
    requires Inv(s) && s.procs[p].at == Trying(m) && s.locks[m].locked
    ensures Inv(Enqueue(s, p, m))
  {
    QueueHasRoom(s, p, m);
    var t := Enqueue(s, p, m);
    assert LockOk(s.locks[m]) && ProcOk(s, p);
    forall q: Pid
      ensures ProcOk(t, q)
    {
      assert ProcOk(s, q);
    }
  }

  lemma TakeKeepsInv(s: State, p: Pid, m: Mid)
    requires Inv(s) && s.procs[p].at == Trying(m) && !s.locks[m].locked
    ensures Inv(LockRegion(s, p, m))
  {
    var t := LockRegion(s, p, m);
    assert LockOk(s.locks[m]);
    forall q: Pid
      ensures ProcOk(t, q)
    {
      assert ProcOk(s, q);
    }
  }

  lemma ReleaseKeepsInv(s: State, p: Pid, m: Mid)
    requires Inv(s) && m < |s.locks| && s.procs[p].at == Outside && s.locks[m].owner == By(p)
    ensures Inv(Release(s, p, m))
  {
    var t := Release(s, p, m);
    var l := s.locks[m];
    assert LockOk(l);
    RemoveKeeps(s.procs[p].owned, m);
    if l.waiters != [] {
      assert forall q: Pid | q in l.waiters :: q == l.waiters[0] || q in l.waiters[1..];
      assert l.served + l.waiters == (l.served + [l.waiters[0]]) + l.waiters[1..];
      assert s.procs[l.waiters[0]].at == Parked(m);
    }
    forall q: Pid
      ensures ProcOk(t, q)
    {
      assert ProcOk(s, q);
    }
    assert forall m' | 0 <= m' < |t.locks| :: LockOk(s.locks[m']);
  }

  lemma StepKeepsInv(s: State, p: Pid, a: Action)
    requires Inv(s) && Enabled(s, p, a)
    ensures Inv(Step(s, p, a))
  {
    var c := s.procs[p];
    assert ProcOk(s, p);
    if a.CallUnlock? {
      if s.locks[a.mid].owner == By(p) {
        ReleaseKeepsInv(s, p, a.mid);
        InvIgnoresPriority(Release(s, p, a.mid), Step(s, p, a));
      }
    } else if a.Continue? && c.at.Trying? {
      var m := c.at.mid;
      if s.locks[m].locked {
        QueueHasRoom(s, p, m);
        EnqueueKeepsInv(s, p, m);
        BoostFrame(Enqueue(s, p, m), p);
        InvIgnoresPriority(Enqueue(s, p, m), Step(s, p, a));
      } else {
        TakeKeepsInv(s, p, m);
      }
    } else {
      MoveKeepsInv(s, p, a);
    }
  }

  lemma BoostFrame(s: State, p: Pid)
    requires Typed(s)
    ensures SameButPriority(s, Boost(s, p))
  {
    if Blocker(s, p).By? {
      var o := Blocker(s, p).pid;
      PropagateFrame(SetPriority(s, o, s.procs[p].priority), o, 0);
    }
  }

  /** Steps that only move one thread: entering mutex_lock, and leaving it after a hand-off. */
  lemma MoveKeepsInv(s: State, p: Pid, a: Action)
    requires Inv(s) && Enabled(s, p, a) && (a.CallLock? || (a.Continue? && s.procs[p].at.Woken?))
    ensures Inv(Step(s, p, a))
  {
    var t := Step(s, p, a);
    assert ProcOk(s, p);
    forall q: Pid
      ensures ProcOk(t, q)
    {
      assert ProcOk(s, q);
    }
  }

  // ---------------------------------------------------------------- runs

  ghost predicate IsRun(s: State, steps: seq<(Pid, Action)>, t: State)
    decreases |steps|
  {
    if steps == [] then t == s
    else
      && Typed(s) && Enabled(s, steps[0].0, steps[0].1)
      && IsRun(Step(s, steps[0].0, steps[0].1), steps[1..], t)
  }

  ghost predicate Initial(s: State) {
    && |s.procs| == MAX_PROCESSES
    && (forall m | 0 <= m < |s.locks| :: s.locks[m] == Mutex(false, NoOwner, [], [], []))
    && (forall p | 0 <= p < MAX_PROCESSES ::
        s.procs[p].at == Outside && s.procs[p].waiting == Nothing && s.procs[p].owned == [])
  }

  lemma {:induction false} RunKeepsInv(s: State, steps: seq<(Pid, Action)>, t: State)
    requires Inv(s) && IsRun(s, steps, t)
    ensures Inv(t)
    decreases |steps|
  {
    if steps != [] {
      StepKeepsInv(s, steps[0].0, steps[0].1);
      RunKeepsInv(Step(s, steps[0].0, steps[0].1), steps[1..], t);
    }
  }

  lemma InitialInv(s: State)
    requires Initial(s)
    ensures Inv(s)
  {
  }

  /**
    Over all interleavings from free mutexes: locked iff owned, waiters imply locked, waiters are
    distinct, blocked and never the owner, a woken thread always owns the mutex it was woken for,
    and the mutex is served strictly in arrival order.
   */
  lemma EveryRun(s: State, steps: seq<(Pid, Action)>, t: State)
    requires Initial(s) && IsRun(s, steps, t)
    ensures Inv(t)
    ensures forall m | 0 <= m < |t.locks| :: LockOk(t.locks[m])
    ensures forall m, p: Pid | 0 <= m < |t.locks| && p in t.locks[m].waiters ::
              t.procs[p].at == Parked(m) && t.locks[m].owner != By(p)
  {
    InitialInv(s);
    RunKeepsInv(s, steps, t);
    forall m, p: Pid | 0 <= m < |t.locks| && p in t.locks[m].waiters
      ensures t.procs[p].at == Parked(m) && t.locks[m].owner != By(p)
    {
      assert ProcOk(t, p);
    }
  }

  // ---------------------------------------------------------------- priority inheritance

  /** Every owner is at least as urgent as each of its waiters, except for the edge out of `x`. */
  ghost predicate InheritsBut(s: State, x: nat)
    requires Typed(s)
  {
    forall m, w: Pid | 0 <= m < |s.locks| && w in s.locks[m].waiters && s.locks[m].owner.By? && w != x ::
      s.procs[s.locks[m].owner.pid].priority <= s.procs[w].priority
  }

  /** Every owner is at least as urgent as each of its waiters. */
  ghost predicate Inherits(s: State)
    requires Typed(s)
  {
    InheritsBut(s, 0)
  }

  /** Processes strictly less urgent than `v`. */
  function Slower(procs: seq<Proc>, v: nat): nat {
    if procs == [] then 0
    else Slower(procs[..|procs| - 1], v) + if procs[|procs| - 1].priority > v then 1 else 0
  }

  lemma {:induction false} SlowerUpdate(procs: seq<Proc>, i: nat, c: Proc, v: nat)
    requires i < |procs|
    ensures Slower(procs[i := c], v)
         == Slower(procs, v) - (if procs[i].priority > v then 1 else 0) + (if c.priority > v then 1 else 0)
  {
    var n := |procs| - 1;
    if i == n {
      assert procs[i := c][..n] == procs[..n];
    } else {
      SlowerUpdate(procs[..n], i, c, v);
      assert procs[i := c][..n] == procs[..n][i := c];
    }
  }

  lemma {:induction false} SlowerBound(procs: seq<Proc>, v: nat)
    ensures Slower(procs, v) <= |procs|
  {
    if procs != [] {
      SlowerBound(procs[..|procs| - 1], v);
    }
  }

  /** Boosting the owner `o` of the mutex `p` waits for moves the only bad edge to `o`. */
  lemma BoostMovesGap(s: State, p: Pid, o: Pid)
    requires Inv(s) && InheritsBut(s, p) && Blocker(s, p) == By(o)
    requires s.procs[p].priority < s.procs[o].priority
    ensures InheritsBut(SetPriority(s, o, s.procs[p].priority), o)
  {
    assert ProcOk(s, p);
    var t := SetPriority(s, o, s.procs[p].priority);
    forall m, w: Pid | 0 <= m < |t.locks| && w in t.locks[m].waiters && t.locks[m].owner.By? && w != o
      ensures t.procs[t.locks[m].owner.pid].priority <= t.procs[w].priority
    {
      assert w in s.locks[m].waiters && s.procs[w].at == Parked(m);
    }
  }

  /** A thread whose blocker is already urgent enough, or that waits for nobody, has no bad edge. */
  lemma NoGapLeft(s: State, p: Pid)
    requires Inv(s) && InheritsBut(s, p)
    requires Blocker(s, p).By? ==> s.procs[Blocker(s, p).pid].priority <= s.procs[p].priority
    ensures Inherits(s)
  {
    assert ProcOk(s, p);
    forall m | 0 <= m < |s.locks| && p in s.locks[m].waiters
      ensures s.procs[p].waiting == For(m) && s.locks[m].owner.By?
    {
      assert LockOk(s.locks[m]) && s.procs[p].at == Parked(m);
    }
  }

  /** Propagation restores inheritance; the iteration guard never cuts it short. */
  lemma {:induction false} PropagateRestores(s: State, p: Pid, guard: nat)
    requires Inv(s) && guard <= MAX_PROCESSES && InheritsBut(s, p)
    requires guard + Slower(s.procs, s.procs[p].priority) < MAX_PROCESSES
    ensures Inherits(Propagate(s, p, guard))
    decreases MAX_PROCESSES - guard
  {
    if Blocker(s, p).NoOwner? || s.procs[p].priority >= s.procs[Blocker(s, p).pid].priority {
      NoGapLeft(s, p);
    } else {
      var o, v := Blocker(s, p).pid, s.procs[p].priority;
      var t := SetPriority(s, o, v);
      SlowerUpdate(s.procs, o, s.procs[o].(priority := v), v);
      BoostMovesGap(s, p, o);
      InvIgnoresPriority(s, t);
      PropagateRestores(t, o, guard + 1);
    }
  }

  /** Raising the blocker of `p` and propagating from there leaves no bad edge. */
  lemma BoostRestores(s: State, p: Pid, o: Pid)
    requires Inv(s) && InheritsBut(s, p) && Blocker(s, p) == By(o) && s.procs[p].priority < s.procs[o].priority
    ensures Inherits(Propagate(SetPriority(s, o, s.procs[p].priority), o, 0))
  {
    var v := s.procs[p].priority;
    var t := SetPriority(s, o, v);
    BoostMovesGap(s, p, o);
    InvIgnoresPriority(s, t);
    SlowerBound(s.procs, v);
    SlowerUpdate(s.procs, o, s.procs[o].(priority := v), v);
    PropagateRestores(t, o, 0);
  }

  /** Queueing on a mutex keeps inheritance over the whole wait-for graph, cycles included. */
  lemma LockKeepsInheritance(s: State, p: Pid, m: Mid)
    requires Inv(s) && Inherits(s) && s.procs[p].at == Trying(m)
    ensures Inherits(LockRegion(s, p, m))
  {
    assert LockOk(s.locks[m]);
    if s.locks[m].locked {
      QueueHasRoom(s, p, m);
      EnqueueKeepsInv(s, p, m);
      var t := Enqueue(s, p, m);
      assert InheritsBut(t, p);
      var o := s.locks[m].owner.pid;
      if t.procs[p].priority < t.procs[o].priority {
        BoostRestores(t, p, o);
      } else {
        NoGapLeft(t, p);
      }
    }
  }

  lemma {:induction false} LeastOfBounds(procs: seq<Proc>, waiters: seq<Pid>, v: nat)
    requires |procs| == MAX_PROCESSES
    ensures LeastOf(procs, waiters, v) <= v
    ensures forall w | w in waiters :: LeastOf(procs, waiters, v) <= procs[w].priority
    ensures LeastOf(procs, waiters, v) == v || exists w | w in waiters ::
              LeastOf(procs, waiters, v) == procs[w].priority
  {
    if waiters != [] {
      LeastOfBounds(procs, waiters[..|waiters| - 1], v);
    }
  }

  /** The recomputed priority is the most urgent of the base priority and the waiters' ones. */
  lemma {:induction false} LeastOverBounds(s: State, owned: seq<Mid>, v: nat)
    requires Typed(s) && Known(s.locks, owned)
    ensures LeastOver(s, owned, v) <= v
    ensures forall m, w | m in owned && w in s.locks[m].waiters :: LeastOver(s, owned, v) <= s.procs[w].priority
    ensures LeastOver(s, owned, v) == v ||
            exists m, w | m in owned && w in s.locks[m].waiters :: LeastOver(s, owned, v) == s.procs[w].priority
  {
    if owned != [] {
      var rest, m := owned[..|owned| - 1], owned[|owned| - 1];
      LeastOverBounds(s, rest, v);
      LeastOfBounds(s.procs, s.locks[m].waiters, LeastOver(s, rest, v));
    }
  }

  /** `p` lists every mutex it owns, which holds while nobody owns more than four. */
  ghost predicate ListsOwned(s: State, p: Pid)
    requires Typed(s)
  {
    forall m | 0 <= m < |s.locks| && s.locks[m].owner == By(p) :: m in s.procs[p].owned
  }

  /** The waiter next in line is at least as urgent as those behind it. */
  predicate HeadMostUrgent(s: State, m: Mid)
    requires Typed(s) && m < |s.locks|
  {
    var q := s.locks[m].waiters;
    q != [] ==> forall w | w in q[1..] :: s.procs[q[0]].priority <= s.procs[w].priority
  }

  /** The priority that mutex_unlock gives its caller. */
  function Recomputed(s: State, p: Pid, m: Mid): nat
    requires Typed(s) && m < |s.locks|
  {
    var r := Release(s, p, m);
    LeastOver(r, r.procs[p].owned, r.procs[p].base)
  }

  /** That priority also suits the waiters on mutexes which `p` owns beyond the four in its list. */
  ghost predicate UnlistedServed(s: State, p: Pid, m: Mid)
    requires Typed(s) && m < |s.locks|
  {
    forall x, w: Pid | 0 <= x < |s.locks| && x != m && s.locks[x].owner == By(p) && x !in s.procs[p].owned
        && w in s.locks[x].waiters ::
      Recomputed(s, p, m) <= s.procs[w].priority
  }

  lemma UnlockInherits(s: State, p: Pid, m: Mid)
    requires Inv(s) && Inherits(s) && Enabled(s, p, CallUnlock(m)) && s.locks[m].owner == By(p)
    requires UnlistedServed(s, p, m) && HeadMostUrgent(s, m)
    ensures Inherits(Step(s, p, CallUnlock(m)))
  {
    var r := Release(s, p, m);
    var t := Step(s, p, CallUnlock(m));
    RemoveKeeps(s.procs[p].owned, m);
    LeastOverBounds(r, r.procs[p].owned, r.procs[p].base);
    assert LockOk(s.locks[m]);
    forall m', w: Pid | 0 <= m' < |t.locks| && w in t.locks[m'].waiters && t.locks[m'].owner.By?
      ensures t.procs[t.locks[m'].owner.pid].priority <= t.procs[w].priority
    {
      assert w in s.locks[m'].waiters && s.procs[w].at == Parked(m');
      if t.locks[m'].owner == By(p) && m' in s.procs[p].owned {
        assert m' in r.procs[p].owned && w in r.locks[m'].waiters;
      }
    }
  }

  lemma UnlockForgets(s: State, p: Pid, m: Mid)
    requires Inv(s) && Enabled(s, p, CallUnlock(m)) && s.locks[m].owner == By(p) && !UnlistedServed(s, p, m)
    ensures !Inherits(Step(s, p, CallUnlock(m)))
  {
    var t := Step(s, p, CallUnlock(m));
    assert LockOk(s.locks[m]);
    var x, w: Pid :| 0 <= x < |s.locks| && x != m && s.locks[x].owner == By(p) && x !in s.procs[p].owned
                     && w in s.locks[x].waiters && Recomputed(s, p, m) > s.procs[w].priority;
    assert s.procs[w].at == Parked(x) && w in t.locks[x].waiters && t.locks[x].owner == By(p);
    assert t.procs[p].priority == Recomputed(s, p, m) && t.procs[w].priority == s.procs[w].priority;
  }

  lemma UnlockInverts(s: State, p: Pid, m: Mid)
    requires Inv(s) && Enabled(s, p, CallUnlock(m)) && s.locks[m].owner == By(p) && !HeadMostUrgent(s, m)
    ensures !Inherits(Step(s, p, CallUnlock(m)))
  {
    var q := s.locks[m].waiters;
    var t := Step(s, p, CallUnlock(m));
    assert LockOk(s.locks[m]);
    var w :| w in q[1..] && s.procs[q[0]].priority > s.procs[w].priority;
    assert s.procs[q[0]].at == Parked(m) && w in q && s.procs[w].at == Parked(m);
    assert w in t.locks[m].waiters && t.locks[m].owner == By(q[0]);
    assert t.procs[q[0]].priority == s.procs[q[0]].priority && t.procs[w].priority == s.procs[w].priority;
  }

  /**
    Unlocking keeps inheritance exactly when the queue head is the most urgent waiter and the
    recomputed priority suits the waiters on mutexes that the caller's list has no room for.
   */
  lemma UnlockKeepsInheritanceIff(s: State, p: Pid, m: Mid)
    requires Inv(s) && Inherits(s) && Enabled(s, p, CallUnlock(m)) && s.locks[m].owner == By(p)
    ensures Inherits(Step(s, p, CallUnlock(m))) <==> HeadMostUrgent(s, m) && UnlistedServed(s, p, m)
  {
    if !HeadMostUrgent(s, m) {
      UnlockInverts(s, p, m);
    } else if !UnlistedServed(s, p, m) {
      UnlockForgets(s, p, m);
    } else {
      UnlockInherits(s, p, m);
    }
  }

  // ---------------------------------------------------------------- who gets the lock, and how urgent they are

  /** All mutexes but `m` are as they were. */
  predicate OtherLocks(s: State, t: State, m: Mid) {
    |t.locks| == |s.locks| && forall x | 0 <= x < |s.locks| && x != m :: t.locks[x] == s.locks[x]
  }

  /** A thread that finds the mutex free owns it. */
  lemma LockTakes(s: State, p: Pid, m: Mid)
    requires Inv(s) && s.procs[p].at == Trying(m) && !s.locks[m].locked
    ensures var t, c := Step(s, p, Continue), s.procs[p];
            && OtherLocks(s, t, m) && t.locks[m] == s.locks[m].(locked := true, owner := By(p))
            && (forall q: Pid | q != p :: t.procs[q] == s.procs[q])
            && t.procs[p].at == Outside && t.procs[p].waiting == Nothing
            && t.procs[p].priority == c.priority && t.procs[p].base == c.base
            && (forall x | x in c.owned :: x in t.procs[p].owned)
            && (forall x | x in t.procs[p].owned :: x in c.owned || x == m)
            && (|c.owned| < MAX_OWNED ==> m in t.procs[p].owned)
  {
    assert ProcOk(s, p);
  }

  /** `q` is reached from `p` by `n` steps from a waiting thread to the owner it waits for. */
  predicate OnChain(s: State, p: Pid, q: Pid, n: nat)
    requires Typed(s)
    decreases n
  {
    if n == 0 then q == p else Blocker(s, p).By? && OnChain(s, Blocker(s, p).pid, q, n - 1)
  }

  ghost predicate Chained(s: State, p: Pid, q: Pid)
    requires Typed(s)
  {
    exists n: nat :: OnChain(s, p, q, n)
  }

  /** Thread `q` has kept its priority, or has got the more urgent `v` because `p` waits for it. */
  ghost predicate Lifted(s: State, t: State, v: nat, p: Pid, q: Pid)
    requires Typed(s) && Typed(t)
  {
    || t.procs[q].priority == s.procs[q].priority
    || (t.procs[q].priority == v < s.procs[q].priority && Chained(s, p, q))
  }

  lemma {:induction false} SameChain(s: State, t: State, p: Pid, q: Pid, n: nat)
    requires SameButPriority(s, t) && OnChain(t, p, q, n)
    ensures OnChain(s, p, q, n)
    decreases n
  {
    if n > 0 {
      SameChain(s, t, Blocker(s, p).pid, q, n - 1);
    }
  }

  /** The owner `o` that `p` waits for was lifted first, then others from there. */
  lemma LiftedFurther(s: State, t: State, v: nat, p: Pid, o: Pid, q: Pid)
    requires Typed(s) && Typed(t) && Blocker(s, p) == By(o) && v < s.procs[o].priority
    requires Lifted(SetPriority(s, o, v), t, v, o, q)
    ensures Lifted(s, t, v, p, q)
  {
    var b := SetPriority(s, o, v);
    if q == o {
      assert OnChain(s, o, q, 0);
      assert OnChain(s, p, q, 1);
    } else if t.procs[q].priority != b.procs[q].priority {
      var n: nat :| OnChain(b, o, q, n);
      SameChain(s, b, o, q, n);
      assert OnChain(s, p, q, n + 1);
    }
  }

  lemma {:induction false} PropagateLifts(s: State, p: Pid, guard: nat, q: Pid)
    requires Typed(s) && guard <= MAX_PROCESSES
    ensures Lifted(s, Propagate(s, p, guard), s.procs[p].priority, p, q)
    decreases MAX_PROCESSES - guard
  {
    if Blocker(s, p).By? && guard < MAX_PROCESSES {
      var o, v := Blocker(s, p).pid, s.procs[p].priority;
      if v < s.procs[o].priority {
        PropagateLifts(SetPriority(s, o, v), o, guard + 1, q);
        LiftedFurther(s, Propagate(s, p, guard), v, p, o, q);
      }
    }
  }

  /** A boost gives nobody more than the priority of the thread that queues, and only to those it waits for. */
  lemma BoostLifts(s: State, p: Pid, q: Pid)
    requires Typed(s)
    ensures Lifted(s, Boost(s, p), s.procs[p].priority, p, q)
  {
    if Blocker(s, p).By? {
      var o, v := Blocker(s, p).pid, s.procs[p].priority;
      if v < s.procs[o].priority {
        PropagateLifts(SetPriority(s, o, v), o, 0, q);
        LiftedFurther(s, Boost(s, p), v, p, o, q);
      }
    }
  }

  /**
    Otherwise it queues at the end and blocks; apart from that, only priorities change, and only of
    threads that it now waits for, to its own priority if that is more urgent.
   */
  lemma LockQueues(s: State, p: Pid, m: Mid)
    requires Inv(s) && s.procs[p].at == Trying(m) && s.locks[m].locked
    ensures var t, l := Step(s, p, Continue), s.locks[m];
            && OtherLocks(s, t, m)
            && t.locks[m] == l.(waiters := l.waiters + [p], arrived := l.arrived + [p])
            && t.procs[p].at == Parked(m) && t.procs[p].waiting == For(m)
            && forall q: Pid | q != p :: t.procs[q] == s.procs[q].(priority := t.procs[q].priority)
  {
    QueueHasRoom(s, p, m);
    BoostFrame(Enqueue(s, p, m), p);
  }

  lemma LockLifts(s: State, p: Pid, m: Mid, q: Pid)
    requires Inv(s) && s.procs[p].at == Trying(m) && s.locks[m].locked
    ensures var t, v := Step(s, p, Continue), s.procs[p].priority;
            || t.procs[q].priority == s.procs[q].priority
            || (t.procs[q].priority == v < s.procs[q].priority && Chained(t, p, q))
  {
    QueueHasRoom(s, p, m);
    var e := Enqueue(s, p, m);
    BoostLifts(e, p, q);
    BoostFrame(e, p);
    if Chained(e, p, q) {
      var n: nat :| OnChain(e, p, q, n);
      SameChain(Boost(e, p), e, p, q, n);
    }
  }

  /** An unlock frees a mutex nobody waits for. */
  lemma UnlockFrees(s: State, p: Pid, m: Mid)
    requires Inv(s) && Enabled(s, p, CallUnlock(m)) && s.locks[m].owner == By(p) && s.locks[m].waiters == []
    ensures var t := Step(s, p, CallUnlock(m));
            && OtherLocks(s, t, m) && t.locks[m] == s.locks[m].(locked := false, owner := NoOwner)
            && forall q: Pid | q != p :: t.procs[q] == s.procs[q]
  {
  }

  lemma ReleaseHandsOver(s: State, p: Pid, m: Mid)
    requires Typed(s) && m < |s.locks| && s.locks[m].waiters != [] && s.locks[m].waiters[0] != p
    ensures var t, l, w := Release(s, p, m), s.locks[m], s.locks[m].waiters[0];
            && OtherLocks(s, t, m)
            && t.locks[m] == l.(owner := By(w), waiters := l.waiters[1..], served := l.served + [w])
            && t.procs[w].at == Woken(m) && t.procs[w].waiting == Nothing && t.procs[w].priority == s.procs[w].priority
            && forall q: Pid | q != p && q != w :: t.procs[q] == s.procs[q]
  {
  }

  lemma RecomputeFrame(s: State, p: Pid)
    requires Typed(s)
    ensures var t := Recompute(s, p);
            t.locks == s.locks && forall q: Pid | q != p :: t.procs[q] == s.procs[q]
  {
  }

  /** Otherwise it hands the mutex to the first waiter, which is woken as its owner. */
  lemma UnlockHandsOver(s: State, p: Pid, m: Mid)
    requires Inv(s) && Enabled(s, p, CallUnlock(m)) && s.locks[m].owner == By(p) && s.locks[m].waiters != []
    ensures var t, l, w := Step(s, p, CallUnlock(m)), s.locks[m], s.locks[m].waiters[0];
            && OtherLocks(s, t, m)
            && t.locks[m] == l.(owner := By(w), waiters := l.waiters[1..], served := l.served + [w])
            && t.procs[w].at == Woken(m) && t.procs[w].waiting == Nothing && t.procs[w].priority == s.procs[w].priority
            && forall q: Pid | q != p && q != w :: t.procs[q] == s.procs[q]
  {
    var w := s.locks[m].waiters[0];
    assert w in s.locks[m].waiters;
    assert s.procs[w].at == Parked(m);
    ReleaseHandsOver(s, p, m);
    RecomputeFrame(Release(s, p, m), p);
  }

  /**
    Afterwards the caller is as urgent as its base priority and the waiters on the mutexes it still
    lists make it, and no more; in particular it is back at its base priority if it lists none.
   */
  lemma UnlockSettles(s: State, p: Pid, m: Mid)
    requires Inv(s) && Enabled(s, p, CallUnlock(m)) && s.locks[m].owner == By(p)
    ensures var t, c := Step(s, p, CallUnlock(m)), Step(s, p, CallUnlock(m)).procs[p];
            && (forall x | x != m :: x in c.owned <==> x in s.procs[p].owned)
            && c.base == s.procs[p].base && c.at == Outside && c.priority <= c.base
            && (forall x, w | x in c.owned && w in t.locks[x].waiters :: c.priority <= t.procs[w].priority)
            && (c.priority == c.base
                || exists x, w | x in c.owned && w in t.locks[x].waiters :: c.priority == t.procs[w].priority)
            && (c.owned == [] ==> c.priority == c.base)
  {
    var r := Release(s, p, m);
    ReleaseKeepsInv(s, p, m);
    RemoveKeeps(s.procs[p].owned, m);
    assert ProcOk(s, p) && LockOk(s.locks[m]);
    assert r.procs[p].at == Outside;
    RecomputeSettles(r, p);
  }

  lemma RecomputeSettles(r: State, p: Pid)
    requires Inv(r) && r.procs[p].at == Outside
    ensures var t := Recompute(r, p); var c := t.procs[p];
            && t.locks == r.locks && c.owned == r.procs[p].owned && c.priority <= c.base == r.procs[p].base
            && c.at == Outside
            && (forall x, w | x in c.owned && w in t.locks[x].waiters :: c.priority <= t.procs[w].priority)
            && (c.priority == c.base
                || exists x, w | x in c.owned && w in t.locks[x].waiters :: c.priority == t.procs[w].priority)
            && (c.owned == [] ==> c.priority == c.base)
  {
    LeastOverBounds(r, r.procs[p].owned, r.procs[p].base);
    var t := Recompute(r, p);
    forall x, w | x in r.procs[p].owned && w in r.locks[x].waiters
      ensures t.procs[w].priority == r.procs[w].priority
    {
      assert r.procs[w].at == Parked(x);
    }
  }

  /** A thread handed the mutex returns as its owner; calls that make no sense do nothing. */
  lemma CallsReturn(s: State, p: Pid, m: Mid)
    requires Inv(s) && m < |s.locks|
    ensures s.procs[p].at == Woken(m) ==>
              && s.locks[m].owner == By(p)
              && Step(s, p, Continue) == s.(procs := s.procs[p := s.procs[p].(at := Outside)])
    ensures s.procs[p].at == Outside && s.locks[m].owner == By(p) ==> Step(s, p, CallLock(m)) == s
    ensures s.procs[p].at == Outside && s.locks[m].owner != By(p) ==>
              && Step(s, p, CallUnlock(m)) == s
              && Step(s, p, CallLock(m)) == s.(procs := s.procs[p := s.procs[p].(at := Trying(m))])
  {
    assert ProcOk(s, p);
  }

  // ---------------------------------------------------------------- inheritance over runs

  /** The step hands no thread a fifth mutex, and hands mutexes on to the most urgent waiter. */
  predicate Orderly(s: State, p: Pid, a: Action)
    requires Typed(s) && Enabled(s, p, a)
  {
    match a
    case CallLock(_) => true
    case CallUnlock(m) =>
      var q := s.locks[m].waiters;
      s.locks[m].owner == By(p) ==> HeadMostUrgent(s, m) && (q != [] ==> |s.procs[q[0]].owned| < MAX_OWNED)
    case Continue => s.procs[p].at.Trying? && !s.locks[s.procs[p].at.mid].locked ==> |s.procs[p].owned| < MAX_OWNED
  }

  ghost predicate AllListed(s: State)
    requires Typed(s)
  {
    forall p: Pid :: ListsOwned(s, p)
  }

  lemma StepListsOwned(s: State, p: Pid, a: Action)
    requires Inv(s) && AllListed(s) && Enabled(s, p, a) && Orderly(s, p, a)
    ensures AllListed(Step(s, p, a))
  {
    var t := Step(s, p, a);
    var c := s.procs[p];
    if a.CallUnlock? {
      RemoveKeeps(c.owned, a.mid);
      assert LockOk(s.locks[a.mid]);
      assert s.locks[a.mid].waiters != [] ==> s.procs[s.locks[a.mid].waiters[0]].at == Parked(a.mid);
    } else if a.Continue? && c.at.Trying? && s.locks[c.at.mid].locked {
      QueueHasRoom(s, p, c.at.mid);
      BoostFrame(Enqueue(s, p, c.at.mid), p);
    }
    forall q: Pid
      ensures ListsOwned(t, q)
    {
      assert ListsOwned(s, q);
    }
  }

  lemma StepInherits(s: State, p: Pid, a: Action)
    requires Inv(s) && AllListed(s) && Inherits(s) && Enabled(s, p, a) && Orderly(s, p, a)
    ensures Inherits(Step(s, p, a))
  {
    if a.CallUnlock? {
      if s.locks[a.mid].owner == By(p) {
        assert ListsOwned(s, p);
        assert UnlistedServed(s, p, a.mid);
        UnlockInherits(s, p, a.mid);
      }
    } else if a.Continue? && s.procs[p].at.Trying? {
      LockKeepsInheritance(s, p, s.procs[p].at.mid);
    }
  }

  ghost predicate IsOrderlyRun(s: State, steps: seq<(Pid, Action)>, t: State)
    decreases |steps|
  {
    if steps == [] then t == s
    else
      && Typed(s) && Enabled(s, steps[0].0, steps[0].1) && Orderly(s, steps[0].0, steps[0].1)
      && IsOrderlyRun(Step(s, steps[0].0, steps[0].1), steps[1..], t)
  }

  /** Orderly runs keep every owner at least as urgent as each of its waiters. */
  lemma {:induction false} OrderlyRunInherits(s: State, steps: seq<(Pid, Action)>, t: State)
    requires Inv(s) && AllListed(s) && Inherits(s) && IsOrderlyRun(s, steps, t)
    ensures Inv(t) && AllListed(t) && Inherits(t)
    decreases |steps|
  {
    if steps != [] {
      var (p, a) := steps[0];
      StepKeepsInv(s, p, a);
      StepListsOwned(s, p, a);
      StepInherits(s, p, a);
      OrderlyRunInherits(Step(s, p, a), steps[1..], t);
    }
  }

  /** Every orderly run from free mutexes. */
  lemma EveryOrderlyRun(s: State, steps: seq<(Pid, Action)>, t: State)
    requires Initial(s) && IsOrderlyRun(s, steps, t)
    ensures Inv(t) && Inherits(t)
  {
    InitialInv(s);
    OrderlyRunInherits(s, steps, t);
  }

  // ---------------------------------------------------------------- runs in which inheritance is lost

  lemma {:induction false} RunAppend(s: State, steps: seq<(Pid, Action)>, t: State, p: Pid, a: Action)
    requires IsRun(s, steps, t) && Typed(t) && Enabled(t, p, a)
    ensures IsRun(s, steps + [(p, a)], Step(t, p, a))
    decreases |steps|
  {
    var all := steps + [(p, a)];
    if steps == [] {
      assert all[1..] == [];
      assert IsRun(Step(s, p, a), [], Step(t, p, a));
    } else {
      RunAppend(Step(s, steps[0].0, steps[0].1), steps[1..], t, p, a);
      assert all[0] == steps[0] && all[1..] == steps[1..] + [(p, a)];
    }
  }

  /** Thread `p` calls mutex_lock and goes through its region once. */
  function Entered(s: State, p: Pid, m: Mid): State
    requires Typed(s) && Enabled(s, p, CallLock(m)) && s.locks[m].owner != By(p)
  {
    Step(Step(s, p, CallLock(m)), p, Continue)
  }

  lemma EnterAppend(s: State, steps: seq<(Pid, Action)>, t: State, p: Pid, m: Mid)
    requires IsRun(s, steps, t) && Typed(t) && Enabled(t, p, CallLock(m)) && t.locks[m].owner != By(p)
    ensures IsRun(s, steps + [(p, CallLock(m))] + [(p, Continue)], Entered(t, p, m))
  {
    RunAppend(s, steps, t, p, CallLock(m));
    RunAppend(s, steps + [(p, CallLock(m))], Step(t, p, CallLock(m)), p, Continue);
  }

  lemma EnterFree(s: State, p: Pid, m: Mid)
    requires Typed(s) && Enabled(s, p, CallLock(m)) && s.locks[m] == Mutex(false, NoOwner, [], [], [])
    ensures Entered(s, p, m).locks == s.locks[m := Mutex(true, By(p), [], [], [])]
    ensures Entered(s, p, m).procs == s.procs[p := s.procs[p].(owned := OwnerAdd(s.procs[p].owned, m))]
  {
  }

  /** Queueing behind an owner that waits for nobody. */
  lemma EnterHeld(s: State, p: Pid, m: Mid, o: Pid)
    requires Typed(s) && Enabled(s, p, CallLock(m)) && s.locks[m].locked && s.locks[m].owner == By(o) && o != p
    requires |s.locks[m].waiters| < MAX_WAITERS && p !in s.locks[m].waiters && s.procs[o].waiting == Nothing
    ensures var t, l, c := Entered(s, p, m), s.locks[m], s.procs[p];
            && t.locks == s.locks[m := l.(waiters := l.waiters + [p], arrived := l.arrived + [p])]
            && t.procs[p] == c.(at := Parked(m), waiting := For(m))
            && t.procs[o] == s.procs[o].(priority := if c.priority < s.procs[o].priority then c.priority
                else s.procs[o].priority)
            && forall q | 0 <= q < MAX_PROCESSES && q != p && q != o :: t.procs[q] == s.procs[q]
  {
    var t1 := Step(s, p, CallLock(m));
    var t2 := Enqueue(t1, p, m);
    assert Blocker(t2, p) == By(o);
    if s.procs[p].priority < s.procs[o].priority {
      var t3 := SetPriority(t2, o, s.procs[p].priority);
      assert Blocker(t3, o) == NoOwner && Propagate(t3, o, 0) == t3;
    }
  }

  /** Thread 1 owns mutex 0, the threads `q` wait for it in that order, and nothing else is going on. */
  ghost predicate OnlyQueue(s: State, q: seq<Pid>) {
    && Typed(s) && |s.locks| > 0 && 1 !in q && Distinct(q)
    && s.locks[0] == Mutex(true, By(1), q, q, [])
    && (forall m | 0 < m < |s.locks| :: s.locks[m] == Mutex(false, NoOwner, [], [], []))
    && (forall p | 0 <= p < MAX_PROCESSES && p !in q :: s.procs[p].at == Outside && s.procs[p].waiting == Nothing)
    && (forall w | w in q :: s.procs[1].priority <= s.procs[w].priority)
  }

  lemma QueueOne(s: State, q: seq<Pid>, p: Pid)
    requires OnlyQueue(s, q) && p != 1 && p !in q && |q| < MAX_WAITERS
    ensures Enabled(s, p, CallLock(0)) && OnlyQueue(Entered(s, p, 0), q + [p])
    ensures forall w | 1 < w < MAX_PROCESSES :: Entered(s, p, 0).procs[w].priority == s.procs[w].priority
  {
    EnterHeld(s, p, 0, 1);
  }

  lemma FirstOwner(s: State)
    requires Initial(s) && |s.locks| > 0
    ensures Enabled(s, 1, CallLock(0)) && OnlyQueue(Entered(s, 1, 0), [])
    ensures forall w | 1 < w < MAX_PROCESSES :: Entered(s, 1, 0).procs[w].priority == s.procs[w].priority
  {
    EnterFree(s, 1, 0);
  }

  lemma QueueInherits(s: State, q: seq<Pid>)
    requires OnlyQueue(s, q)
    ensures Inherits(s)
  {
  }

  /**
    Whoever queues first is served first, even if a more urgent thread queues behind it: a run
    that ends in an inversion.
   */
  lemma OvertakenRun(s: State) returns (steps: seq<(Pid, Action)>, t: State)
    requires Initial(s) && |s.locks| > 0 && s.procs[3].priority < s.procs[2].priority
    ensures IsRun(s, steps, t) && Inv(t) && Inherits(t) && Enabled(t, 1, CallUnlock(0)) && t.locks[0].owner == By(1)
    ensures !HeadMostUrgent(t, 0) && !Inherits(Step(t, 1, CallUnlock(0)))
  {
    steps, t := OwnerAlone(s);
    steps, t := QueueNext(s, steps, t, [], 2);
    var one: seq<Pid>, both: seq<Pid> := [2], [2, 3];
    assert [] + [2] == one && one + [3] == both;
    steps, t := QueueNext(s, steps, t, one, 3);
    EveryRun(s, steps, t);
    OvertakenUnlock(t);
  }

  lemma OvertakenUnlock(t: State)
    requires Inv(t) && OnlyQueue(t, [2, 3]) && t.procs[3].priority < t.procs[2].priority
    ensures Inherits(t) && Enabled(t, 1, CallUnlock(0)) && t.locks[0].owner == By(1)
    ensures !HeadMostUrgent(t, 0) && !Inherits(Step(t, 1, CallUnlock(0)))
  {
    QueueInherits(t, [2, 3]);
    Overtaken(t);
    UnlockInverts(t, 1, 0);
  }

  lemma OwnerAlone(s: State) returns (steps: seq<(Pid, Action)>, t: State)
    requires Initial(s) && |s.locks| > 0
    ensures IsRun(s, steps, t) && OnlyQueue(t, [])
    ensures forall w | 1 < w < MAX_PROCESSES :: t.procs[w].priority == s.procs[w].priority
  {
    FirstOwner(s);
    EnterAppend(s, [], s, 1, 0);
    steps, t := [] + [(1, CallLock(0))] + [(1, Continue)], Entered(s, 1, 0);
  }

  lemma QueueNext(s: State, steps: seq<(Pid, Action)>, t: State, q: seq<Pid>,
                  p: Pid) returns (steps': seq<(Pid, Action)>, t': State)
    requires IsRun(s, steps, t) && OnlyQueue(t, q) && p != 1 && p !in q && |q| < MAX_WAITERS
    ensures IsRun(s, steps', t') && OnlyQueue(t', q + [p])
    ensures forall w | 1 < w < MAX_PROCESSES :: t'.procs[w].priority == t.procs[w].priority
  {
    QueueOne(t, q, p);
    EnterAppend(s, steps, t, p, 0);
    steps', t' := steps + [(p, CallLock(0))] + [(p, Continue)], Entered(t, p, 0);
  }

  lemma Overtaken(t: State)
    requires OnlyQueue(t, [2, 3]) && t.procs[3].priority < t.procs[2].priority
    ensures !HeadMostUrgent(t, 0)
  {
    assert t.locks[0].waiters[1..] == [3];
  }

  /** The caller owns mutexes 0 to n - 1, of which its list holds the first four. */
  ghost predicate OwnsFirst(s: State, n: nat) {
    && Typed(s) && n <= |s.locks|
    && (forall m | 0 <= m < n :: s.locks[m] == Mutex(true, By(1), [], [], []))
    && (forall m | n <= m < |s.locks| :: s.locks[m] == Mutex(false, NoOwner, [], [], []))
    && s.procs[1].owned == seq(if n < MAX_OWNED then n else MAX_OWNED, i => i)
    && (forall p | 0 <= p < MAX_PROCESSES :: s.procs[p].at == Outside && s.procs[p].waiting == Nothing)
  }

  lemma OwnNext(s: State, n: nat)
    requires OwnsFirst(s, n) && n < |s.locks|
    ensures Enabled(s, 1, CallLock(n)) && s.locks[n].owner == NoOwner && OwnsFirst(Entered(s, 1, n), n + 1)
    ensures forall p | 0 <= p < MAX_PROCESSES ::
              Entered(s, 1, n).procs[p].priority == s.procs[p].priority
                  && Entered(s, 1, n).procs[p].base == s.procs[p].base
  {
    EnterFree(s, 1, n);
    assert OwnerAdd(s.procs[1].owned, n) == seq(if n + 1 < MAX_OWNED then n + 1 else MAX_OWNED, i => i);
  }

  lemma {:induction false} OwnMany(s: State, n: nat) returns (steps: seq<(Pid, Action)>, t: State)
    requires Initial(s) && n <= |s.locks|
    ensures IsRun(s, steps, t) && OwnsFirst(t, n) && |t.locks| == |s.locks|
    ensures forall p | 0 <= p < MAX_PROCESSES ::
              t.procs[p].priority == s.procs[p].priority && t.procs[p].base == s.procs[p].base
  {
    if n == 0 {
      steps, t := [], s;
      assert s.procs[1].owned == seq(0, i => i);
    } else {
      steps, t := OwnMany(s, n - 1);
      steps, t := OwnOneMore(s, steps, t, n - 1);
    }
  }

  lemma OwnOneMore(s: State, steps: seq<(Pid, Action)>, t: State,
                   n: nat) returns (steps': seq<(Pid, Action)>, t': State)
    requires IsRun(s, steps, t) && OwnsFirst(t, n) && n < |t.locks|
    ensures IsRun(s, steps', t') && OwnsFirst(t', n + 1) && |t'.locks| == |t.locks|
    ensures forall p | 0 <= p < MAX_PROCESSES ::
              t'.procs[p].priority == t.procs[p].priority && t'.procs[p].base == t.procs[p].base
  {
    OwnNext(t, n);
    EnterFree(t, 1, n);
    EnterAppend(s, steps, t, 1, n);
    steps', t' := steps + [(1, CallLock(n))] + [(1, Continue)], Entered(t, 1, n);
  }

  /**
    A fifth mutex is not in its owner's list, so an unlock of another forgets the waiter on it: a
    run that ends in an inversion.
   */
  lemma FifthMutexRun(s: State) returns (steps: seq<(Pid, Action)>, t: State)
    requires Initial(s) && |s.locks| >= 5 && s.procs[1].priority == s.procs[1].base
    requires s.procs[2].priority < s.procs[1].base
    ensures IsRun(s, steps, t) && Inv(t) && Inherits(t) && Enabled(t, 1, CallUnlock(0)) && t.locks[0].owner == By(1)
    ensures HeadMostUrgent(t, 0) && !UnlistedServed(t, 1, 0) && !Inherits(Step(t, 1, CallUnlock(0)))
  {
    var p1: Pid, p2: Pid := 1, 2;
    var a;
    steps, a := OwnMany(s, 5);
    FifthWaits(a);
    EnterAppend(s, steps, a, p2, 4);
    steps, t := steps + [(p2, CallLock(4))] + [(p2, Continue)], Entered(a, p2, 4);
    EveryRun(s, steps, t);
    FifthForgotten(t);
    UnlockForgets(t, p1, 0);
  }

  lemma FifthWaits(s: State)
    requires OwnsFirst(s, 5) && s.procs[2].priority < s.procs[1].priority
    ensures Enabled(s, 2, CallLock(4)) && s.locks[4].owner != By(2)
    ensures var t := Entered(s, 2, 4);
            && |t.locks| == |s.locks| && Typed(t) && Inherits(t) && t.procs[1].at == Outside
            && t.locks[0].owner == By(1) && t.locks[4].owner == By(1) && 2 in t.locks[4].waiters
            && t.procs[1].owned == s.procs[1].owned && t.procs[1].base == s.procs[1].base
            && t.procs[2].priority == s.procs[2].priority
            && forall m | 0 <= m < MAX_OWNED :: t.locks[m].waiters == []
  {
    EnterHeld(s, 2, 4, 1);
    var t := Entered(s, 2, 4);
    assert t.locks[4].waiters == [2] && forall m | 0 <= m < |t.locks| && m != 4 :: t.locks[m].waiters == [];
  }

  lemma FifthForgotten(t: State)
    requires Typed(t) && |t.locks| >= 5 && t.locks[0].owner == By(1) && t.locks[4].owner == By(1)
    requires 2 in t.locks[4].waiters
    requires t.procs[1].owned == seq(MAX_OWNED, i => i) && t.procs[2].priority < t.procs[1].base
    requires forall m | 0 <= m < MAX_OWNED :: t.locks[m].waiters == []
    ensures !UnlistedServed(t, 1, 0)
  {
    var r := Release(t, 1, 0);
    RemoveKeeps(t.procs[1].owned, 0);
    assert forall x | x in r.procs[1].owned :: x in t.procs[1].owned && x < MAX_OWNED && r.locks[x].waiters == [];
    LeastOverBounds(r, r.procs[1].owned, r.procs[1].base);
    assert Recomputed(t, 1, 0) == t.procs[1].base;
    assert 4 !in t.procs[1].owned;
  }

  // ---------------------------------------------------------------- the implementation

  class LockTable {
    const locks: array<Mutex>
    const procs: array<Proc>

    ghost predicate Valid()
      reads locks, procs
    {
      Typed(View())
    }

    ghost function View(): State
      reads locks, procs
    {
      State(locks[..], procs[..])
    }

    constructor (n: nat, base: nat)
      ensures Valid() && fresh(locks) && fresh(procs) && Initial(View())
    {
      locks := new Mutex[n](_ => Mutex(false, NoOwner, [], [], []));
      procs := new Proc[MAX_PROCESSES](_ => Proc(Outside, Nothing, [], base, base));
    }

    method PropagatePriority(start: Pid)
      requires Valid()
      modifies procs
      ensures Valid() && View() == Propagate(old(View()), start, 0)
    {
      var p := start;
      var guard := 0;
      while procs[p].waiting.For? && locks[procs[p].waiting.mid].owner.By? && guard < MAX_PROCESSES
        invariant Valid() && guard <= MAX_PROCESSES
        invariant Propagate(View(), p, guard) == Propagate(old(View()), start, 0)
        decreases MAX_PROCESSES - guard
      {
        var owner := locks[procs[p].waiting.mid].owner.pid;
        if procs[p].priority >= procs[owner].priority {
          break;
        }
        assert View().procs[owner := procs[owner].(priority := procs[p].priority)]
            == SetPriority(View(), owner, procs[p].priority).procs;
        procs[owner] := procs[owner].(priority := procs[p].priority);
        p := owner;
        guard := guard + 1;
      }
    }

    method RecomputePriority(p: Pid)
      requires Valid()
      modifies procs
      ensures Valid() && View() == Recompute(old(View()), p)
    {
      ghost var s := View();
      var owned := procs[p].owned;
      var best := procs[p].base;
      for i := 0 to |owned|
        invariant best == LeastOver(s, owned[..i], s.procs[p].base)
      {
        assert owned[..i + 1][..i] == owned[..i];
        var q := locks[owned[i]].waiters;
        for j := 0 to |q|
          invariant best == LeastOf(s.procs, q[..j], LeastOver(s, owned[..i], s.procs[p].base))
        {
          assert q[..j + 1][..j] == q[..j];
          var w := procs[q[j]].priority;
          if w < best {
            best := w;
          }
        }
        assert q[..|q|] == q;
      }
      assert owned[..|owned|] == owned;
      procs[p] := procs[p].(priority := best);
    }

    method LockRegionCall(p: Pid, m: Mid)
      requires Valid() && m < locks.Length
      modifies locks, procs
      ensures Valid() && View() == LockRegion(old(View()), p, m)
    {
      var l := locks[m];
      if !l.locked {
        locks[m] := l.(locked := true, owner := By(p));
        procs[p] := procs[p].(at := Outside, owned := OwnerAdd(procs[p].owned, m));
        return;
      }
      if |l.waiters| >= MAX_WAITERS {
        return;
      }
      locks[m] := l.(waiters := WaitqAdd(l.waiters, p), arrived := l.arrived + [p]);
      procs[p] := procs[p].(at := Parked(m), waiting := For(m));
      assert View() == Enqueue(old(View()), p, m);
      if l.owner.By? && procs[p].priority < procs[l.owner.pid].priority {
        procs[l.owner.pid] := procs[l.owner.pid].(priority := procs[p].priority);
        PropagatePriority(l.owner.pid);
      }
    }

    method UnlockRegionCall(p: Pid, m: Mid)
      requires Valid() && m < locks.Length && locks[m].owner == By(p)
      modifies locks, procs
      ensures Valid() && View() == Recompute(Release(old(View()), p, m), p)
    {
      var l := locks[m];
      procs[p] := procs[p].(owned := OwnerRemove(procs[p].owned, m));
      if |l.waiters| > 0 {
        var next := l.waiters[0];
        locks[m] := l.(owner := By(next), waiters := l.waiters[1..], served := l.served + [next]);
        procs[next] := procs[next].(at := Woken(m), waiting := Nothing, owned := OwnerAdd(procs[next].owned, m));
      } else {
        locks[m] := l.(locked := false, owner := NoOwner);
      }
      assert View() == Release(old(View()), p, m);
      RecomputePriority(p);
    }
  }
}
