/**
  The deadlock detector.  It starts each search from a waiter to the owners it waits for,
  but the search itself walks from an owner to the waiters of its mutexes.
 */
module Deadlock {

  const MAX_PROCESSES: nat := 16

  /** A reference to a PCB: its slot, or any other number for null or a foreign pointer. */
  type Ref = int

  predicate InTable(p: Ref) { 0 <= p < MAX_PROCESSES }

  /** What the detector reads of a registered mutex. */
  datatype Mutex = Mutex(owned: bool, owner: Ref, waiters: seq<Ref>)

  /** Wait-for edge: process `a` is queued on a registered mutex owned by process `b`. */
  predicate WaitsFor(locks: seq<Mutex>, a: Ref, b: Ref) {
    InTable(a) && InTable(b) &&
    exists i | 0 <= i < |locks| :: locks[i].owned && locks[i].owner == b && a in locks[i].waiters
  }

  function Unvisited(visiting: seq<bool>): nat {
    |set n | 0 <= n < |visiting| && !visiting[n]|
  }

  lemma VisitDecreases(visiting: seq<bool>, node: nat)
    requires node < |visiting| && !visiting[node]
    ensures Unvisited(visiting[node := true]) < Unvisited(visiting)
  {
    var before := set n | 0 <= n < |visiting| && !visiting[n];
    var marked := visiting[node := true];
    var after := set n | 0 <= n < |marked| && !marked[n];
    assert before == after + {node};
  }

  /** No visited process is a waiter of `node`, over the first `i` mutexes and `j` waiters of the next. */
  ghost predicate NoneVisited(locks: seq<Mutex>, node: nat, visiting: seq<bool>, i: nat, j: nat)
    requires |visiting| == MAX_PROCESSES && i <= |locks|
  {
    && (forall i', j' | 0 <= i' < i && 0 <= j' < |locks[i'].waiters| ::
          locks[i'].owned && locks[i'].owner == node && InTable(locks[i'].waiters[j'])
          ==> !visiting[locks[i'].waiters[j']])
    && (i < |locks| ==> forall j' | 0 <= j' < j && j' < |locks[i].waiters| ::
          locks[i].owned && locks[i].owner == node && InTable(locks[i].waiters[j'])
          ==> !visiting[locks[i].waiters[j']])
  }

  /**
    A search that finds nothing leaves `visiting` as it was and `node` done.  It finds
    something if `node` is being visited, and also if an unfinished `node` has a waiter that
    is being visited.
   */
  method Dfs(locks: seq<Mutex>, node: nat, visiting: array<bool>, done: array<bool>) returns (found: bool)
    requires visiting.Length == done.Length == MAX_PROCESSES && visiting != done && node < MAX_PROCESSES
    modifies visiting, done
    ensures old(visiting[node]) ==> found
    ensures !old(visiting[node]) && old(done[node]) ==>
              !found && visiting[..] == old(visiting[..]) && done[..] == old(done[..])
    ensures !old(visiting[node]) && !old(done[node]) ==>
              (exists w :: WaitsFor(locks, w, node) && old(visiting[w])) ==> found
    ensures !found ==> visiting[..] == old(visiting[..]) && done[node]
    ensures forall n | 0 <= n < MAX_PROCESSES :: old(done[n]) ==> done[n]
    decreases Unvisited(visiting[..])
  {
    if visiting[node] {
      return true;
    }
    if done[node] {
      return false;
    }
    VisitDecreases(visiting[..], node);
    visiting[node] := true;
    ghost var marked := old(visiting[..])[node := true];
    var i := 0;
    while i < |locks|
      invariant 0 <= i <= |locks|
      invariant visiting[..] == marked
      invariant NoneVisited(locks, node, marked, i, 0)
      invariant forall n | 0 <= n < MAX_PROCESSES :: old(done[n]) ==> done[n]
    {
      var m := locks[i];
      if m.owned {
        var j := 0;
        while j < |m.waiters|
          invariant 0 <= j <= |m.waiters|
          invariant visiting[..] == marked
          invariant NoneVisited(locks, node, marked, i, j)
          invariant forall n | 0 <= n < MAX_PROCESSES :: old(done[n]) ==> done[n]
        {
          var w := m.waiters[j];
          if InTable(w) && m.owner == node {
            assert visiting[w] == marked[w];
            var hit := Dfs(locks, w, visiting, done);
            if hit {
              return true;
            }
          }
          j := j + 1;
        }
      }
      i := i + 1;
    }
    visiting[node] := false;
    done[node] := true;
    return false;
  }

  /** A live process waits for a process that is not live in an earlier slot. */
  ghost predicate Suspicious(locks: seq<Mutex>, terminated: seq<bool>)
    requires |terminated| == MAX_PROCESSES
  {
    exists a: nat, b: nat | a < MAX_PROCESSES && b < MAX_PROCESSES ::
      WaitsFor(locks, a, b) && !terminated[a] && (terminated[b] || b >= a)
  }

  /** `done` holds exactly for the live processes below `i`, each waiting only for done ones. */
  ghost predicate Swept(locks: seq<Mutex>, terminated: seq<bool>, done: seq<bool>, i: nat)
    requires |terminated| == |done| == MAX_PROCESSES && i <= MAX_PROCESSES
  {
    && (forall n | 0 <= n < MAX_PROCESSES :: done[n] <==> n < i && !terminated[n])
    && (forall a: nat, b: nat | a < i && b < MAX_PROCESSES && WaitsFor(locks, a, b) && !terminated[a] ::
          b < a && !terminated[b])
  }

  /** The owners of the mutexes `a` waits on are all done, over the first `i` mutexes. */
  ghost predicate OwnersDone(locks: seq<Mutex>, a: nat, done: seq<bool>, i: nat)
    requires |done| == MAX_PROCESSES && i <= |locks|
  {
    forall k | 0 <= k < i :: locks[k].owned && InTable(locks[k].owner) && a in locks[k].waiters ==> done[locks[k].owner]
  }

  /** Exact characterisation of the detector's answer. */
  method Detect(locks: seq<Mutex>, terminated: seq<bool>) returns (found: bool)
    requires |terminated| == MAX_PROCESSES
    ensures found <==> Suspicious(locks, terminated)
  {
    var visiting := new bool[MAX_PROCESSES](_ => false);
    var done := new bool[MAX_PROCESSES](_ => false);
    var i := 0;
    while i < MAX_PROCESSES
      invariant 0 <= i <= MAX_PROCESSES
      invariant forall n | 0 <= n < MAX_PROCESSES :: !visiting[n]
      invariant Swept(locks, terminated, done[..], i)
    {
      if !terminated[i] && !visiting[i] && !done[i] {
        visiting[i] := true;
        ghost var marked, finished := visiting[..], done[..];
        var k := 0;
        while k < |locks|
          invariant 0 <= k <= |locks|
          invariant visiting[..] == marked && done[..] == finished
          invariant OwnersDone(locks, i, finished, k)
        {
          var m := locks[k];
          if m.owned {
            var j := 0;
            while j < |m.waiters|
              invariant 0 <= j <= |m.waiters|
              invariant visiting[..] == marked && done[..] == finished
              invariant i in m.waiters[..j] && InTable(m.owner) ==> finished[m.owner]
            {
              if m.waiters[j] == i && InTable(m.owner) {
                assert WaitsFor(locks, i, m.owner);
                assert marked[i] && finished[m.owner] == done[m.owner] && marked[m.owner] == visiting[m.owner];
                var hit := Dfs(locks, m.owner, visiting, done);
                if hit {
                  return true;
                }
              }
              j := j + 1;
            }
            assert m.waiters[..j] == m.waiters;
          }
          k := k + 1;
        }
        visiting[i] := false;
        done[i] := true;
      }
      i := i + 1;
    }
    return false;
  }

  // ---------------------------------------------------------------- cycles

  /** A cycle of the wait-for graph, written as a closed walk from one of its processes. */
  ghost predicate IsCycle(locks: seq<Mutex>, walk: seq<nat>) {
    && |walk| >= 2 && walk[0] == walk[|walk| - 1]
    && forall k: nat | k + 1 < |walk| :: WaitsFor(locks, walk[k], walk[k + 1])
  }

  /** While nothing is suspicious, every walk from a live process descends through live slots. */
  lemma {:induction false} WalkDescends(locks: seq<Mutex>, terminated: seq<bool>, walk: seq<nat>, k: nat)
    requires |terminated| == MAX_PROCESSES && !Suspicious(locks, terminated)
    requires IsCycle(locks, walk) && InTable(walk[0]) && !terminated[walk[0]] && 1 <= k < |walk|
    ensures InTable(walk[k]) && walk[k] < walk[0] && !terminated[walk[k]]
  {
    assert WaitsFor(locks, walk[k - 1], walk[k]);
    if k > 1 {
      WalkDescends(locks, terminated, walk, k - 1);
    }
  }

  /** No missed cycle: a cycle through a live process always makes the detector answer yes. */
  lemma CycleDetected(locks: seq<Mutex>, terminated: seq<bool>, walk: seq<nat>)
    requires |terminated| == MAX_PROCESSES
    requires IsCycle(locks, walk) && InTable(walk[0]) && !terminated[walk[0]]
    ensures Suspicious(locks, terminated)
  {
    if !Suspicious(locks, terminated) {
      WalkDescends(locks, terminated, walk, |walk| - 1);
    }
  }

  /** The converse fails: one process waiting for a later, running one is already reported. */
  lemma FalseAlarm(terminated: seq<bool>)
    requires |terminated| == MAX_PROCESSES && !terminated[1]
    ensures var locks := [Mutex(true, 2, [1])];
            Suspicious(locks, terminated) && forall walk :: !IsCycle(locks, walk)
  {
    var locks := [Mutex(true, 2, [1])];
    assert 1 in locks[0].waiters && WaitsFor(locks, 1, 2);
    forall walk
      ensures !IsCycle(locks, walk)
    {
      var last := |walk| - 1;
      if last >= 1 && walk[0] == walk[last] {
        // the only edge leads from 1 to 2
        assert !WaitsFor(locks, walk[0], walk[1]) || !WaitsFor(locks, walk[last - 1], walk[(last - 1) + 1]);
      }
    }
  }
}
