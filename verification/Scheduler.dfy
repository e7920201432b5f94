/**
 The FCFS and PRIORITY scans of scheduler(). The process table is shared: before each lock is obtained,
 other processors may have changed every process whose lock this one does not hold.
 */
module Scheduler {
  import opened ProcMachine

  datatype Task = Task(state: PState, creation: nat, priority: int)

  datatype Policy = Fcfs | Priority

  /** The test that makes task a replace candidate b. */
  predicate Beats(policy: Policy, a: Task, b: Task) {
    match policy
    case Fcfs => a.creation < b.creation
    case Priority => a.priority < b.priority || (a.priority == b.priority && a.creation < b.creation)
  }

  /** The order the policy stands for; ties go to the lower slot. */
  predicate Precedes(policy: Policy, a: Task, i: int, b: Task, j: int) {
    match policy
    case Fcfs => a.creation < b.creation || (a.creation == b.creation && i <= j)
    case Priority =>
      a.priority < b.priority
      || (a.priority == b.priority && (a.creation < b.creation || (a.creation == b.creation && i <= j)))
  }

  lemma PrecedesTotal(policy: Policy, a: Task, i: int, b: Task, j: int)
    ensures Precedes(policy, a, i, b, j) || Precedes(policy, b, j, a, i)
    ensures Precedes(policy, a, i, b, j) && Precedes(policy, b, j, a, i) ==> i == j
  {
  }

  lemma PrecedesTrans(policy: Policy, a: Task, i: int, b: Task, j: int, c: Task, k: int)
    requires Precedes(policy, a, i, b, j) && Precedes(policy, b, j, c, k)
    ensures Precedes(policy, a, i, c, k)
  {
  }

  /** Of the first n tasks as they were seen, w is the runnable one that comes first; -1 if there is none. */
  ghost predicate First(policy: Policy, seen: seq<Task>, n: int, w: int) {
    && 0 <= n <= |seen| && -1 <= w < n
    && (w == -1 ==> forall i :: 0 <= i < n ==> !seen[i].state.Runnable?)
    && (w != -1 ==> seen[w].state.Runnable?
                    && forall i :: 0 <= i < n && seen[i].state.Runnable? ==> Precedes(policy, seen[w], w, seen[i], i))
  }

  /** There is only one such task. */
  lemma FirstUnique(policy: Policy, seen: seq<Task>, n: int, w: int, v: int)
    requires First(policy, seen, n, w) && First(policy, seen, n, v)
    ensures w == v
  {
    if w != -1 && v != -1 {
      PrecedesTotal(policy, seen[w], w, seen[v], v);
    }
  }

  lemma FirstStep(policy: Policy, seen: seq<Task>, p: int, w: int, w': int)
    requires 0 <= p < |seen| && First(policy, seen, p, w)
    requires w' == if seen[p].state.Runnable? && (w == -1 || Beats(policy, seen[p], seen[w])) then p else w
    ensures First(policy, seen, p + 1, w')
  {
    if w' == p && w != -1 {
      forall i | 0 <= i < p && seen[i].state.Runnable? ensures Precedes(policy, seen[p], p, seen[i], i) {
        PrecedesTrans(policy, seen[p], p, seen[w], w, seen[i], i);
      }
    }
  }

  /** Under FCFS the first is the oldest; under PRIORITY the one of least number, and of those the oldest. */
  lemma FirstMeans(policy: Policy, seen: seq<Task>, n: int, w: int, i: int)
    requires First(policy, seen, n, w) && 0 <= i < n && seen[i].state.Runnable?
    ensures w != -1 && seen[w].state.Runnable?
    ensures policy.Fcfs? ==> seen[w].creation <= seen[i].creation
    ensures policy.Priority? ==> seen[w].priority <= seen[i].priority
    ensures policy.Priority? && seen[w].priority == seen[i].priority ==> seen[w].creation <= seen[i].creation
    ensures seen[w].creation == seen[i].creation && (policy.Priority? ==> seen[w].priority == seen[i].priority) ==>
              w <= i
  {
    assert Precedes(policy, seen[w], w, seen[i], i);
  }

  class Cpu {
    var procs: seq<Task>
    var held: set<int>

    /** Obtains p's lock; others holds what the rest of the machine has made of the table by then. */
    method Acquire(p: int, others: seq<Task>)
      requires 0 <= p < |procs| == |others| && (forall h :: h in held ==> h < p)
      modifies this
      ensures |procs| == old(|procs|) && held == old(held) + {p}
      ensures forall i :: 0 <= i < |procs| ==> procs[i] == if i in old(held) then old(procs[i]) else others[i]
    {
      var (mine, locks) := (procs, held);
      procs := seq(|mine|, i requires 0 <= i < |mine| => if i in locks then mine[i] else others[i]);
      held := held + {p};
    }

    method Release(p: int)
      requires p in held
      modifies this`held
      ensures held == old(held) - {p}
    {
      held := held - {p};
    }

    /**
     Ends holding exactly the winner's lock, or none; locks are taken in ascending order; the winner
     comes first among those that were runnable when seen, and is still as it was seen.
     */
    method Scan(policy: Policy, script: seq<seq<Task>>) returns (w: int, ghost seen: seq<Task>)
      requires held == {} && |script| == |procs| && forall k :: 0 <= k < |script| ==> |script[k]| == |procs|
      modifies this
      ensures |procs| == old(|procs|) == |seen| && First(policy, seen, |seen|, w)
      ensures forall i :: 0 <= i < |seen| && i != w ==> seen[i] == script[i][i]
      ensures held == if w == -1 then {} else {w}
      ensures w != -1 ==> procs[w] == seen[w] == script[w][w] && procs[w].state.Runnable?
      ensures forall i :: 0 <= i < |seen| && seen[i].state.Runnable? ==>
                && w != -1 && (policy.Fcfs? ==> seen[w].creation <= seen[i].creation)
                && (policy.Priority? ==> seen[w].priority <= seen[i].priority)
                && (policy.Priority? && seen[w].priority == seen[i].priority ==> seen[w].creation <= seen[i].creation)
    {
      w := -1;
      ghost var n := |procs|;
      seen := seq(n, i requires 0 <= i < n => script[i][i]);
      var p := 0;
      while p < |procs|
        invariant 0 <= p <= |procs| == n == |script| == |seen| && First(policy, seen, p, w)
        invariant forall i :: 0 <= i < n ==> seen[i] == script[i][i]
        invariant held == (if w == -1 then {} else {w}) && (w != -1 ==> procs[w] == seen[w])
      {
        Acquire(p, script[p]);
        FirstStep(policy, seen, p, w,
                  if seen[p].state.Runnable? && (w == -1 || Beats(policy, seen[p], seen[w])) then p else w);
        if procs[p].state.Runnable? && (w == -1 || Beats(policy, procs[p], procs[w])) {
          if w != -1 {
            Release(w);
          }
          w := p;
        } else {
          Release(p);
        }
        p := p + 1;
      }
      forall i | 0 <= i < |seen| && seen[i].state.Runnable?
        ensures w != -1 && (policy.Fcfs? ==> seen[w].creation <= seen[i].creation)
        ensures policy.Priority? ==> seen[w].priority <= seen[i].priority
        ensures policy.Priority? && seen[w].priority == seen[i].priority ==> seen[w].creation <= seen[i].creation
      {
        FirstMeans(policy, seen, |seen|, w, i);
      }
    }
  }
}
