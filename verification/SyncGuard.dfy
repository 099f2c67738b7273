/** The isSyncing flag. A pass gives way at every await, so calls of reconcile interleave; the
    flag is cleared by a task that runs some time after the pass has ended. */
module SyncGuard {

  /** A call before its first line, turned away, at work, at its end with the flag still to be
      cleared, and over. */
  datatype Call = Waiting | Refused | Working | Lingering | Over

  datatype Guard = Guard(isSyncing: bool, calls: seq<Call>)

  datatype Step = Arrive | Enter(call: nat) | Work(call: nat) | Leave(call: nat) | Clear(call: nat)

  predicate Enabled(g: Guard, step: Step) {
    match step
    case Arrive => true
    case Enter(i) => i < |g.calls| && g.calls[i].Waiting?
    case Work(i) => i < |g.calls| && g.calls[i].Working?
    case Leave(i) => i < |g.calls| && g.calls[i].Working?
    case Clear(i) => i < |g.calls| && g.calls[i].Lingering?
  }

  function Take(g: Guard, step: Step): Guard
    requires Enabled(g, step)
  {
    match step
    case Arrive => g.(calls := g.calls + [Waiting])
    case Enter(i) => if g.isSyncing then g.(calls := g.calls[i := Refused]) else Guard(true, g.calls[i := Working])
    case Work(i) => g
    case Leave(i) => g.(calls := g.calls[i := Lingering])
    case Clear(i) => Guard(false, g.calls[i := Over])
  }

  predicate Inside(c: Call) {
    c.Working? || c.Lingering?
  }

  /** The flag is up exactly while one call is inside, and never are two. */
  ghost predicate Exclusive(g: Guard) {
    && (g.isSyncing <==> exists i :: 0 <= i < |g.calls| && Inside(g.calls[i]))
    && (forall i, j :: 0 <= i < |g.calls| && 0 <= j < |g.calls| && Inside(g.calls[i]) && Inside(g.calls[j]) ==> i == j)
  }

  lemma StepKeepsExclusive(g: Guard, step: Step)
    requires Exclusive(g) && Enabled(g, step)
    ensures Exclusive(Take(g, step))
  {
    var h := Take(g, step);
    match step
    case Arrive =>
      if g.isSyncing {
        var i :| 0 <= i < |g.calls| && Inside(g.calls[i]);
        assert Inside(h.calls[i]);
      }
    case Enter(i) =>
      if g.isSyncing {
        var j :| 0 <= j < |g.calls| && Inside(g.calls[j]);
        assert Inside(h.calls[j]);
      } else {
        assert Inside(h.calls[i]);
      }
    case Work(_) =>
    case Leave(i) =>
      assert Inside(g.calls[i]) && Inside(h.calls[i]);
    case Clear(i) =>
      assert Inside(g.calls[i]);
  }

  ghost predicate IsRun(g: Guard, steps: seq<Step>)
    decreases |steps|
  {
    steps == [] || (Enabled(g, steps[0]) && IsRun(Take(g, steps[0]), steps[1..]))
  }

  ghost function EndOf(g: Guard, steps: seq<Step>): Guard
    requires IsRun(g, steps)
    decreases |steps|
  {
    if steps == [] then g else EndOf(Take(g, steps[0]), steps[1..])
  }

  lemma {:induction false} ExclusiveOverRuns(g: Guard, steps: seq<Step>)
    requires Exclusive(g) && IsRun(g, steps)
    ensures Exclusive(EndOf(g, steps))
    decreases |steps|
  {
    if steps != [] {
      StepKeepsExclusive(g, steps[0]);
      ExclusiveOverRuns(Take(g, steps[0]), steps[1..]);
    }
  }

  /** Under every interleaving of any number of calls, at most one pass is inside, from raising
      the flag to clearing it, and no call gets in before the flag of the last one has been
      cleared. */
  lemma OnePassAtATime(steps: seq<Step>, i: nat, j: nat)
    requires IsRun(Guard(false, []), steps)
    requires var g := EndOf(Guard(false, []), steps); i < |g.calls| && Inside(g.calls[i])
    ensures var g := EndOf(Guard(false, []), steps);
            && (j < |g.calls| && Inside(g.calls[j]) ==> i == j)
            && (Enabled(g, Enter(j)) ==> Take(g, Enter(j)).calls[j].Refused?)
  {
    ExclusiveOverRuns(Guard(false, []), steps);
  }

  /** A call gets to work exactly when no other is inside, and is turned away otherwise: a guard
      that turned everyone away would keep passes apart as well. */
  lemma EntersIffFree(steps: seq<Step>, j: nat)
    requires IsRun(Guard(false, []), steps)
    requires var g := EndOf(Guard(false, []), steps); j < |g.calls| && g.calls[j].Waiting?
    ensures var g := EndOf(Guard(false, []), steps);
            var free := forall i :: 0 <= i < |g.calls| ==> !Inside(g.calls[i]);
            && Enabled(g, Enter(j))
            && Take(g, Enter(j)).calls[j] == (if free then Working else Refused)
  {
    ExclusiveOverRuns(Guard(false, []), steps);
  }
}
