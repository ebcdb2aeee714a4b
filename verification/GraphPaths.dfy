// Long paths and cycles of process graphs.
module GraphPaths {
  import opened Wrappers
  import opened Domain
  import opened SagaDefinition
  import opened GraphDefinition

  ghost predicate PathFromEntry(d: ProcessGraphDefinition, path: seq<StepId>) {
    IsPath(d, path) && path[0] == d.entryStepId
  }

  // Some path from the entry visits this many steps.
  ghost predicate HasPath(d: ProcessGraphDefinition, n: nat) {
    exists path :: PathFromEntry(d, path) && |path| == n
  }

  ghost predicate IsCycle(d: ProcessGraphDefinition, cycle: seq<StepId>) {
    IsPath(d, cycle) && |cycle| >= 2 && cycle[0] == cycle[|cycle| - 1]
  }

  ghost predicate HasCycle(d: ProcessGraphDefinition) {
    exists cycle :: IsCycle(d, cycle)
  }

  lemma PathPrefix(d: ProcessGraphDefinition, path: seq<StepId>, n: nat)
    requires PathFromEntry(d, path) && 0 < n <= |path|
    ensures PathFromEntry(d, path[..n])
  {
  }

  lemma PathTail(d: ProcessGraphDefinition, path: seq<StepId>)
    requires IsPath(d, path) && |path| > 1
    ensures IsPath(d, path[1..]) && Linked(d, path[0], path[1])
  {
    forall i | 0 <= i < |path[1..]| - 1 ensures Linked(d, path[1..][i], path[1..][i + 1]) {
      assert Linked(d, path[i + 1], path[i + 2]);
    }
  }

  lemma PathSnoc(d: ProcessGraphDefinition, path: seq<StepId>, next: StepId)
    requires IsPath(d, path) && Linked(d, path[|path| - 1], next)
    ensures IsPath(d, path + [next])
  {
    var longer := path + [next];
    forall i | 0 <= i < |longer| - 1 ensures Linked(d, longer[i], longer[i + 1]) {
      if i < |path| - 1 {
        assert Linked(d, path[i], path[i + 1]);
      }
    }
  }

  // ------------------------------------------------------------ cycles give length

  // A path goes on along `rest` to the start of the cycle, and then around it.
  lemma {:induction false} PathGoesRound(d: ProcessGraphDefinition, cycle: seq<StepId>, path: seq<StepId>, rest: seq<StepId>, n: nat)
    requires IsCycle(d, cycle) && PathFromEntry(d, path) && |path| <= n
    requires IsPath(d, rest) && rest[0] == path[|path| - 1] && rest[|rest| - 1] == cycle[0]
    ensures HasPath(d, n)
    decreases n - |path|
  {
    if |path| < n {
      var ahead := if |rest| > 1 then rest else cycle;
      PathTail(d, ahead);
      PathSnoc(d, path, ahead[1]);
      PathGoesRound(d, cycle, path + [ahead[1]], ahead[1..], n);
    }
  }

  lemma LinkIsDeclared(d: ProcessGraphDefinition, a: StepId, b: StepId)
    requires ValidGraph(d) && Linked(d, a, b)
    ensures Declared(d, a) && Declared(d, b)
  {
    var i :| 0 <= i < |d.transitions| && d.transitions[i].fromStep == a && d.transitions[i].toStep == Some(b);
  }

  lemma CycleIsReached(d: ProcessGraphDefinition, cycle: seq<StepId>) returns (way: seq<StepId>)
    requires ValidGraph(d) && IsCycle(d, cycle)
    ensures PathFromEntry(d, way) && way[|way| - 1] == cycle[0]
  {
    PathTail(d, cycle);
    LinkIsDeclared(d, cycle[0], cycle[1]);
    var k :| 0 <= k < |d.steps| && d.steps[k].stepId == cycle[0];
    assert Reaches(d, d.entryStepId, d.steps[k].stepId);
    way :| IsPath(d, way) && way[0] == d.entryStepId && way[|way| - 1] == cycle[0];
  }

  lemma CycleGivesLength(d: ProcessGraphDefinition, n: nat)
    requires ValidGraph(d) && HasCycle(d) && n >= 1
    ensures HasPath(d, n)
  {
    var cycle :| IsCycle(d, cycle);
    var way := CycleIsReached(d, cycle);
    PathGoesRound(d, cycle, [d.entryStepId], way, n);
  }

  // ------------------------------------------------------------ length gives cycles

  lemma NodeIsDeclared(d: ProcessGraphDefinition, path: seq<StepId>, i: nat)
    requires ValidGraph(d) && PathFromEntry(d, path) && i < |path|
    ensures Declared(d, path[i])
  {
    if i > 0 {
      assert Linked(d, path[i - 1], path[i]);
      LinkIsDeclared(d, path[i - 1], path[i]);
    }
  }

  function StepIds(d: ProcessGraphDefinition): set<StepId> {
    set i | 0 <= i < |d.steps| :: d.steps[i].stepId
  }

  lemma {:induction false} FewStepIds(steps: seq<StepPlan>, ids: set<StepId>)
    requires forall id :: id in ids ==> exists i :: 0 <= i < |steps| && steps[i].stepId == id
    ensures |ids| <= |steps|
  {
    if steps == [] {
      assert ids == {};
    } else {
      var n := |steps| - 1;
      var rest := ids - {steps[n].stepId};
      forall id | id in rest ensures exists i :: 0 <= i < |steps[..n]| && steps[..n][i].stepId == id {
        var i :| 0 <= i < |steps| && steps[i].stepId == id;
        assert i < n && steps[..n][i].stepId == id;
      }
      FewStepIds(steps[..n], rest);
    }
  }

  lemma DistinctPathIsShort(d: ProcessGraphDefinition, path: seq<StepId>)
    requires ValidGraph(d) && PathFromEntry(d, path) && Distinct(path)
    ensures |path| <= |d.steps|
  {
    forall i | 0 <= i < |path| ensures path[i] in StepIds(d) {
      NodeIsDeclared(d, path, i);
    }
    DistinctFits(path, StepIds(d));
    FewStepIds(d.steps, StepIds(d));
  }

  lemma RepeatIsCycle(d: ProcessGraphDefinition, path: seq<StepId>, i: nat, j: nat)
    requires IsPath(d, path) && i < j < |path| && path[i] == path[j]
    ensures HasCycle(d)
  {
    var cycle := path[i..j + 1];
    forall k | 0 <= k < |cycle| - 1 ensures Linked(d, cycle[k], cycle[k + 1]) {
      assert Linked(d, path[i + k], path[i + k + 1]);
    }
    assert IsCycle(d, cycle);
  }

  lemma LongPathRepeats(d: ProcessGraphDefinition, path: seq<StepId>)
    requires ValidGraph(d) && PathFromEntry(d, path) && |path| > |d.steps|
    ensures HasCycle(d)
  {
    if Distinct(path) {
      DistinctPathIsShort(d, path);
    } else {
      var i, j :| 0 <= i < j < |path| && path[i] == path[j];
      RepeatIsCycle(d, path, i, j);
    }
  }

  // A valid graph has paths longer than it has steps exactly when it has a cycle,
  // and then of every length.
  lemma LongPathIffCycle(d: ProcessGraphDefinition, n: nat)
    requires ValidGraph(d) && n > |d.steps|
    ensures HasPath(d, n) <==> HasCycle(d)
  {
    if HasPath(d, n) {
      var path :| PathFromEntry(d, path) && |path| == n;
      LongPathRepeats(d, path);
    }
    if HasCycle(d) {
      CycleGivesLength(d, n);
    }
  }
}
