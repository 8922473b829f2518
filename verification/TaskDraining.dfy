/** Liveness of the claim query: it finds work whenever there is any, and claim-complete rounds finish it all. */
module TaskDraining {
  import opened Graphs
  import opened TaskInvariants
  import opened TaskStore
  import opened Wrappers

  /** One project, every task ACTIVE, none leased, none waiting for approval. */
  ghost predicate Resting(s: Store, project: string) {
    && Forest(s)
    && forall id :: id in s.tasks ==>
         var t := s.tasks[id];
         t.projectId == project && t.resolution == Active && t.lease == None && t.state != PendingApproval
  }

  /** At rest, and no unfinished task is its own parent. */
  ghost predicate Quiescent(s: Store, project: string) {
    Resting(s, project) && forall id :: (id, id) in s.edges ==> s.tasks[id].state == Completed
  }

  function Unfinished(s: Store): set<TaskId> {
    set id | id in s.tasks && s.tasks[id].state != Completed
  }

  /** Unfinished tasks, each the parent of the next, from one that is its own parent down to `id`. */
  ghost predicate StuckPath(s: Store, p: seq<TaskId>, id: TaskId) {
    && IsPath(s.edges, p) && p[|p| - 1] == id
    && (p[0], p[0]) in s.edges
    && forall x :: x in p ==> x in Unfinished(s)
  }

  /** The task waits for one that is its own parent. */
  ghost predicate Stuck(s: Store, id: TaskId) {
    exists p :: StuckPath(s, p, id)
  }

  lemma NotReadyHasUnfinishedParent(s: Store, project: string, id: TaskId) returns (parent: TaskId)
    requires Resting(s, project) && id in Unfinished(s) && !Ready(s, project, id)
    ensures (parent, id) in s.edges && parent in Unfinished(s)
    ensures parent == id || s.tasks[parent].serial < s.tasks[id].serial
  {
    var e :| e in s.edges && e.1 == id && e.0 in s.tasks && !Finished(s.tasks[e.0]);
    assert EdgeIsParent(s, e);
    parent := e.0;
  }

  /** When nothing is ready, each unfinished task waits for an older one, and in the end for a self-parent. */
  lemma {:induction false} DeadlockedAreStuck(s: Store, project: string, id: TaskId)
    requires Resting(s, project) && LegalPick(s, project, None) && id in Unfinished(s)
    ensures Stuck(s, id)
    decreases s.tasks[id].serial
  {
    var parent := NotReadyHasUnfinishedParent(s, project, id);
    if parent == id {
      assert StuckPath(s, [id], id);
    } else {
      DeadlockedAreStuck(s, project, parent);
      var p :| StuckPath(s, p, parent);
      assert StuckPath(s, p + [id], id);
    }
  }

  lemma StuckIsNotReady(s: Store, project: string, id: TaskId)
    requires Resting(s, project) && Stuck(s, id)
    ensures !Ready(s, project, id)
  {
    var p :| StuckPath(s, p, id);
    var parent := if |p| == 1 then id else p[|p| - 2];
    assert (parent, id) in s.edges by {
      if |p| > 1 {
        assert (p[|p| - 2], p[|p| - 2 + 1]) in s.edges;
      }
    }
    assert parent in Unfinished(s);
  }

  /** The claim query comes back empty exactly when every unfinished task waits for one that is its own parent. */
  lemma DeadlockExactly(s: Store, project: string)
    requires Resting(s, project)
    ensures LegalPick(s, project, None) <==> forall id :: id in Unfinished(s) ==> Stuck(s, id)
  {
    if LegalPick(s, project, None) {
      forall id | id in Unfinished(s) ensures Stuck(s, id) {
        DeadlockedAreStuck(s, project, id);
      }
    } else {
      var id :| Ready(s, project, id);
      if Stuck(s, id) {
        StuckIsNotReady(s, project, id);
      }
      assert id in Unfinished(s);
    }
  }

  /** The unfinished tasks that wait for a self-parent. */
  ghost function StuckTasks(s: Store): set<TaskId> {
    set id | id in Unfinished(s) && Stuck(s, id)
  }

  /** Without unfinished self-parents no task is stuck. */
  lemma NothingStuck(s: Store, project: string)
    requires Quiescent(s, project)
    ensures StuckTasks(s) == {}
  {
    forall id | id in Unfinished(s) ensures !Stuck(s, id) {
      if Stuck(s, id) {
        var root := StuckNeedsSelfParent(s, id);
      }
    }
  }

  /** Without unfinished self-parents the query comes back empty exactly when every task is COMPLETED. */
  lemma NoDeadlock(s: Store, project: string)
    requires Quiescent(s, project)
    ensures LegalPick(s, project, None) <==> Unfinished(s) == {}
  {
    DeadlockExactly(s, project);
    NothingStuck(s, project);
    forall id | id in Unfinished(s) ensures !Stuck(s, id) {
      assert id !in StuckTasks(s);
    }
  }

  lemma StuckNeedsSelfParent(s: Store, id: TaskId) returns (root: TaskId)
    requires Stuck(s, id)
    ensures (root, root) in s.edges && root in Unfinished(s)
  {
    var p :| StuckPath(s, p, id);
    root := p[0];
    assert root in p;
  }

  datatype Claimant = Claimant(workerId: string, expiresAt: int, leaseId: string)

  /** One successful pass of the worker: claim, then complete. */
  function Round(s: Store, who: Claimant, id: TaskId): Store
    requires id in s.tasks
  {
    Complete(Claim(s, who.workerId, who.expiresAt, who.leaseId, Some(id)), id).store
  }

  /** Rounds with these picks, each by a claimant of its own. */
  ghost predicate Drains(s: Store, project: string, who: seq<Claimant>, picks: seq<TaskId>)
    decreases |picks|
  {
    && |who| == |picks|
    && (picks == [] ||
        (LegalPick(s, project, Some(picks[0])) && Drains(Round(s, who[0], picks[0]), project, who[1..], picks[1..])))
  }

  ghost function Drained(s: Store, project: string, who: seq<Claimant>, picks: seq<TaskId>): Store
    requires Drains(s, project, who, picks)
    decreases |picks|
  {
    if picks == [] then s
    else Drained(Round(s, who[0], picks[0]), project, who[1..], picks[1..])
  }

  lemma RoundRow(s: Store, who: Claimant, id: TaskId)
    requires id in s.tasks && s.tasks[id].state == Planning && s.tasks[id].lease == None
    ensures var s', t := Round(s, who, id), s.tasks[id];
            && s'.tasks == s.tasks[id := t.(state := Completed, revision := t.revision + 2)]
            && FinishesOne(s, s', id)
  {
    var t, claimed := s.tasks[id], Claim(s, who.workerId, who.expiresAt, who.leaseId, Some(id));
    assert claimed.tasks[id].state == Planning;
    assert Round(s, who, id).tasks == claimed.tasks[id := t.(state := Completed, revision := t.revision + 2)];
  }

  /** `s'` is `s` with the row `id` completed. */
  ghost predicate FinishesOne(s: Store, s': Store, id: TaskId) {
    && id in s.tasks && s'.edges == s.edges && s'.tasks.Keys == s.tasks.Keys
    && s'.tasks[id] == s.tasks[id].(state := Completed, revision := s'.tasks[id].revision)
    && forall x :: x in s.tasks && x != id ==> s'.tasks[x] == s.tasks[x]
  }

  lemma FinishingKeepsForest(s: Store, s': Store, id: TaskId)
    requires Forest(s) && FinishesOne(s, s', id)
    ensures Forest(s')
  {
    assert |s'.tasks.Keys| == |s.tasks.Keys|;
  }

  lemma FinishingKeepsResting(s: Store, s': Store, project: string, id: TaskId)
    requires Resting(s, project) && FinishesOne(s, s', id)
    ensures Resting(s', project)
  {
    FinishingKeepsForest(s, s', id);
  }

  /** Finishing a task that was ready frees no task that waits for a self-parent. */
  lemma FinishingKeepsStuck(s: Store, s': Store, project: string, id: TaskId, x: TaskId)
    requires Resting(s, project) && FinishesOne(s, s', id) && Ready(s, project, id)
    ensures Stuck(s', x) <==> Stuck(s, x)
  {
    if Stuck(s, x) {
      var p :| StuckPath(s, p, x);
      forall j | 0 <= j < |p| ensures p[j] != id {
        if p[j] == id {
          assert StuckPath(s, p[..j + 1], id);
          StuckIsNotReady(s, project, id);
        }
      }
      assert StuckPath(s', p, x);
    }
    if Stuck(s', x) {
      var p :| StuckPath(s', p, x);
      assert StuckPath(s, p, x);
    }
  }

  lemma PickedOneIsNotStuck(s: Store, s': Store, project: string, id: TaskId)
    requires Resting(s, project) && FinishesOne(s, s', id) && Ready(s, project, id)
    ensures id !in StuckTasks(s) && StuckTasks(s') == StuckTasks(s)
  {
    if Stuck(s, id) {
      StuckIsNotReady(s, project, id);
    }
    FinishingShrinks(s, s', id);
    forall x ensures x in StuckTasks(s') <==> x in StuckTasks(s) {
      FinishingKeepsStuck(s, s', project, id, x);
    }
  }

  lemma FinishingShrinks(s: Store, s': Store, id: TaskId)
    requires FinishesOne(s, s', id) && s.tasks[id].state != Completed
    ensures id in Unfinished(s) && Unfinished(s') == Unfinished(s) - {id}
  {
  }

  /** A parent was finished before, or is picked earlier. */
  ghost predicate ParentsPickedFirst(s: Store, picks: seq<TaskId>) {
    forall e, k :: e in s.edges && 0 <= k < |picks| && e.1 == picks[k] ==> e.0 !in Unfinished(s) || e.0 in picks[..k]
  }

  lemma {:induction false} DrainingInduction(s: Store, project: string, who: seq<Claimant>, picks: seq<TaskId>)
    requires Resting(s, project) && Drains(s, project, who, picks)
    ensures var end := Drained(s, project, who, picks);
            && Resting(end, project) && StuckTasks(end) == StuckTasks(s)
            && Unfinished(end) == Unfinished(s) - Elements(picks)
            && Distinct(picks) && Elements(picks) <= Unfinished(s) - StuckTasks(s)
            && ParentsPickedFirst(s, picks)
    decreases |picks|
  {
    if picks != [] {
      var next, rest := Round(s, who[0], picks[0]), picks[1..];
      RoundRow(s, who[0], picks[0]);
      FinishingKeepsResting(s, next, project, picks[0]);
      FinishingShrinks(s, next, picks[0]);
      PickedOneIsNotStuck(s, next, project, picks[0]);
      DrainingInduction(next, project, who[1..], rest);
      FirstPick(s, next, project, picks);
    }
  }

  lemma FirstPick(s: Store, next: Store, project: string, picks: seq<TaskId>)
    requires picks != [] && Resting(s, project) && Ready(s, project, picks[0])
    requires next.edges == s.edges && picks[0] in Unfinished(s) && Unfinished(next) == Unfinished(s) - {picks[0]}
    requires Distinct(picks[1..]) && Elements(picks[1..]) <= Unfinished(next) && ParentsPickedFirst(next, picks[1..])
    ensures Distinct(picks) && Elements(picks) <= Unfinished(s) && ParentsPickedFirst(s, picks)
    ensures Elements(picks) == {picks[0]} + Elements(picks[1..])
  {
    var rest := picks[1..];
    assert picks == [picks[0]] + rest;
    assert Elements(picks) == {picks[0]} + Elements(rest);
    forall j | 0 < j < |picks| ensures picks[j] != picks[0] {
      assert picks[j] == rest[j - 1] && picks[j] in Elements(rest);
    }
    forall e, k | e in s.edges && 0 <= k < |picks| && e.1 == picks[k]
      ensures e.0 !in Unfinished(s) || e.0 in picks[..k]
    {
      if k == 0 {
        assert Finished(s.tasks[e.0]);
      } else {
        assert e.1 == rest[k - 1];
        if e.0 in rest[..k - 1] {
          var i :| 0 <= i < k - 1 && rest[i] == e.0;
          assert picks[..k][i + 1] == e.0;
        } else if e.0 == picks[0] {
          assert picks[..k][0] == e.0;
        }
      }
    }
  }

  /**
   * However ties are broken, n unfinished tasks that wait for no self-parent take exactly n rounds: no task is
   * picked twice, after fewer rounds another pick exists, after n rounds none does, and parents always come
   * before their children.
   */
  lemma DrainingTakesOneRoundEach(s: Store, project: string, who: seq<Claimant>, picks: seq<TaskId>)
    requires Resting(s, project) && Drains(s, project, who, picks)
    ensures var free := Unfinished(s) - StuckTasks(s);
            && Distinct(picks) && Elements(picks) <= free && |picks| <= |free|
            && (LegalPick(Drained(s, project, who, picks), project, None) <==> |picks| == |free|)
    ensures ParentsPickedFirst(s, picks)
  {
    var end := Drained(s, project, who, picks);
    DrainingInduction(s, project, who, picks);
    EmptyPickMeansStuck(end, project);
    AllPicked(picks, Unfinished(s), StuckTasks(s));
  }

  lemma EmptyPickMeansStuck(s: Store, project: string)
    requires Resting(s, project)
    ensures LegalPick(s, project, None) <==> Unfinished(s) <= StuckTasks(s)
  {
    DeadlockExactly(s, project);
  }

  lemma AllPicked(picks: seq<TaskId>, unfinished: set<TaskId>, stuck: set<TaskId>)
    requires Distinct(picks) && Elements(picks) <= unfinished - stuck
    ensures |picks| <= |unfinished - stuck|
    ensures unfinished - Elements(picks) <= stuck <==> |picks| == |unfinished - stuck|
  {
    var free := unfinished - stuck;
    DistinctBounded(picks, free);
    DistinctCardinality(picks);
    if |picks| == |free| {
      SubsetOfSameSize(Elements(picks), free);
    }
    assert unfinished - Elements(picks) <= stuck ==> Elements(picks) == free;
  }
}
