/**
  The store object behind maintenance plans: its methods change table rows one
  statement at a time, and an apply undoes them all when a group fails.
 */
module MaintenancePlanStore {
  import opened Common
  import opened Sorting
  import opened TextOrder
  import opened PlanItems
  import opened MaintenancePlans
  import R = MaintenanceRuns

  lemma {:induction false} AppliedKeysNext(audit: seq<Event>, e: Event, id: string)
    ensures AppliedKeys(audit + [e], id) == AppliedKeys(audit, id) + if e.plan == id && e.ok then [e.key] else []
  {
    if audit == [] {
      assert ([] + [e])[1..] == audit && audit + [e] == [e];
    } else {
      AppliedKeysNext(audit[1..], e, id);
      assert (audit + [e])[1..] == audit[1..] + [e];
    }
  }

  /** `filter((e) => e.id !== keep)` */
  function Others(targets: seq<string>, keep: string): (r: seq<string>)
    ensures forall t :: t in r <==> t in targets && t != keep
    ensures |r| <= |targets|
  {
    if targets == [] then []
    else if targets[0] == keep then Others(targets[1..], keep)
    else [targets[0]] + Others(targets[1..], keep)
  }

  lemma {:induction false} OthersDistinct(targets: seq<string>, keep: string)
    requires Distinct(targets)
    ensures Distinct(Others(targets, keep))
    ensures |Others(targets, keep)| == |targets| - if keep in targets then 1 else 0
  {
    if targets != [] {
      OthersDistinct(targets[1..], keep);
      assert targets == [targets[0]] + targets[1..];
      assert targets[0] !in targets[1..];
    }
  }

  lemma TargetListMembers(group: seq<Item>)
    requires DistinctTargets(group)
    ensures Distinct(TargetList(group))
    ensures forall t :: t in TargetList(group) <==> t in Targets(group)
  {
    var targets := TargetList(group);
    forall x | x in group
      ensures x.target in targets
    {
      var k :| 0 <= k < |group| && group[k] == x;
      assert targets[k] == x.target;
    }
    forall t | t in targets
      ensures t in Targets(group)
    {
      var k :| 0 <= k < |targets| && targets[k] == t;
      assert group[k] in group;
    }
  }

  lemma LeastComesFirst(sorted: seq<string>, least: string)
    requires Sorted(JsLess, sorted) && least in sorted && forall t | t in sorted :: !JsLess(t, least)
    ensures sorted[0] == least
  {
    var i :| 0 <= i < |sorted| && sorted[i] == least;
    assert sorted[0] in sorted && !JsLess(sorted[0], sorted[i]);
  }

  lemma SortedText(texts: seq<string>)
    requires Distinct(texts)
    ensures var sorted := Sort(JsLess, texts);
            Sorted(JsLess, sorted) && Distinct(sorted) && |sorted| == |texts| && forall t :: t in sorted <==> t in texts
  {
    JsOrders(texts);
    SortSorts(JsLess, texts);
    SameMembers(texts, Sort(JsLess, texts));
    DistinctKept(texts, Sort(JsLess, texts));
  }

  /** Sorting by id and taking the first entry takes the keeper. */
  lemma FirstIsKeeper(group: seq<Item>)
    requires group != [] && DistinctTargets(group)
    ensures Sort(JsLess, TargetList(group)) != [] && Sort(JsLess, TargetList(group))[0] == Keeper(group)
  {
    var sorted, keep := Sort(JsLess, TargetList(group)), Keeper(group);
    TargetListMembers(group);
    SortedText(TargetList(group));
    KeeperIsLeast(group);
    forall t | t in sorted
      ensures !JsLess(t, keep)
    {
      var x :| x in group && x.target == t;
    }
    LeastComesFirst(sorted, keep);
  }

  lemma SupersededIds(memories: Memories, group: seq<Item>, ids: seq<string>)
    requires group != [] && DistinctTargets(group)
    requires ids == Sort(JsLess, Others(TargetList(group), Keeper(group)))
    requires forall x | x in group :: x.target in memories
    ensures Distinct(ids) && |ids| == |group| - 1
    ensures forall t :: t in ids <==> t in Targets(group) && t != Keeper(group)
    ensures forall t | t in ids :: t in memories
  {
    TargetListMembers(group);
    KeeperIsLeast(group);
    OthersDistinct(TargetList(group), Keeper(group));
    SortedText(Others(TargetList(group), Keeper(group)));
  }

  /** Some of the ids have been superseded by the keeper. */
  function PartlyRetired(memories: Memories, ids: seq<string>, keep: string): Memories {
    map id | id in memories :: if id in ids then Retired(memories[id], keep) else memories[id]
  }

  lemma RetiredNext(memories: Memories, ids: seq<string>, keep: string, next: string)
    requires next in memories && next !in ids
    ensures next in PartlyRetired(memories, ids, keep)
    ensures PartlyRetired(memories, ids, keep)[next := Retired(PartlyRetired(memories, ids, keep)[next], keep)]
         == PartlyRetired(memories, ids + [next], keep)
  {
  }

  lemma AllRetired(memories: Memories, group: seq<Item>, ids: seq<string>)
    requires group != [] && forall t :: t in ids <==> t in Targets(group) && t != Keeper(group)
    ensures PartlyRetired(memories, ids, Keeper(group)) == Collapsed(memories, group)
  {
  }

  class MaintenanceStore {
    const sha: Sha
    var plans: map<string, PlanRow>
    var items: map<string, seq<Item>>
    var memories: Memories
    var audit: seq<Event>

    function Tables(): Db
      reads this
    {
      Db(plans, items, memories, audit)
    }

    constructor (sha: Sha)
      ensures this.sha == sha && Tables() == Db(map[], map[], map[], []) && R.Sound(Tables())
    {
      this.sha := sha;
      plans, items, memories, audit := map[], map[], map[], [];
    }

    method ExpireOldPlans(now: int)
      modifies this`plans
      ensures Tables() == old(Tables()).(plans := Swept(old(plans), now))
    {
      plans := map id | id in plans ::
        if plans[id].state.Pending? && plans[id].expiresAt <= now then plans[id].(state := Expired) else plans[id];
    }

    /** `create`: sweep, hash the sorted items, insert the plan row, then the item rows one by one. */
    method CreatePlan(id: string, proposed: seq<Item>, expiresAt: int, scope: Scope, project: Option<string>, now: int)
      returns (created: bool)
      modifies this`plans, this`items
      ensures Tables() == R.Created(old(Tables()), sha, R.Create(id, proposed, expiresAt, scope, project, now))
      ensures created <==> id !in old(plans) && R.FreshPrefix(CreateOrder(proposed), {}) == CreateOrder(proposed)
    {
      ExpireOldPlans(now);
      if id in plans {
        return false;
      }
      var ordered := CreateOrder(proposed);
      plans := plans[id := PlanRow(sha(Payloads(ordered)), expiresAt, Pending, scope, project, None, None, None)];
      var inserted, taken := InsertItems(ordered);
      items := items[id := ReadOrder(inserted)];
      created := |inserted| == |ordered|;
      if created {
        assert inserted == ordered[..|ordered|] == ordered;
      }
    }

    /** The insert loop; the primary key refuses a repeated target, the binding a revision that is no number. */
    static method InsertItems(ordered: seq<Item>) returns (inserted: seq<Item>, taken: set<string>)
      ensures inserted == R.FreshPrefix(ordered, {})
      ensures |inserted| <= |ordered| && inserted == ordered[..|inserted|]
    {
      inserted, taken := [], {};
      var i := 0;
      while i < |ordered| && ordered[i].target !in taken && ordered[i].expected.Some?
        invariant 0 <= i <= |ordered| && inserted == ordered[..i]
        invariant R.FreshPrefix(ordered, {}) == inserted + R.FreshPrefix(ordered[i..], taken)
      {
        taken := taken + {ordered[i].target};
        inserted := inserted + [ordered[i]];
        assert ordered[i..][1..] == ordered[i + 1..];
        i := i + 1;
      }
    }

    method SetState(id: string, state: State)
      modifies this`plans
      ensures Tables() == WithState(old(Tables()), id, state)
    {
      if id in plans {
        plans := plans[id := plans[id].(state := state)];
      }
    }

    method MarkApplying(id: string) returns (transitioned: bool)
      modifies this`plans
      ensures transitioned <==> id in old(plans) && old(plans)[id].state.Pending?
      ensures Tables() == if transitioned then WithState(old(Tables()), id, Applying) else old(Tables())
    {
      transitioned := id in plans && plans[id].state.Pending?;
      if transitioned {
        plans := plans[id := plans[id].(state := Applying)];
      }
    }

    method MarkCompleted(id: string, key: string, counts: Counts, now: int)
      modifies this`plans
      ensures Tables() == WithCompleted(old(Tables()), id, key, counts, now)
    {
      if id in plans && plans[id].state.Applying? {
        plans := plans[id := plans[id].(state := Completed, completedAt := Some(now), result := Some(counts),
                                        keyUsed := Some(key))];
      }
    }

    method AppendAudit(id: string, key: string, ok: bool)
      modifies this`audit
      ensures Tables() == WithEvent(old(Tables()), id, key, ok)
    {
      audit := audit + [Event(id, key, ok)];
    }

    /** The scan of the audit log for the keys that have succeeded. */
    method GetAppliedKeys(id: string) returns (keys: seq<string>)
      ensures keys == AppliedKeys(audit, id)
    {
      keys := [];
      for i := 0 to |audit|
        invariant keys == AppliedKeys(audit[..i], id)
      {
        AppliedKeysNext(audit[..i], audit[i], id);
        assert audit[..i + 1] == audit[..i] + [audit[i]];
        if audit[i].plan == id && audit[i].ok {
          keys := keys + [audit[i].key];
        }
      }
      assert audit[..|audit|] == audit;
    }

    /** The loop over the items that looks for unplanned and for drifted targets. */
    static method CompareRevisions(listed: seq<Item>, current: map<string, Option<int>>)
      returns (unplanned: nat, drifted: nat)
      ensures unplanned > 0 <==> Unplanned(listed, current)
      ensures drifted > 0 <==> Drifted(listed, current)
    {
      unplanned, drifted := 0, 0;
      for i := 0 to |listed|
        invariant unplanned > 0 <==> exists k | 0 <= k < i :: listed[k].target !in current
        invariant drifted > 0 <==>
            exists k | 0 <= k < i :: listed[k].target in current && current[listed[k].target] != listed[k].expected
      {
        if listed[i].target !in current {
          unplanned := unplanned + 1;
        } else if current[listed[i].target] != listed[i].expected {
          drifted := drifted + 1;
        }
      }
    }

    method ValidatePlan(id: string, current: map<string, Option<int>>, key: string, now: int) returns (verdict: Verdict)
      modifies this`plans
      ensures verdict == Validate(old(Tables()), sha, id, current, key, now)
      ensures Tables() == AfterValidate(old(Tables()), sha, id, now)
    {
      if id !in plans || id !in items {
        return Fail(PlanNotFound);
      }
      var row := plans[id];
      if row.state.Expired? || row.expiresAt <= now {
        if row.state.Pending? {
          SetState(id, Expired);
        }
        return Fail(PlanExpired);
      }
      if row.state.Completed? {
        return if row.keyUsed == Some(key) && row.result.Some? then ReplayOf(row.result.value)
               else Fail(IdempotencyMismatch);
      }
      if row.state.Applying? {
        return Fail(PlanExpired);
      }
      if row.state.Rejected? {
        return Fail(HashDrift);
      }
      if sha(Payloads(items[id])) != row.hash {
        SetState(id, Rejected);
        return Fail(HashDrift);
      }
      var unplanned, drifted := CompareRevisions(items[id], current);
      if unplanned > 0 {
        return Fail(UnplannedTarget);
      }
      if drifted > 0 {
        return Fail(StaleRevision);
      }
      var keys := GetAppliedKeys(id);
      return if |keys| > 0 && key !in keys then Fail(IdempotencyMismatch) else Proceed;
    }

    /** The checks on each target of a group, stopping at the first that fails. */
    method CheckGroup(row: PlanRow, group: seq<Item>) returns (obstacle: Option<Reason>)
      ensures obstacle.None? <==> forall x | x in group :: Obstacle(memories, row, x).None?
      ensures obstacle.Some? ==> exists i | 0 <= i < |group| ::
                Obstacle(memories, row, group[i]) == obstacle
                && forall k | 0 <= k < i :: Obstacle(memories, row, group[k]).None?
    {
      for i := 0 to |group|
        invariant forall k | 0 <= k < i :: Obstacle(memories, row, group[k]).None?
      {
        var x := group[i];
        assert x in group;
        if x.target !in memories || !memories[x.target].status.Active? {
          return Some(TargetMissing);
        }
        var m := memories[x.target];
        if x.target == PROTO || x.expected != Some(m.revision) {
          return Some(Stale);
        }
        if m.scope != row.scope {
          return Some(ScopeMismatch);
        }
        if row.project.Some? && m.project != row.project {
          return Some(ScopeMismatch);
        }
      }
      obstacle := None;
    }

    /** `applySupersede` */
    method ApplySupersede(keep: string, ids: seq<string>)
      requires Distinct(ids) && forall t | t in ids :: t in memories
      modifies this`memories
      ensures memories == PartlyRetired(old(memories), ids, keep)
    {
      ghost var before := memories;
      assert PartlyRetired(before, ids[..0], keep) == before;
      for i := 0 to |ids|
        invariant memories == PartlyRetired(before, ids[..i], keep)
      {
        assert ids[i] in ids && ids[i] !in ids[..i];
        RetiredNext(before, ids[..i], keep, ids[i]);
        assert ids[..i + 1] == ids[..i] + [ids[i]];
        var m := memories[ids[i]];
        memories := memories[ids[i] :=
            m.(status := Superseded, supersededBy := Some(keep), revision := m.revision + 1)];
      }
      assert ids[..|ids|] == ids;
    }

    /** `mergePlannedGroup` inside the caller's transaction: all targets or none. */
    method MergePlannedGroup(row: PlanRow, group: seq<Item>) returns (obstacle: Option<Reason>, superseded: nat)
      requires DistinctTargets(group)
      modifies this`memories
      ensures obstacle.None? <==> Mergeable(old(memories), row, group)
      ensures obstacle.None? ==> memories == Collapsed(old(memories), group) && superseded == |group| - 1
      ensures obstacle.Some? ==> memories == old(memories)
    {
      superseded := 0;
      if |group| < 2 {
        return Some(NonDedupGroup), 0;
      }
      obstacle := CheckGroup(row, group);
      if obstacle.Some? {
        return;
      }
      var targets := TargetList(group);
      FirstIsKeeper(group);
      var keep := Sort(JsLess, targets)[0];
      var ids := Sort(JsLess, Others(targets, keep));
      SupersededIds(memories, group, ids);
      ApplySupersede(keep, ids);
      AllRetired(old(memories), group, ids);
      superseded := |ids|;
    }

    /** One apply call, statement by statement; the transaction keeps a copy to go back to. */
    method ApplyMaintenance(call: Call) returns (answer: Answer)
      requires R.Sound(Tables())
      modifies this`plans, this`memories, this`audit
      ensures Tables() == Perform(old(Tables()), sha, call).db
      ensures answer == Perform(old(Tables()), sha, call).answer
    {
      var id, key := call.plan, call.key;
      if !call.confirm || key == "" {
        return Invalid;
      }
      if id !in plans || id !in items {
        return Refused(PlanNotFound);
      }
      var listed := items[id];
      var current := ReadRevisions(listed, call.clearance);
      assert current == Snapshot(Tables(), id, call.clearance);
      var verdict := ValidatePlan(id, current, key, call.now);
      answer := FinishApply(call, listed, verdict);
    }

    /** The revisions the caller sees, one lookup for each item. */
    method ReadRevisions(listed: seq<Item>, clearance: nat) returns (current: map<string, Option<int>>)
      ensures current == map t | t in Targets(listed) :: SeenRevision(memories, t, clearance)
    {
      current := map[];
      for i := 0 to |listed|
        invariant current == map t | t in Targets(listed[..i]) :: SeenRevision(memories, t, clearance)
      {
        var t := listed[i].target;
        assert listed[..i + 1] == listed[..i] + [listed[i]];
        assert Targets(listed[..i + 1]) == Targets(listed[..i]) + {t};
        var seen := t in memories && memories[t].sensitivity <= clearance;
        current := current[t := ReadBack(t, if seen then memories[t].revision else -1)];
      }
      assert listed[..|listed|] == listed;
    }

    method FinishApply(call: Call, listed: seq<Item>, verdict: Verdict) returns (answer: Answer)
      requires DistinctTargets(listed)
      modifies this`plans, this`memories, this`audit
      ensures Tables() == Finish(old(Tables()), call, listed, verdict).db
      ensures answer == Finish(old(Tables()), call, listed, verdict).answer
    {
      var id, key := call.plan, call.key;
      match verdict {
        case Fail(error) =>
          if error == StaleRevision || error == HashDrift || error == UnplannedTarget {
            SetState(id, Rejected);
          }
          AppendAudit(id, key, false);
          answer := Refused(error);
        case ReplayOf(counts) =>
          AppendAudit(id, key, true);
          answer := Done(counts);
        case Proceed =>
          var destructive := Destructive(listed);
          if |destructive| == 0 {
            MarkCompleted(id, key, Counts(0, 0), call.now);
            AppendAudit(id, key, true);
            return Done(Counts(0, 0));
          }
          var groups, unstructured := GroupByFingerprint(destructive);
          if unstructured.Some? {
            SetState(id, Rejected);
            AppendAudit(id, key, false);
            return Refused(UnplannedTarget);
          }
          DestructiveDistinct(listed);
          var committed, failed, applied := RunTransaction(id, destructive, groups, key, call.now);
          AppendAudit(id, key, committed);
          answer := if committed then Done(Counts(applied, 0)) else if failed then Refused(StaleRevision) else Aborted;
      }
    }

    /** The transaction; any failure puts back the rows it started from. */
    method RunTransaction(id: string, destructive: seq<Item>, groups: Groups, key: string, now: int)
      returns (committed: bool, failed: bool, applied: nat)
      requires Structured(destructive) && Grouped(groups, destructive) && DistinctTargets(destructive)
          && destructive != []
      modifies this`plans, this`memories
      ensures var c := CommitPlan(old(Tables()), id, destructive, key, now);
              && (committed <==> c.Committed?) && (failed <==> c.NotMerged?)
              && (committed ==> c == Committed(Tables(), applied))
              && (!committed ==> Tables() == old(Tables()))
    {
      var savedPlans, savedMemories := plans, memories;
      committed, failed, applied := false, false, 0;
      var transitioned := MarkApplying(id);
      if !transitioned {
        return;
      }
      var row := savedPlans[id];
      if row.scope.Project? && (row.project.None? || row.project.value == "") {
        plans := savedPlans;
        return;
      }
      var merged, count := RunGroups(row, destructive, groups);
      if !merged {
        plans, memories := savedPlans, savedMemories;
        failed := true;
        return;
      }
      MarkCompleted(id, key, Counts(count, 0), now);
      committed, applied := true, count;
    }

    /** The loop over the groups in the order their fingerprints first appeared. */
    method RunGroups(row: PlanRow, destructive: seq<Item>, groups: Groups) returns (merged: bool, applied: nat)
      requires Structured(destructive) && Grouped(groups, destructive) && DistinctTargets(destructive)
      modifies this`memories
      ensures var m := MergeGroups(old(memories), row, destructive, groups.keys);
              && (merged <==> m.AllMerged?) && (merged ==> m == AllMerged(memories, applied))
    {
      applied := 0;
      ghost var before := memories;
      for i := 0 to |groups.keys|
        invariant MergeGroups(before, row, destructive, groups.keys)
               == Later(applied, MergeGroups(memories, row, destructive, groups.keys[i..]))
      {
        var f := groups.keys[i];
        var group := groups.lists[f];
        assert groups.keys[i..][0] == f && groups.keys[i..][1..] == groups.keys[i + 1..];
        GroupTargetsDiffer(destructive, f);
        var obstacle, superseded := MergePlannedGroup(row, group);
        if obstacle.Some? {
          return false, applied;
        }
        applied := applied + superseded;
      }
      merged := true;
    }
  }

  function Later(applied: nat, m: Merging): Merging {
    if m.AllMerged? then AllMerged(m.memories, applied + m.applied) else GroupFailed
  }
}
