/**
  What maintenance does to entries and plan rows, said column by column: which
  entries a successful apply supersedes, how many, what every other step
  leaves alone, and what each refusal writes.
 */
module MaintenanceEffects {
  import opened Common
  import opened Sorting
  import opened TextOrder
  import opened PlanItems
  import opened MaintenancePlans
  import opened MaintenanceRuns

  // ---------- one apply ----------

  /** `keep` is the smallest id among the items that are to be merged with `x`. */
  ghost predicate SmallestWith(items: seq<Item>, x: Item, keep: string) {
    && (exists y | y in items :: y.action != Retain && y.fingerprint == x.fingerprint && y.target == keep)
    && (forall y | y in items && y.action != Retain && y.fingerprint == x.fingerprint :: !JsLess(y.target, keep))
  }

  ghost predicate SupersededBy(was: Memory, entry: Memory, keep: string) {
    && entry.status == Superseded && entry.supersededBy == Some(keep) && entry.revision == was.revision + 1
    && entry.scope == was.scope && entry.project == was.project && entry.sensitivity == was.sensitivity
  }

  lemma SmallestOfDestructive(items: seq<Item>, x: Item, keep: string)
    requires x.fingerprint.Some? && SmallestWith(items, x, keep)
    ensures Smallest(Destructive(items), x.fingerprint.value, keep)
  {
    var y :| y in items && y.action != Retain && y.fingerprint == x.fingerprint && y.target == keep;
    assert y in Destructive(items);
  }

  /** Every item to be merged has a smallest one beside it. */
  lemma SmallestExists(items: seq<Item>, x: Item) returns (keep: string)
    requires x in items && x.action != Retain && x.fingerprint.Some?
    ensures SmallestWith(items, x, keep)
  {
    var f, all := x.fingerprint.value, Destructive(items);
    GroupMembers(all, f);
    assert x in GroupOf(all, f);
    KeeperIsSmallest(all, f);
    keep := Keeper(GroupOf(all, f));
    var y :| y in all && y.fingerprint == Some(f) && y.target == keep;
    forall z | z in items && z.action != Retain && z.fingerprint == x.fingerprint
      ensures !JsLess(z.target, keep)
    {
      assert z in all;
    }
  }

  lemma ItemsKnown(db: Db, sha: Sha, call: Call)
    requires Sound(db) && call.plan in db.plans && db.plans[call.plan].state.Pending?
    requires Perform(db, sha, call).answer.Done?
    ensures var items := db.items[call.plan];
            DistinctTargets(items) && DistinctTargets(Destructive(items)) && Structured(Destructive(items))
    ensures var items := Destructive(db.items[call.plan]);
            items != [] ==> CommitPlan(db, call.plan, items, call.key, call.now).Committed?
    ensures var items := Destructive(db.items[call.plan]);
            Perform(db, sha, call).db.memories
            == if items == [] then db.memories else CommitPlan(db, call.plan, items, call.key, call.now).db.memories
  {
    SuccessMemories(db, sha, call);
    DestructiveDistinct(db.items[call.plan]);
  }

  /**
    When a pending plan is applied, each target that is to be merged and is not
    the smallest of its group is superseded by the smallest, one revision later
    and otherwise as it was; the smallest stays as it was.
   */
  lemma MergedAway(db: Db, sha: Sha, call: Call, x: Item, keep: string)
    requires Sound(db) && call.plan in db.plans && db.plans[call.plan].state.Pending?
    requires Perform(db, sha, call).answer.Done?
    requires x in db.items[call.plan] && x.action != Retain && SmallestWith(db.items[call.plan], x, keep)
    ensures x.target in db.memories && keep in db.memories
    ensures var after := Perform(db, sha, call).db.memories;
            && x.target in after && keep in after
            && after[keep] == db.memories[keep] && after[keep].status == Active
            && var was, entry := db.memories[x.target], after[x.target];
            && was.status == Active
            && (x.target != keep ==>
                  && entry.status == Superseded && entry.supersededBy == Some(keep)
                  && entry.revision == was.revision + 1 && entry.scope == was.scope
                  && entry.project == was.project && entry.sensitivity == was.sensitivity)
  {
    ItemsKnown(db, sha, call);
    assert x in Destructive(db.items[call.plan]);
    SmallestOfDestructive(db.items[call.plan], x, keep);
    MemoryAfterCommit(db, call.plan, Destructive(db.items[call.plan]), call.key, call.now, x, keep);
  }

  /** Entries that are not to be merged stay as they were, and no entry comes or goes. */
  lemma OthersUntouched(db: Db, sha: Sha, call: Call, target: string)
    requires Sound(db) && call.plan in db.plans && db.plans[call.plan].state.Pending?
    requires Perform(db, sha, call).answer.Done?
    ensures var after := Perform(db, sha, call).db.memories;
            && after.Keys == db.memories.Keys
            && (target in db.memories
                && (forall x | x in db.items[call.plan] && x.action != Retain :: x.target != target) ==>
                  after[target] == db.memories[target])
  {
    ItemsKnown(db, sha, call);
    var items := Destructive(db.items[call.plan]);
    if items != [] {
      OthersAfterCommit(db, call.plan, items, call.key, call.now, target);
    }
  }

  /** A plan over an entry that is gone or no longer active is not applied. */
  lemma InactiveRefuses(db: Db, sha: Sha, call: Call, x: Item)
    requires Sound(db) && call.plan in db.plans && db.plans[call.plan].state.Pending?
    requires x in db.items[call.plan] && x.action != Retain
    requires x.target !in db.memories || db.memories[x.target].status != Active
    ensures !Perform(db, sha, call).answer.Done?
  {
    if Perform(db, sha, call).answer.Done? {
      ItemsKnown(db, sha, call);
      assert x in Destructive(db.items[call.plan]);
      var keep := SmallestExists(db.items[call.plan], x);
      MergedAway(db, sha, call, x, keep);
    }
  }

  // ---------- answers and plan rows ----------

  /** The entry is as the plan recorded it, as far as this caller can see. */
  predicate AsPlanned(memories: Memories, x: Item, clearance: nat) {
    if x.target == "__proto__" then x.expected == None
    else if x.target in memories && memories[x.target].sensitivity <= clearance
    then x.expected == Some(memories[x.target].revision)
    else x.expected == Some(-1)
  }

  lemma UndriftedIff(db: Db, id: string, clearance: nat)
    requires id in db.items
    ensures Undrifted(db, id, clearance) <==> forall x | x in db.items[id] :: AsPlanned(db.memories, x, clearance)
  {
  }

  /** A confirmed call with a key that finds the plan pending, in time and with the hash it was created with. */
  ghost predicate Checked(db: Db, sha: Sha, call: Call)
    requires RowsSound(db) && call.plan in db.plans
  {
    && call.confirm && call.key != "" && db.plans[call.plan].state == Pending
    && call.now < db.plans[call.plan].expiresAt && sha(Payloads(db.items[call.plan])) == db.plans[call.plan].hash
  }

  /** And no entry moved, and no other key in the log. */
  ghost predicate Cleared(db: Db, sha: Sha, call: Call)
    requires RowsSound(db) && call.plan in db.plans
  {
    && Checked(db, sha, call)
    && (forall x | x in db.items[call.plan] :: AsPlanned(db.memories, x, call.clearance))
    && !OtherKeyLogged(db, call)
  }

  ghost predicate OtherKeyLogged(db: Db, call: Call) {
    exists e | e in db.audit :: e.plan == call.plan && e.ok && e.key != call.key
  }

  /** An item that is not `retain` has no fingerprint to be grouped by. */
  ghost predicate Ungrouped(items: seq<Item>) {
    exists x | x in items :: x.action != Retain && x.fingerprint == None
  }

  lemma UngroupedIff(items: seq<Item>)
    ensures Ungrouped(items) <==> !Structured(Destructive(items))
  {
    var d := Destructive(items);
    if Ungrouped(items) {
      var x :| x in items && x.action != Retain && x.fingerprint == None;
      assert x in d;
    } else {
      forall i | 0 <= i < |d|
        ensures d[i].fingerprint.Some?
      {
        assert d[i] in items;
      }
    }
  }

  lemma SomeDestructive(items: seq<Item>)
    ensures Destructive(items) != [] <==> exists x | x in items :: x.action != Retain
  {
    if Destructive(items) != [] {
      assert Destructive(items)[0] in Destructive(items);
    }
    forall x | x in items && x.action != Retain
      ensures x in Destructive(items)
    {
    }
  }

  lemma ClearedProceeds(db: Db, sha: Sha, call: Call)
    requires Sound(db) && call.plan in db.plans && Checked(db, sha, call)
    ensures var v := Validate(db, sha, call.plan, Snapshot(db, call.plan, call.clearance), call.key, call.now);
            && v == (if exists x | x in db.items[call.plan] :: !AsPlanned(db.memories, x, call.clearance)
                     then Fail(StaleRevision)
                     else if OtherKeyLogged(db, call) then Fail(IdempotencyMismatch) else Proceed)
    ensures AfterValidate(db, sha, call.plan, call.now) == db
  {
    var items, current := db.items[call.plan], Snapshot(db, call.plan, call.clearance);
    assert !Unplanned(items, current);
    assert Drifted(items, current) <==> !Undrifted(db, call.plan, call.clearance);
    UndriftedIff(db, call.plan, call.clearance);
    KeysAgreeIff(db, call.plan, call.key);
  }

  /** What a call is answered that never gets as far as comparing revisions, and the state it leaves. */
  lemma EarlyAnswers(db: Db, sha: Sha, call: Call)
    requires Sound(db)
    ensures var o := Perform(db, sha, call);
            && (!call.confirm || call.key == "" ==> o == Outcome(db, Invalid))
            && (call.confirm && call.key != "" && call.plan !in db.plans ==> o == Outcome(db, Refused(PlanNotFound)))
    ensures call.confirm && call.key != "" && call.plan in db.plans && !Checked(db, sha, call) ==>
              var o, row := Perform(db, sha, call), db.plans[call.plan];
              var state := o.db.plans[call.plan].state;
              && o.db.plans[call.plan] == row.(state := state) && o.db.memories == db.memories
              && (row.state == Expired || row.expiresAt <= call.now ==>
                    o.answer == Refused(PlanExpired) && state == (if row.state == Pending then Expired else row.state))
              && (row.state == Completed && call.now < row.expiresAt && row.keyUsed != Some(call.key) ==>
                    o.answer == Refused(IdempotencyMismatch) && state == Completed)
              && (row.state == Completed && call.now < row.expiresAt && row.keyUsed == Some(call.key) ==>
                    Some(o.answer) == Some(Done(row.result.value)) && state == Completed)
              && (call.now < row.expiresAt && (row.state == Rejected || row.state == Pending) ==>
                    o.answer == Refused(HashDrift) && state == Rejected)
  {
  }

  /** What becomes of a call that does. */
  lemma LateAnswers(db: Db, sha: Sha, call: Call)
    requires Sound(db) && call.plan in db.plans && Checked(db, sha, call)
    ensures var o, row, items := Perform(db, sha, call), db.plans[call.plan], db.items[call.plan];
            var destructive := exists x | x in items :: x.action != Retain;
            var after := o.db.plans[call.plan];
            if exists x | x in items :: !AsPlanned(db.memories, x, call.clearance) then
              o.answer == Refused(StaleRevision) && after == row.(state := Rejected)
            else if OtherKeyLogged(db, call) then o.answer == Refused(IdempotencyMismatch) && after == row
            else if !destructive then o.answer == Done(Counts(0, 0)) && after == row
            else if Ungrouped(items) then o.answer == Refused(UnplannedTarget) && after == row.(state := Rejected)
            else if row.scope == Project && (row.project == None || row.project == Some("")) then
              o.answer == Aborted && after == row
            else if o.answer.Done? then
              after == row.(state := Completed, completedAt := Some(call.now), result := Some(o.answer.counts),
                            keyUsed := Some(call.key))
            else o.answer == Refused(StaleRevision) && after == row
  {
    CheckedPerforms(db, sha, call);
    ClearedAnswers(db, call, db.items[call.plan]);
  }

  lemma CheckedPerforms(db: Db, sha: Sha, call: Call)
    requires Sound(db) && call.plan in db.plans && Checked(db, sha, call)
    ensures Perform(db, sha, call)
         == Finish(db, call, db.items[call.plan],
                   if exists x | x in db.items[call.plan] :: !AsPlanned(db.memories, x, call.clearance)
                   then Fail(StaleRevision)
                   else if OtherKeyLogged(db, call) then Fail(IdempotencyMismatch) else Proceed)
  {
    ClearedProceeds(db, sha, call);
  }

  lemma ClearedAnswers(db: Db, call: Call, items: seq<Item>)
    requires call.plan in db.plans && db.plans[call.plan].state == Pending && DistinctTargets(items)
    ensures var o, row := Finish(db, call, items, Proceed), db.plans[call.plan];
            var after := o.db.plans[call.plan];
            if !exists x | x in items :: x.action != Retain then o.answer == Done(Counts(0, 0)) && after == row
            else if Ungrouped(items) then o.answer == Refused(UnplannedTarget) && after == row.(state := Rejected)
            else if row.scope == Project && (row.project == None || row.project == Some("")) then
              o.answer == Aborted && after == row
            else if o.answer.Done? then
              after == row.(state := Completed, completedAt := Some(call.now), result := Some(o.answer.counts),
                            keyUsed := Some(call.key))
            else o.answer == Refused(StaleRevision) && after == row
  {
    UngroupedIff(items);
    SomeDestructive(items);
    if Destructive(items) != [] && Structured(Destructive(items)) {
      DestructiveDistinct(items);
      TransactionAnswers(db, call, items);
    }
  }

  lemma TransactionAnswers(db: Db, call: Call, items: seq<Item>)
    requires call.plan in db.plans && db.plans[call.plan].state == Pending
    requires Destructive(items) != [] && Structured(Destructive(items)) && DistinctTargets(Destructive(items))
    ensures var o, row := Finish(db, call, items, Proceed), db.plans[call.plan];
            var after := o.db.plans[call.plan];
            if row.scope == Project && (row.project == None || row.project == Some("")) then
              o.answer == Aborted && after == row
            else if o.answer.Done? then
              after == row.(state := Completed, completedAt := Some(call.now), result := Some(o.answer.counts),
                            keyUsed := Some(call.key))
            else o.answer == Refused(StaleRevision) && after == row
  {
    CommitsIff(db, call.plan, Destructive(items), call.key, call.now);
  }

  /** The entry is there, active, at the planned revision and where the plan is. */
  predicate CanMerge(memories: Memories, row: PlanRow, x: Item) {
    && x.target in memories && x.target != "__proto__"
    && memories[x.target].status == Active && x.expected == Some(memories[x.target].revision)
    && memories[x.target].scope == row.scope && (row.project == None || memories[x.target].project == row.project)
  }

  /** Another item is to be merged with it. */
  ghost predicate HasTwin(items: seq<Item>, x: Item) {
    exists y | y in items :: y.action != Retain && y.fingerprint == x.fingerprint && y.target != x.target
  }

  ghost predicate AllCanMerge(memories: Memories, row: PlanRow, items: seq<Item>) {
    forall x | x in items && x.action != Retain :: CanMerge(memories, row, x) && HasTwin(items, x)
  }

  /** Exactly when a plan with something to merge is applied. */
  lemma AppliesIff(db: Db, sha: Sha, call: Call)
    requires Sound(db) && call.plan in db.plans && db.plans[call.plan].state == Pending
    requires exists x | x in db.items[call.plan] :: x.action != Retain
    ensures var row, items := db.plans[call.plan], db.items[call.plan];
            Perform(db, sha, call).answer.Done? <==>
              && Cleared(db, sha, call) && !Ungrouped(items)
              && (row.scope == Project ==> row.project != None && row.project != Some(""))
              && AllCanMerge(db.memories, row, items)
  {
    SomeDestructive(db.items[call.plan]);
    DestructiveAppliesIff(db, sha, call);
  }

  lemma DestructiveAppliesIff(db: Db, sha: Sha, call: Call)
    requires Sound(db) && call.plan in db.plans && db.plans[call.plan].state.Pending?
    requires Destructive(db.items[call.plan]) != []
    ensures var row, items := db.plans[call.plan], db.items[call.plan];
            Perform(db, sha, call).answer.Done? <==>
              && Cleared(db, sha, call) && !Ungrouped(items)
              && (row.scope == Project ==> row.project != None && row.project != Some(""))
              && AllCanMerge(db.memories, row, items)
  {
    SucceedsIff(db, sha, call);
    ClearedIff(db, sha, call);
    FinishableIff(db.memories, db.plans[call.plan], db.items[call.plan]);
  }

  lemma FinishableIff(memories: Memories, row: PlanRow, items: seq<Item>)
    requires DistinctTargets(items)
    ensures var d := Destructive(items);
            Structured(d) && Placed(row) && AllMergeable(memories, row, d) <==>
              && !Ungrouped(items) && (row.scope == Project ==> row.project != None && row.project != Some(""))
              && AllCanMerge(memories, row, items)
  {
    UngroupedIff(items);
    if Structured(Destructive(items)) {
      DestructiveDistinct(items);
      MergeableDestructive(memories, row, items);
    }
  }

  lemma ClearedIff(db: Db, sha: Sha, call: Call)
    requires Sound(db) && call.plan in db.plans
    ensures Cleared(db, sha, call) <==>
              && Checked(db, sha, call) && Undrifted(db, call.plan, call.clearance)
              && (forall e | e in db.audit && e.ok && e.plan == call.plan :: e.key == call.key)
  {
    UndriftedIff(db, call.plan, call.clearance);
  }

  lemma MergeableDestructive(memories: Memories, row: PlanRow, items: seq<Item>)
    requires Structured(Destructive(items)) && DistinctTargets(Destructive(items))
    ensures AllMergeable(memories, row, Destructive(items)) <==> AllCanMerge(memories, row, items)
  {
    var d := Destructive(items);
    AllMergeableIff(memories, row, d);
    forall x | x in d
      ensures HasTwin(items, x) <==> exists y | y in d :: y.fingerprint == x.fingerprint && y.target != x.target
      ensures CanMerge(memories, row, x) <==> Obstacle(memories, row, x).None?
    {
      ObstacleIff(memories, row, x);
      TwinIff(items, x);
    }
  }

  lemma TwinIff(items: seq<Item>, x: Item)
    ensures HasTwin(items, x) <==>
        exists y | y in Destructive(items) :: y.fingerprint == x.fingerprint && y.target != x.target
  {
    if HasTwin(items, x) {
      var y :| y in items && y.action != Retain && y.fingerprint == x.fingerprint && y.target != x.target;
      assert y in Destructive(items);
    }
  }

  predicate Differ(a: Item, b: Item) {
    a.target != b.target || a.expected != b.expected || a.action != b.action || a.risk != b.risk
  }

  /**
    Rows that differ from those the plan was created with in target, revision,
    action or risk are refused, as far as the hash tells the two apart.
   */
  lemma TamperRefused(db: Db, sha: Sha, call: Call, items: seq<Item>, k: nat)
    requires Sound(db) && call.plan in db.plans && db.plans[call.plan].state == Pending
    requires call.confirm && call.key != "" && call.now < db.plans[call.plan].expiresAt
    requires db.plans[call.plan].hash == sha(Payloads(CreateOrder(items)))
    requires var rows, created := db.items[call.plan], CreateOrder(items);
             && (sha(Payloads(rows)) == sha(Payloads(created)) ==> Payloads(rows) == Payloads(created))
             && (|rows| == |created| ==> k < |rows| && Differ(rows[k], created[k]))
    ensures Perform(db, sha, call).answer == Refused(HashDrift)
    ensures Perform(db, sha, call).db.plans[call.plan] == db.plans[call.plan].(state := Rejected)
    ensures Perform(db, sha, call).db.memories == db.memories
  {
    PayloadsAgreeIff(db.items[call.plan], CreateOrder(items));
    EarlyAnswers(db, sha, call);
  }

  /** Creating and sweeping expire the pending plans whose time has come and leave every other row alone. */
  lemma SweepExpires(db: Db, sha: Sha, op: Op, id: string)
    requires id in db.plans && ((op.Create? && op.id != id) || op.Sweep?)
    ensures var s := Step(Sys(db, map[]), sha, op).db;
            && id in s.plans && s.memories == db.memories && s.audit == db.audit
            && s.plans[id] == if db.plans[id].state == Pending && db.plans[id].expiresAt <= op.now
                              then db.plans[id].(state := Expired) else db.plans[id]
  {
  }

  lemma StoredWhole(items: seq<Item>)
    requires DistinctTargets(items) && Numbered(items)
    ensures multiset(Stored(items)) == multiset(items)
  {
    var created := CreateOrder(items);
    CreateOrderDistinct(items);
    SameMembers(created, items);
    forall i | 0 <= i < |created|
      ensures created[i].expected.Some?
    {
      assert created[i] in items;
    }
    FreshPrefixWhole(created, {});
  }

  /** The items end here, or the next one repeats a target or has no number for a revision. */
  ghost predicate StopsAt(items: seq<Item>, n: nat, seen: set<string>)
    requires n <= |items|
  {
    n == |items| || items[n].expected == None || items[n].target in seen + Targets(items[..n])
  }

  /** The insert loop stores the items in order up to the first that repeats a target or lacks a number. */
  lemma {:induction false} StopsAtFirstBad(items: seq<Item>, seen: set<string>) returns (n: nat)
    ensures n <= |items| && FreshPrefix(items, seen) == items[..n] && StopsAt(items, n, seen)
  {
    if items == [] || items[0].target in seen || items[0].expected.None? {
      n := 0;
    } else {
      var m := StopsAtFirstBad(items[1..], seen + {items[0].target});
      n := m + 1;
      assert items[..n] == [items[0]] + items[1..][..m];
      assert Targets(items[..n]) == {items[0].target} + Targets(items[1..][..m]);
    }
  }

  /** A created plan is pending with nothing recorded; it lists all items unless one repeats or lacks a number. */
  lemma CreatedRow(db: Db, sha: Sha, op: Op)
    requires op.Create? && op.id !in db.plans
    ensures var made := Created(db, sha, op);
            && op.id in made.plans && op.id in made.items && made.memories == db.memories && made.audit == db.audit
            && made.plans[op.id] == PlanRow(sha(Payloads(CreateOrder(op.items))), op.expiresAt, Pending, op.scope,
                                            op.project, None, None, None)
            && (DistinctTargets(op.items) && Numbered(op.items) ==>
                  multiset(made.items[op.id]) == multiset(op.items))
  {
    if DistinctTargets(op.items) && Numbered(op.items) {
      StoredWhole(op.items);
    }
  }

  // ---------- the count ----------

  /** The entries that two tables show differently. */
  ghost function Changed(before: Memories, after: Memories): set<string> {
    set id | id in before && id in after && before[id] != after[id]
  }

  lemma {:induction false} LosersOfGroup(group: seq<Item>)
    requires group != [] && DistinctTargets(group)
    ensures |Targets(group) - {Keeper(group)}| == |group| - 1
  {
    TargetCount(group);
    KeeperIsLeast(group);
  }

  lemma {:induction false} TargetCount(items: seq<Item>)
    requires DistinctTargets(items)
    ensures |Targets(items)| == |items|
  {
    if items == [] {
      assert Targets(items) == {};
    } else {
      var before, last := items[..|items| - 1], items[|items| - 1];
      TargetCount(before);
      assert items == before + [last];
      assert Targets(items) == Targets(before) + {last.target};
      LastIsNew(items);
    }
  }

  lemma LastIsNew(items: seq<Item>)
    requires DistinctTargets(items) && items != []
    ensures items[|items| - 1].target !in Targets(items[..|items| - 1])
  {
    forall x | x in items[..|items| - 1]
      ensures x.target != items[|items| - 1].target
    {
      var k :| 0 <= k < |items| - 1 && items[k] == x;
    }
  }

  lemma TargetsPresent(memories: Memories, row: PlanRow, group: seq<Item>, id: string)
    requires Mergeable(memories, row, group) && id in Targets(group)
    ensures id in memories && memories[id].status.Active?
  {
    var x :| x in group && x.target == id;
    assert Obstacle(memories, row, x).None?;
  }

  lemma ChangedByCollapse(memories: Memories, row: PlanRow, group: seq<Item>, id: string)
    requires Mergeable(memories, row, group)
    ensures id in Changed(memories, Collapsed(memories, group)) <==> id in Targets(group) && id != Keeper(group)
    ensures id in Changed(memories, Collapsed(memories, group)) ==>
              memories[id].status.Active? && Collapsed(memories, group)[id].status == Superseded
  {
    if id in Targets(group) {
      TargetsPresent(memories, row, group, id);
    }
  }

  lemma CollapseChanges(memories: Memories, row: PlanRow, group: seq<Item>)
    requires DistinctTargets(group) && Mergeable(memories, row, group)
    ensures |Changed(memories, Collapsed(memories, group))| == |group| - 1
  {
    forall id: string
      ensures id in Changed(memories, Collapsed(memories, group)) <==> id in Targets(group) - {Keeper(group)}
    {
      ChangedByCollapse(memories, row, group, id);
    }
    assert Changed(memories, Collapsed(memories, group)) == Targets(group) - {Keeper(group)};
    LosersOfGroup(group);
  }

  /** What the remaining groups change is apart from what this one changes. */
  lemma {:induction false} LaterChanges(memories: Memories, row: PlanRow, items: seq<Item>, keys: seq<string>)
    requires DistinctTargets(items) && Distinct(keys) && MergeGroups(memories, row, items, keys).AllMerged?
    ensures var m := MergeGroups(memories, row, items, keys);
            m.memories.Keys == memories.Keys && |Changed(memories, m.memories)| == m.applied
    ensures forall id | id in Changed(memories, MergeGroups(memories, row, items, keys).memories) ::
              memories[id].status.Active? && !MergeGroups(memories, row, items, keys).memories[id].status.Active?
  {
    if keys == [] {
      assert Changed(memories, memories) == {};
    } else {
      var group := GroupOf(items, keys[0]);
      var once := Collapsed(memories, group);
      var all := MergeGroups(memories, row, items, keys).memories;
      GroupTargetsDiffer(items, keys[0]);
      CollapseChanges(memories, row, group);
      LaterChanges(once, row, items, keys[1..]);
      ChangesAddUp(memories, row, group, once, all);
    }
  }

  lemma ChangesAddUp(memories: Memories, row: PlanRow, group: seq<Item>, once: Memories, all: Memories)
    requires group != [] && DistinctTargets(group) && Mergeable(memories, row, group)
    requires once == Collapsed(memories, group) && all.Keys == once.Keys
    requires forall id | id in Changed(once, all) :: once[id].status.Active? && !all[id].status.Active?
    ensures |Changed(memories, all)| == |Changed(memories, once)| + |Changed(once, all)|
    ensures forall id | id in Changed(memories, all) :: memories[id].status.Active? && !all[id].status.Active?
  {
    var first, later := Changed(memories, once), Changed(once, all);
    forall id: string
      ensures id in first ==> memories[id].status.Active? && once[id].status == Superseded
    {
      ChangedByCollapse(memories, row, group, id);
    }
    assert first * later == {};
    assert Changed(memories, all) == first + later;
  }

  /** The count an apply answers with is the number of entries whose rows it changed. */
  lemma CountIsChanged(db: Db, sha: Sha, call: Call)
    requires Sound(db) && call.plan in db.plans && db.plans[call.plan].state.Pending?
    requires Perform(db, sha, call).answer.Done?
    ensures Perform(db, sha, call).answer.counts
         == Counts(|Changed(db.memories, Perform(db, sha, call).db.memories)|, 0)
  {
    ProceedMeans(db, sha, call);
    ItemsKnown(db, sha, call);
    var items := Destructive(db.items[call.plan]);
    if items == [] {
      assert Changed(db.memories, db.memories) == {};
    } else {
      CommitChanges(db, call.plan, items, call.key, call.now);
    }
  }

  lemma CommitChanges(db: Db, id: string, items: seq<Item>, key: string, now: int)
    requires Structured(items) && DistinctTargets(items) && CommitPlan(db, id, items, key, now).Committed?
    ensures var c := CommitPlan(db, id, items, key, now);
            c.applied == |Changed(db.memories, c.db.memories)|
  {
    FingerprintsComplete(items);
    LaterChanges(db.memories, db.plans[id], items, Fingerprints(items));
  }

  // ---------- what an entry goes through in any run ----------

  /** No plan's rows, stored or read by a client, name a target twice. */
  ghost predicate TargetsOnce(s: Sys) {
    && (forall id | id in s.db.items :: DistinctTargets(s.db.items[id]))
    && (forall c | c in s.paused && !s.paused[c].Unlogged? :: DistinctTargets(s.paused[c].items))
  }

  lemma StepKeepsItems(s: Sys, sha: Sha, op: Op, id: string)
    requires id in Step(s, sha, op).db.items && WellFormed(op)
    ensures || (id in s.db.items && Step(s, sha, op).db.items[id] == s.db.items[id])
            || DistinctTargets(Step(s, sha, op).db.items[id])
  {
    match op
    case Create(_, _, _, _, _, _) => StoredDistinct(op.items);
    case Apply(call) => CallKeeps(s.db, sha, call);
    case End(client) => EndKeeps(s, client);
    case _ =>
  }

  lemma StepKeepsPauses(s: Sys, sha: Sha, op: Op, c: nat)
    requires TargetsOnce(s) && c in Step(s, sha, op).paused && !Step(s, sha, op).paused[c].Unlogged?
    ensures DistinctTargets(Step(s, sha, op).paused[c].items)
  {
  }

  lemma {:induction false} AlwaysOnce(sha: Sha, ops: seq<Op>)
    requires forall i | 0 <= i < |ops| :: WellFormed(ops[i])
    ensures TargetsOnce(Replay(sha, ops))
  {
    if ops != [] {
      var before, op := ops[..|ops| - 1], ops[|ops| - 1];
      AlwaysOnce(sha, before);
      var s := Replay(sha, before);
      forall id | id in Step(s, sha, op).db.items
        ensures DistinctTargets(Step(s, sha, op).db.items[id])
      {
        StepKeepsItems(s, sha, op, id);
      }
      forall c | c in Step(s, sha, op).paused && !Step(s, sha, op).paused[c].Unlogged?
        ensures DistinctTargets(Step(s, sha, op).paused[c].items)
      {
        StepKeepsPauses(s, sha, op, c);
      }
    }
  }

  /** The items a committing step works on, and the call it does it for. */
  ghost function ItemsAt(s: Sys, op: Op): seq<Item>
    requires || (op.Apply? && op.call.plan in s.db.items)
             || (op.End? && op.client in s.paused && !s.paused[op.client].Unlogged?)
  {
    if op.Apply? then s.db.items[op.call.plan] else s.paused[op.client].items
  }

  /** The step merges plan `id`, and these are its items. */
  ghost predicate Merges(s: Sys, sha: Sha, op: Op, id: string, items: seq<Item>) {
    Commits(s, sha, op, id) && items == ItemsAt(s, op)
  }

  lemma MergingCommits(s: Sys, sha: Sha, op: Op, id: string, items: seq<Item>) returns (key: string, now: int)
    requires TargetsOnce(s) && Merges(s, sha, op, id, items)
    ensures DistinctTargets(Destructive(items)) && Structured(Destructive(items)) && Destructive(items) != []
    ensures CommitPlan(s.db, id, Destructive(items), key, now).Committed?
    ensures Step(s, sha, op).db.memories == CommitPlan(s.db, id, Destructive(items), key, now).db.memories
  {
    DestructiveDistinct(items);
    if op.Apply? {
      key, now := op.call.key, op.call.now;
      ProceedMeans(s.db, sha, op.call);
    } else {
      key, now := s.paused[op.client].call.key, s.paused[op.client].call.now;
    }
  }

  predicate Edits(op: Op, target: string) {
    op.Edit? && op.target == target
  }

  /** The step supersedes `target` by an entry with a smaller id that stays as it is. */
  ghost predicate SupersedesBy(before: Memories, after: Memories, target: string, keep: string) {
    && target in before && target in after && keep in before && keep in after
    && JsLess(keep, target) && before[keep].status == Active && after[keep] == before[keep]
    && before[target].status == Active && SupersededBy(before[target], after[target], keep)
  }

  lemma MergedInStep(s: Sys, sha: Sha, op: Op, id: string, items: seq<Item>, x: Item, keep: string)
    requires TargetsOnce(s) && Merges(s, sha, op, id, items)
    requires x in items && x.action != Retain && SmallestWith(items, x, keep)
    ensures x.target in s.db.memories && s.db.memories[x.target].status == Active
    ensures x.target != keep ==> SupersedesBy(s.db.memories, Step(s, sha, op).db.memories, x.target, keep)
    ensures x.target == keep ==> keep in Step(s, sha, op).db.memories
                                 && Step(s, sha, op).db.memories[keep] == s.db.memories[keep]
  {
    var key, now := MergingCommits(s, sha, op, id, items);
    assert x in Destructive(items);
    SmallestOfDestructive(items, x, keep);
    MemoryAfterCommit(s.db, id, Destructive(items), key, now, x, keep);
    JsTotal(x.target, keep, keep);
  }

  lemma OthersInStep(s: Sys, sha: Sha, op: Op, id: string, items: seq<Item>, target: string)
    requires TargetsOnce(s) && Merges(s, sha, op, id, items) && target in s.db.memories
    requires forall x | x in items && x.action != Retain :: x.target != target
    ensures target in Step(s, sha, op).db.memories
    ensures Step(s, sha, op).db.memories[target] == s.db.memories[target]
  {
    var key, now := MergingCommits(s, sha, op, id, items);
    OthersAfterCommit(s.db, id, Destructive(items), key, now, target);
  }

  lemma EditMovesOne(s: Sys, sha: Sha, op: Op, target: string)
    requires op.Edit? && op.target != target && target in s.db.memories
    ensures target in Step(s, sha, op).db.memories
    ensures Step(s, sha, op).db.memories[target] == s.db.memories[target]
  {
  }

  /**
    However connections interleave, a step that is not an edit of an entry
    leaves it as it is or supersedes it by an active entry with a smaller id.
   */
  lemma EntryStep(s: Sys, sha: Sha, op: Op, target: string)
    requires TargetsOnce(s) && target in s.db.memories && !Edits(op, target)
    ensures target in Step(s, sha, op).db.memories
    ensures || Step(s, sha, op).db.memories[target] == s.db.memories[target]
            || exists keep :: SupersedesBy(s.db.memories, Step(s, sha, op).db.memories, target, keep)
  {
    if op.Edit? {
      EditMovesOne(s, sha, op, target);
    } else if Step(s, sha, op).db.memories != s.db.memories {
      EntriesMoveOnlyByCommit(s, sha, op);
      var id :| Commits(s, sha, op, id);
      var items := ItemsAt(s, op);
      if x :| x in items && x.action != Retain && x.target == target {
        var key, now := MergingCommits(s, sha, op, id, items);
        assert x in Destructive(items);
        var keep := SmallestExists(items, x);
        MergedInStep(s, sha, op, id, items, x, keep);
      } else {
        OthersInStep(s, sha, op, id, items, target);
      }
    }
  }

  /** A run whose item rows stay within the table's key, whatever its clients do. */
  ghost predicate Run(ops: seq<Op>) {
    forall i | 0 <= i < |ops| :: WellFormed(ops[i])
  }

  lemma OnceAt(sha: Sha, ops: seq<Op>, i: nat)
    requires Run(ops) && i <= |ops|
    ensures TargetsOnce(At(sha, ops, i))
  {
    AlwaysOnce(sha, ops[..i]);
  }

  /** An entry that is not active stays as it is until somebody edits it: no plan merges it again. */
  lemma {:induction false} InactiveStays(sha: Sha, ops: seq<Op>, i: nat, j: nat, id: string)
    requires Run(ops) && i <= j <= |ops| && forall k | i <= k < j :: !Edits(ops[k], id)
    requires id in At(sha, ops, i).db.memories && At(sha, ops, i).db.memories[id].status != Active
    ensures id in At(sha, ops, j).db.memories
    ensures At(sha, ops, j).db.memories[id] == At(sha, ops, i).db.memories[id]
    decreases j - i
  {
    if i < j {
      OnceAt(sha, ops, i);
      EntryStep(At(sha, ops, i), sha, ops[i], id);
      AtNext(sha, ops, i);
      InactiveStays(sha, ops, i + 1, j, id);
    }
  }

  /** So no later plan that would merge it commits. */
  lemma NoLaterMerge(sha: Sha, ops: seq<Op>, i: nat, j: nat, id: string, plan: string, items: seq<Item>)
    requires Run(ops) && i <= j < |ops| && forall k | i <= k < j :: !Edits(ops[k], id)
    requires id in At(sha, ops, i).db.memories && At(sha, ops, i).db.memories[id].status != Active
    requires Merges(At(sha, ops, j), sha, ops[j], plan, items)
    ensures forall x | x in items && x.action != Retain :: x.target != id
  {
    InactiveStays(sha, ops, i, j, id);
    OnceAt(sha, ops, j);
    var key, now := MergingCommits(At(sha, ops, j), sha, ops[j], plan, items);
    forall x | x in items && x.action != Retain
      ensures x.target != id
    {
      assert x in Destructive(items);
      var keep := SmallestExists(items, x);
      MergedInStep(At(sha, ops, j), sha, ops[j], plan, items, x, keep);
    }
  }

  // ---------- what superseded entries point to ----------

  /** Every superseded entry names an entry with a smaller id. */
  ghost predicate PointsDown(memories: Memories) {
    forall id | id in memories && memories[id].status == Superseded ::
      memories[id].supersededBy.Some? && memories[id].supersededBy.value in memories
      && JsLess(memories[id].supersededBy.value, id)
  }

  /** Edits that neither delete an entry nor supersede one themselves. */
  ghost predicate PlainEdits(ops: seq<Op>) {
    forall i | 0 <= i < |ops| && ops[i].Edit? :: ops[i].entry.Some? && ops[i].entry.value.status != Superseded
  }

  lemma StepPointsDown(s: Sys, sha: Sha, op: Op)
    requires TargetsOnce(s) && PointsDown(s.db.memories)
    requires op.Edit? ==> op.entry.Some? && op.entry.value.status != Superseded
    ensures PointsDown(Step(s, sha, op).db.memories)
  {
    var after := Step(s, sha, op).db.memories;
    forall id | id in s.db.memories
      ensures id in after
    {
      if !Edits(op, id) {
        EntryStep(s, sha, op, id);
      }
    }
    forall id | id in after && after[id].status == Superseded
      ensures id in s.db.memories && PointsDownAt(s.db.memories, after, id)
    {
      NoEntryAppears(s, sha, op, id);
      EntryStep(s, sha, op, id);
    }
  }

  ghost predicate PointsDownAt(before: Memories, after: Memories, id: string)
    requires id in after
  {
    && after[id].supersededBy.Some? && JsLess(after[id].supersededBy.value, id)
    && after[id].supersededBy.value in before
  }

  lemma NoEntryAppears(s: Sys, sha: Sha, op: Op, id: string)
    requires TargetsOnce(s) && id in Step(s, sha, op).db.memories
    ensures id in s.db.memories || Edits(op, id)
  {
    if !op.Edit? && Step(s, sha, op).db.memories != s.db.memories {
      EntriesMoveOnlyByCommit(s, sha, op);
      var plan :| Commits(s, sha, op, plan);
      var key, now := MergingCommits(s, sha, op, plan, ItemsAt(s, op));
      OthersAfterCommit(s.db, plan, Destructive(ItemsAt(s, op)), key, now, id);
    }
  }

  /** However plans interleave, following `superseded_by` never runs in a circle: ids only get smaller. */
  lemma {:induction false} AlwaysPointsDown(sha: Sha, ops: seq<Op>)
    requires Run(ops) && PlainEdits(ops)
    ensures PointsDown(Replay(sha, ops).db.memories)
  {
    if ops != [] {
      var before, op := ops[..|ops| - 1], ops[|ops| - 1];
      AlwaysPointsDown(sha, before);
      AlwaysOnce(sha, before);
      StepPointsDown(Replay(sha, before), sha, op);
    }
  }
}
