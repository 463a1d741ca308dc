/**
  Applying a durable maintenance plan: validation, idempotent replay, and one
  transaction that either collapses every duplicate group or changes nothing.
 */
module MaintenancePlans {
  import opened Common
  import opened Sorting
  import opened TextOrder
  import opened PlanItems

  datatype State = Pending | Applying | Completed | Expired | Rejected

  datatype Counts = Counts(applied: nat, rejected: nat)

  datatype Scope = Global | Project

  /** A row of `maintenance_plans`. */
  datatype PlanRow = PlanRow(hash: string, expiresAt: int, state: State, scope: Scope, project: Option<string>,
                             keyUsed: Option<string>, result: Option<Counts>, completedAt: Option<int>)

  datatype Status = Active | Superseded | Inactive

  /** What maintenance reads and writes of a memory entry; sensitivity is 1, 2 or 3. */
  datatype Memory = Memory(revision: int, status: Status, supersededBy: Option<string>, scope: Scope,
                           project: Option<string>, sensitivity: nat)

  type Memories = map<string, Memory>

  /** An `apply_maintenance` audit event. */
  datatype Event = Event(plan: string, key: string, ok: bool)

  /** `items` holds each plan's item rows in the order SQLite returns them. */
  datatype Db = Db(plans: map<string, PlanRow>, items: map<string, seq<Item>>, memories: Memories, audit: seq<Event>)

  datatype Error = PlanNotFound | PlanExpired | HashDrift | StaleRevision | IdempotencyMismatch | UnplannedTarget

  /** What a caller gets: `Invalid` and `Aborted` are the two `invalid_schema` errors. */
  datatype Answer = Invalid | Refused(error: Error) | Done(counts: Counts) | Aborted

  datatype Call = Call(plan: string, confirm: bool, key: string, clearance: nat, now: int)

  // ---------- single statements ----------

  function WithState(db: Db, id: string, state: State): (after: Db)
    ensures after.plans.Keys == db.plans.Keys
  {
    if id in db.plans then db.(plans := db.plans[id := db.plans[id].(state := state)]) else db
  }

  /** Guarded on `applying`. */
  function WithCompleted(db: Db, id: string, key: string, counts: Counts, now: int): (after: Db)
    ensures after.plans.Keys == db.plans.Keys
  {
    if id in db.plans && db.plans[id].state.Applying? then
      db.(plans := db.plans[id := db.plans[id].(state := Completed, completedAt := Some(now), result := Some(counts),
                                                keyUsed := Some(key))])
    else db
  }

  function WithEvent(db: Db, id: string, key: string, ok: bool): Db {
    db.(audit := db.audit + [Event(id, key, ok)])
  }

  function SweptRow(row: PlanRow, now: int): PlanRow {
    if row.state.Pending? && row.expiresAt <= now then row.(state := Expired) else row
  }

  function Swept(plans: map<string, PlanRow>, now: int): map<string, PlanRow> {
    map id | id in plans :: SweptRow(plans[id], now)
  }

  /** The keys of the successful applies that the audit log names for a plan. */
  function AppliedKeys(audit: seq<Event>, id: string): (keys: seq<string>)
    ensures forall k :: k in keys <==> Event(id, k, true) in audit
  {
    if audit == [] then []
    else if audit[0].plan == id && audit[0].ok then [audit[0].key] + AppliedKeys(audit[1..], id)
    else AppliedKeys(audit[1..], id)
  }

  // ---------- validation ----------

  datatype Verdict = Fail(error: Error) | Proceed | ReplayOf(counts: Counts)

  /** What a plain object of revisions gives back for an id; no number for `__proto__`. */
  function ReadBack(target: string, revision: int): Option<int> {
    if target == PROTO then None else Some(revision)
  }

  /** The revision a caller with this clearance sees; -1 when it sees no row. */
  function SeenRevision(memories: Memories, target: string, clearance: nat): Option<int> {
    ReadBack(target,
             if target in memories && memories[target].sensitivity <= clearance then memories[target].revision else -1)
  }

  function Snapshot(db: Db, id: string, clearance: nat): map<string, Option<int>>
    requires id in db.items
  {
    map t | t in Targets(db.items[id]) :: SeenRevision(db.memories, t, clearance)
  }

  function Targets(items: seq<Item>): (r: set<string>)
    ensures forall t :: t in r <==> exists x | x in items :: x.target == t
  {
    set x | x in items :: x.target
  }

  predicate Unplanned(items: seq<Item>, current: map<string, Option<int>>) {
    exists x | x in items :: x.target !in current
  }

  predicate Drifted(items: seq<Item>, current: map<string, Option<int>>) {
    exists x | x in items :: x.target in current && current[x.target] != x.expected
  }

  function Validate(db: Db, sha: Sha, id: string, current: map<string, Option<int>>, key: string, now: int): Verdict {
    if id !in db.plans || id !in db.items then Fail(PlanNotFound)
    else
      var row, items, keys := db.plans[id], db.items[id], AppliedKeys(db.audit, id);
      if row.state.Expired? || row.expiresAt <= now then Fail(PlanExpired)
      else if row.state.Completed? then
        if row.keyUsed == Some(key) && row.result.Some? then ReplayOf(row.result.value) else Fail(IdempotencyMismatch)
      else if row.state.Applying? then Fail(PlanExpired)
      else if row.state.Rejected? then Fail(HashDrift)
      else if sha(Payloads(items)) != row.hash then Fail(HashDrift)
      else if Unplanned(items, current) then Fail(UnplannedTarget)
      else if Drifted(items, current) then Fail(StaleRevision)
      else if keys != [] && key !in keys then Fail(IdempotencyMismatch)
      else Proceed
  }

  type Ending = s: State | s.Expired? || s.Rejected? witness Expired

  /** The state `validate` itself writes: to a pending plan past its time, or one whose items no longer hash. */
  function MarkOf(db: Db, sha: Sha, id: string, now: int): Option<Ending> {
    if id !in db.plans || id !in db.items || !db.plans[id].state.Pending? then None
    else if db.plans[id].expiresAt <= now then Some(Expired)
    else if sha(Payloads(db.items[id])) != db.plans[id].hash then Some(Rejected)
    else None
  }

  function AfterValidate(db: Db, sha: Sha, id: string, now: int): (after: Db)
    ensures after.plans.Keys == db.plans.Keys
  {
    if MarkOf(db, sha, id, now).Some? then WithState(db, id, MarkOf(db, sha, id, now).value) else db
  }

  // ---------- merging one group ----------

  datatype Reason = TargetMissing | Stale | ScopeMismatch | NonDedupGroup

  /** Why this item cannot be merged now, in the order the code checks. */
  function Obstacle(memories: Memories, row: PlanRow, x: Item): Option<Reason> {
    if x.target !in memories || !memories[x.target].status.Active? then Some(TargetMissing)
    else if x.target == PROTO || x.expected != Some(memories[x.target].revision) then Some(Stale)
    else if memories[x.target].scope != row.scope then Some(ScopeMismatch)
    else if row.project.Some? && memories[x.target].project != row.project then Some(ScopeMismatch)
    else None
  }

  predicate Mergeable(memories: Memories, row: PlanRow, group: seq<Item>) {
    |group| >= 2 && forall x | x in group :: Obstacle(memories, row, x).None?
  }

  /** The smallest target: `keep_first`. */
  function Keeper(group: seq<Item>): (keep: string)
    requires group != []
  {
    if |group| == 1 then group[0].target
    else
      var rest := Keeper(group[1..]);
      if JsLess(rest, group[0].target) then rest else group[0].target
  }

  function Retired(m: Memory, keep: string): Memory {
    m.(status := Superseded, supersededBy := Some(keep), revision := m.revision + 1)
  }

  /** Every target of the group but its keeper is superseded by the keeper; nothing else changes. */
  function Collapsed(memories: Memories, group: seq<Item>): Memories
    requires group != []
  {
    map id | id in memories ::
      if id in Targets(group) && id != Keeper(group) then Retired(memories[id], Keeper(group)) else memories[id]
  }

  // ---------- the transaction ----------

  datatype Merging = AllMerged(memories: Memories, applied: nat) | GroupFailed

  function MergeGroups(memories: Memories, row: PlanRow, items: seq<Item>, keys: seq<string>): Merging {
    if keys == [] then AllMerged(memories, 0)
    else
      var group := GroupOf(items, keys[0]);
      if !Mergeable(memories, row, group) then GroupFailed
      else
        match MergeGroups(Collapsed(memories, group), row, items, keys[1..])
        case GroupFailed => GroupFailed
        case AllMerged(after, applied) => AllMerged(after, |group| - 1 + applied)
  }

  datatype Commit = Committed(db: Db, applied: nat) | NotMerged | Thrown

  /** The transaction: `pending -> applying`, every group, `applying -> completed`; or nothing at all. */
  function CommitPlan(db: Db, id: string, items: seq<Item>, key: string, now: int): (c: Commit)
    requires Structured(items)
    ensures c.Committed? ==> c.db.plans.Keys == db.plans.Keys
  {
    if id !in db.plans || !db.plans[id].state.Pending? then Thrown
    else
      var row := db.plans[id];
      if row.scope.Project? && (row.project.None? || row.project.value == "") then Thrown
      else
        match MergeGroups(db.memories, row, items, Fingerprints(items))
        case GroupFailed => NotMerged
        case AllMerged(after, applied) =>
          Committed(WithCompleted(WithState(db.(memories := after), id, Applying), id, key, Counts(applied, 0), now),
                    applied)
  }

  // ---------- apply ----------

  datatype Outcome = Outcome(db: Db, answer: Answer)

  /** Everything after validation, given the plan items read before it. */
  function Finish(db: Db, call: Call, items: seq<Item>, verdict: Verdict): (o: Outcome)
    ensures o.db.plans.Keys == db.plans.Keys
  {
    var id, key := call.plan, call.key;
    match verdict
    case Fail(error) =>
      var marked := if error in {StaleRevision, HashDrift, UnplannedTarget} then WithState(db, id, Rejected) else db;
      Outcome(WithEvent(marked, id, key, false), Refused(error))
    case ReplayOf(counts) => Outcome(WithEvent(db, id, key, true), Done(counts))
    case Proceed =>
      var destructive := Destructive(items);
      if destructive == [] then
        Outcome(WithEvent(WithCompleted(db, id, key, Counts(0, 0), call.now), id, key, true), Done(Counts(0, 0)))
      else if !Structured(destructive) then
        Outcome(WithEvent(WithState(db, id, Rejected), id, key, false), Refused(UnplannedTarget))
      else
        match CommitPlan(db, id, destructive, key, call.now)
        case Committed(after, applied) => Outcome(WithEvent(after, id, key, true), Done(Counts(applied, 0)))
        case NotMerged => Outcome(WithEvent(db, id, key, false), Refused(StaleRevision))
        case Thrown => Outcome(WithEvent(db, id, key, false), Aborted)
  }

  /** One call of `applyMaintenance` with no other client in between. */
  function Perform(db: Db, sha: Sha, call: Call): (o: Outcome)
    ensures o.db.plans.Keys == db.plans.Keys
  {
    if !call.confirm || call.key == "" then Outcome(db, Invalid)
    else if call.plan !in db.plans || call.plan !in db.items then Outcome(db, Refused(PlanNotFound))
    else
      var verdict := Validate(db, sha, call.plan, Snapshot(db, call.plan, call.clearance), call.key, call.now);
      Finish(AfterValidate(db, sha, call.plan, call.now), call, db.items[call.plan], verdict)
  }

  // ---------- what merging does ----------

  /** The keeper is a target of the group, and none is smaller. */
  lemma {:induction false} KeeperIsLeast(group: seq<Item>)
    requires group != []
    ensures Keeper(group) in Targets(group)
    ensures forall x | x in group :: !JsLess(x.target, Keeper(group))
  {
    if |group| == 1 {
      JsTotal(group[0].target, group[0].target, "");
    } else {
      KeeperIsLeast(group[1..]);
      var rest, keep := Keeper(group[1..]), Keeper(group);
      forall x | x in group
        ensures !JsLess(x.target, keep)
      {
        JsTotal(group[0].target, group[0].target, "");
        JsTotal(rest, group[0].target, rest);
        JsTotal(x.target, group[0].target, rest);
        JsTotal(group[0].target, rest, group[0].target);
        assert x == group[0] || x in group[1..];
      }
      var y :| y in group[1..] && y.target == rest;
      assert y in group && group[0] in group;
    }
  }

  /** The keeper of the group that holds `id`, among the groups under `keys`. */
  function KeeperFor(items: seq<Item>, keys: seq<string>, id: string): Option<string> {
    if keys == [] then None
    else
      var group := GroupOf(items, keys[0]);
      if group != [] && id in Targets(group) then Some(Keeper(group)) else KeeperFor(items, keys[1..], id)
  }

  function AfterMerge(m: Memory, id: string, keeper: Option<string>): Memory {
    if keeper.Some? && keeper.value != id then Retired(m, keeper.value) else m
  }

  /** What every memory looks like after all groups are merged, in one look. */
  function AllCollapsed(memories: Memories, items: seq<Item>, keys: seq<string>): Memories {
    map id | id in memories :: AfterMerge(memories[id], id, KeeperFor(items, keys, id))
  }

  lemma GroupsApart(items: seq<Item>, f: string, g: string, x: Item, y: Item)
    requires DistinctTargets(items) && f != g && x in GroupOf(items, f) && y in GroupOf(items, g)
    ensures x.target != y.target
  {
    GroupMembers(items, f);
    GroupMembers(items, g);
    TargetDetermines(items, x, y);
  }

  lemma {:induction false} NoKeeperElsewhere(items: seq<Item>, keys: seq<string>, f: string, id: string)
    requires DistinctTargets(items) && f !in keys && id in Targets(GroupOf(items, f))
    ensures KeeperFor(items, keys, id).None?
  {
    if keys != [] {
      NoKeeperElsewhere(items, keys[1..], f, id);
      var x :| x in GroupOf(items, f) && x.target == id;
      forall y | y in GroupOf(items, keys[0])
        ensures y.target != id
      {
        GroupsApart(items, f, keys[0], x, y);
      }
    }
  }

  /** Merging one group does not affect whether another can be merged. */
  lemma OtherGroupsUntouched(memories: Memories, row: PlanRow, items: seq<Item>, f: string, g: string)
    requires DistinctTargets(items) && f != g && GroupOf(items, f) != []
    ensures Mergeable(Collapsed(memories, GroupOf(items, f)), row, GroupOf(items, g))
        <==> Mergeable(memories, row, GroupOf(items, g))
  {
    var after := Collapsed(memories, GroupOf(items, f));
    forall y | y in GroupOf(items, g)
      ensures Obstacle(after, row, y) == Obstacle(memories, row, y)
    {
      forall x | x in GroupOf(items, f)
        ensures x.target != y.target
      {
        GroupsApart(items, f, g, x, y);
      }
    }
  }

  lemma CollapseFirst(memories: Memories, items: seq<Item>, keys: seq<string>)
    requires DistinctTargets(items) && Distinct(keys) && keys != [] && GroupOf(items, keys[0]) != []
    ensures AllCollapsed(Collapsed(memories, GroupOf(items, keys[0])), items, keys[1..])
        == AllCollapsed(memories, items, keys)
  {
    var group := GroupOf(items, keys[0]);
    var once := Collapsed(memories, group);
    forall id | id in memories
      ensures AfterMerge(once[id], id, KeeperFor(items, keys[1..], id))
          == AfterMerge(memories[id], id, KeeperFor(items, keys, id))
    {
      if id in Targets(group) {
        NoKeeperElsewhere(items, keys[1..], keys[0], id);
      }
    }
    assert AllCollapsed(once, items, keys[1..]).Keys == AllCollapsed(memories, items, keys).Keys;
  }

  /**
    All groups merge exactly when each could be merged at the start, and then
    every target but its group's keeper is superseded by that keeper, nothing
    else changes, and the count is the number of items less one a group.
   */
  lemma {:induction false} MergeGroupsIff(memories: Memories, row: PlanRow, items: seq<Item>, keys: seq<string>)
    requires DistinctTargets(items) && Distinct(keys)
    ensures MergeGroups(memories, row, items, keys).AllMerged?
        <==> forall f | f in keys :: Mergeable(memories, row, GroupOf(items, f))
    ensures MergeGroups(memories, row, items, keys).AllMerged? ==> |keys| <= Sizes(items, keys)
    ensures MergeGroups(memories, row, items, keys).AllMerged?
        ==> MergeGroups(memories, row, items, keys)
            == AllMerged(AllCollapsed(memories, items, keys), Sizes(items, keys) - |keys|)
  {
    if keys == [] {
      assert AllCollapsed(memories, items, keys) == memories;
    } else {
      var group := GroupOf(items, keys[0]);
      assert keys[0] in keys && forall f :: f in keys <==> f == keys[0] || f in keys[1..];
      if Mergeable(memories, row, group) {
        MergeGroupsIff(Collapsed(memories, group), row, items, keys[1..]);
        forall f | f in keys[1..]
          ensures Mergeable(Collapsed(memories, group), row, GroupOf(items, f)) <==>
              Mergeable(memories, row, GroupOf(items, f))
        {
          OtherGroupsUntouched(memories, row, items, keys[0], f);
        }
        CollapseFirst(memories, items, keys);
      }
    }
  }

  lemma {:induction false} KeeperForMember(items: seq<Item>, keys: seq<string>, x: Item)
    requires DistinctTargets(items) && Distinct(keys) && x in items && x.fingerprint.Some?
        && x.fingerprint.value in keys
    ensures GroupOf(items, x.fingerprint.value) != []
    ensures KeeperFor(items, keys, x.target) == Some(Keeper(GroupOf(items, x.fingerprint.value)))
  {
    var f := x.fingerprint.value;
    GroupMembers(items, f);
    assert x in GroupOf(items, f);
    if keys[0] != f {
      forall y | y in GroupOf(items, keys[0])
        ensures y.target != x.target
      {
        GroupsApart(items, f, keys[0], x, y);
      }
      KeeperForMember(items, keys[1..], x);
    }
  }

  lemma {:induction false} NoKeeperForOthers(items: seq<Item>, keys: seq<string>, id: string)
    requires id !in Targets(items)
    ensures KeeperFor(items, keys, id).None?
  {
    if keys != [] {
      GroupMembers(items, keys[0]);
      NoKeeperForOthers(items, keys[1..], id);
    }
  }

  ghost predicate Placed(row: PlanRow) {
    row.scope.Project? ==> row.project.Some? && row.project.value != ""
  }

  /** Every destructive item is in a group of two or more and can be merged now. */
  ghost predicate AllMergeable(memories: Memories, row: PlanRow, items: seq<Item>)
    requires Structured(items)
  {
    forall x | x in items ::
      Obstacle(memories, row, x).None? && |GroupOf(items, x.fingerprint.value)| >= 2
  }

  lemma GroupMergeable(memories: Memories, row: PlanRow, items: seq<Item>, f: string)
    requires Structured(items) && AllMergeable(memories, row, items) && GroupOf(items, f) != []
    ensures Mergeable(memories, row, GroupOf(items, f))
  {
    var group := GroupOf(items, f);
    GroupMembers(items, f);
    assert group[0] in group;
  }

  lemma ItemMergeable(memories: Memories, row: PlanRow, items: seq<Item>, x: Item)
    requires x in items && x.fingerprint.Some? && Mergeable(memories, row, GroupOf(items, x.fingerprint.value))
    ensures Obstacle(memories, row, x).None? && |GroupOf(items, x.fingerprint.value)| >= 2
  {
    GroupMembers(items, x.fingerprint.value);
  }

  lemma GroupsMergeable(memories: Memories, row: PlanRow, items: seq<Item>)
    requires Structured(items)
    ensures AllMergeable(memories, row, items)
        <==> forall f | f in Fingerprints(items) :: Mergeable(memories, row, GroupOf(items, f))
  {
    FingerprintsComplete(items);
    if AllMergeable(memories, row, items) {
      forall f | f in Fingerprints(items)
        ensures Mergeable(memories, row, GroupOf(items, f))
      {
        GroupMergeable(memories, row, items, f);
      }
    } else {
      var x :| x in items && !(Obstacle(memories, row, x).None? && |GroupOf(items, x.fingerprint.value)| >= 2);
      var f := x.fingerprint.value;
      assert f in Fingerprints(items) && !Mergeable(memories, row, GroupOf(items, f)) by {
        if Mergeable(memories, row, GroupOf(items, f)) {
          ItemMergeable(memories, row, items, x);
        }
      }
    }
  }

  /** What the transaction writes once every group has merged. */
  lemma CommitShape(db: Db, id: string, items: seq<Item>, key: string, now: int, after: Memories, applied: nat)
    requires Structured(items) && id in db.plans && db.plans[id].state.Pending? && Placed(db.plans[id])
    requires MergeGroups(db.memories, db.plans[id], items, Fingerprints(items)) == AllMerged(after, applied)
    ensures CommitPlan(db, id, items, key, now)
         == Committed(Db(db.plans[id := db.plans[id].(state := Completed, completedAt := Some(now),
                                                      result := Some(Counts(applied, 0)), keyUsed := Some(key))],
                         db.items, after, db.audit), applied)
  {
  }

  /** The transaction commits exactly when the plan is pending and every item can be merged. */
  lemma CommitsIff(db: Db, id: string, items: seq<Item>, key: string, now: int)
    requires Structured(items) && DistinctTargets(items) && id in db.plans
    ensures CommitPlan(db, id, items, key, now).Committed?
        <==> db.plans[id].state.Pending? && Placed(db.plans[id]) && AllMergeable(db.memories, db.plans[id], items)
    ensures CommitPlan(db, id, items, key, now).Committed? ==>
              var c := CommitPlan(db, id, items, key, now);
              && c.applied == |items| - |Fingerprints(items)|
              && c.db.memories == AllCollapsed(db.memories, items, Fingerprints(items))
              && c.db.plans == db.plans[id := db.plans[id].(state := Completed, completedAt := Some(now),
                                                            result := Some(Counts(c.applied, 0)), keyUsed := Some(key))]
              && c.db.items == db.items && c.db.audit == db.audit
  {
    var row, keys := db.plans[id], Fingerprints(items);
    FingerprintsComplete(items);
    MergeGroupsIff(db.memories, row, items, keys);
    GroupsMergeable(db.memories, row, items);
    GroupsPartition(items);
    if row.state.Pending? && Placed(row) && AllMergeable(db.memories, row, items) {
      CommitShape(db, id, items, key, now, AllCollapsed(db.memories, items, keys), |items| - |keys|);
    }
  }

  /** `keep` is the smallest id among the items with this fingerprint. */
  ghost predicate Smallest(items: seq<Item>, f: string, keep: string) {
    && (exists x | x in items :: x.fingerprint == Some(f) && x.target == keep)
    && (forall x | x in items && x.fingerprint == Some(f) :: !JsLess(x.target, keep))
  }

  lemma SmallestIsKeeper(items: seq<Item>, f: string, keep: string)
    requires Smallest(items, f, keep)
    ensures GroupOf(items, f) != [] && Keeper(GroupOf(items, f)) == keep
  {
    var group := GroupOf(items, f);
    GroupMembers(items, f);
    var x :| x in items && x.fingerprint == Some(f) && x.target == keep;
    assert x in group;
    KeeperIsLeast(group);
    JsTotal(keep, Keeper(group), keep);
  }

  lemma KeeperIsSmallest(items: seq<Item>, f: string)
    requires GroupOf(items, f) != []
    ensures Smallest(items, f, Keeper(GroupOf(items, f)))
  {
    GroupMembers(items, f);
    KeeperIsLeast(GroupOf(items, f));
  }

  /**
    After a commit a target that is not the smallest of its group is
    superseded by the smallest, one revision later and otherwise as before; the
    smallest is as it was, and both were active.
   */
  lemma MemoryAfterCommit(db: Db, id: string, items: seq<Item>, key: string, now: int, x: Item, keep: string)
    requires Structured(items) && DistinctTargets(items) && id in db.plans
    requires CommitPlan(db, id, items, key, now).Committed?
    requires x in items && Smallest(items, x.fingerprint.value, keep)
    ensures x.target in db.memories && keep in db.memories
    ensures var after := CommitPlan(db, id, items, key, now).db.memories;
            && x.target in after && keep in after
            && after[keep] == db.memories[keep] && after[keep].status == Active
            && var was, entry := db.memories[x.target], after[x.target];
            && was.status == Active
            && (x.target != keep ==>
                  && entry.status == Superseded && entry.supersededBy == Some(keep)
                  && entry.revision == was.revision + 1 && entry.scope == was.scope
                  && entry.project == was.project && entry.sensitivity == was.sensitivity)
  {
    var f, keys := x.fingerprint.value, Fingerprints(items);
    CommitsIff(db, id, items, key, now);
    FingerprintsComplete(items);
    SmallestIsKeeper(items, f, keep);
    KeeperForMember(items, keys, x);
    var y :| y in items && y.fingerprint == Some(f) && y.target == keep;
    KeeperForMember(items, keys, y);
    assert Obstacle(db.memories, db.plans[id], x).None? && Obstacle(db.memories, db.plans[id], y).None?;
  }

  /** No entry comes or goes, and one that no item names is as it was. */
  lemma OthersAfterCommit(db: Db, id: string, items: seq<Item>, key: string, now: int, target: string)
    requires Structured(items) && DistinctTargets(items) && id in db.plans
    requires CommitPlan(db, id, items, key, now).Committed?
    ensures var after := CommitPlan(db, id, items, key, now).db.memories;
            && after.Keys == db.memories.Keys
            && (target in db.memories && (forall x | x in items :: x.target != target) ==>
                  after[target] == db.memories[target])
  {
    CommitsIff(db, id, items, key, now);
    if forall x | x in items :: x.target != target {
      NoKeeperForOthers(items, Fingerprints(items), target);
    }
  }

  /** What an item needs to be merged: its entry is active, at the planned revision and where the plan is. */
  lemma ObstacleIff(memories: Memories, row: PlanRow, x: Item)
    ensures Obstacle(memories, row, x).None? <==>
              && x.target in memories && x.target != "__proto__"
              && var m := memories[x.target];
              && m.status == Active && x.expected == Some(m.revision) && m.scope == row.scope
              && (row.project == None || m.project == row.project)
  {
  }

  /** All items can be merged exactly when each can and shares its fingerprint with another. */
  lemma AllMergeableIff(memories: Memories, row: PlanRow, items: seq<Item>)
    requires Structured(items) && DistinctTargets(items)
    ensures AllMergeable(memories, row, items) <==>
              forall x | x in items ::
                Obstacle(memories, row, x).None?
                && exists y | y in items :: y.fingerprint == x.fingerprint && y.target != x.target
  {
    forall x | x in items
      ensures |GroupOf(items, x.fingerprint.value)| >= 2 <==>
          exists y | y in items :: y.fingerprint == x.fingerprint && y.target != x.target
    {
      PairInGroup(items, x);
    }
  }

  lemma PairInGroup(items: seq<Item>, x: Item)
    requires DistinctTargets(items) && x in items && x.fingerprint.Some?
    ensures |GroupOf(items, x.fingerprint.value)| >= 2 <==>
        exists y | y in items :: y.fingerprint == x.fingerprint && y.target != x.target
  {
    var group := GroupOf(items, x.fingerprint.value);
    GroupMembers(items, x.fingerprint.value);
    GroupTargetsDiffer(items, x.fingerprint.value);
    if |group| >= 2 {
      var y := if group[0].target == x.target then group[1] else group[0];
      assert y in group && y.target != x.target;
    }
    assert x in group;
    if y :| y in items && y.fingerprint == x.fingerprint && y.target != x.target {
      assert y in group;
    }
  }

  lemma {:induction false} GroupTargetsDiffer(items: seq<Item>, f: string)
    requires DistinctTargets(items)
    ensures DistinctTargets(GroupOf(items, f))
  {
    if items != [] {
      var before, last := items[..|items| - 1], items[|items| - 1];
      GroupTargetsDiffer(before, f);
      GroupMembers(before, f);
      forall x | x in before
        ensures x.target != last.target
      {
        var k :| 0 <= k < |before| && before[k] == x;
        assert items[k] == x;
      }
    }
  }
}
