/** From duplicate groups to superseded entries: plan, create and apply put together. */
module MaintenanceEndToEnd {
  import opened Common
  import opened Sorting
  import opened TextOrder
  import opened PlanItems
  import opened MaintenancePlanner
  import P = MaintenancePlans
  import R = MaintenanceRuns

  /** The entry is as the planner saw it: visible, active, in the plan's scope, at the planned revision. */
  ghost predicate Unmoved(db: P.Db, op: R.Op, clearance: nat, stored: map<string, int>, id: string)
    requires op.Create?
  {
    && id in db.memories && id in stored
    && var m := db.memories[id];
    && m.revision == stored[id] && m.sensitivity <= clearance && m.status.Active?
    && m.scope == op.scope && (op.project.Some? ==> m.project == op.project)
  }

  ghost predicate Identical(groups: seq<Group>, k: int) {
    0 <= k < |groups| && groups[k].reason.SameTitleAndBody? && |groups[k].ids| >= 2
  }

  /** Everything the lemmas below share: a plan over these groups, just created, about to be applied. */
  ghost predicate Ready(groups: seq<Group>, stored: map<string, int>, db: P.Db, op: R.Op, call: P.Call) {
    && R.Sound(db) && op.Create? && op.id !in db.plans && op.id == call.plan
    && (op.scope.Project? ==> op.project.Some? && op.project.value != "")
    && IdenticalGroupsApart(groups) && NormalForm(groups, stored, op.items) && !HasInvertedPair(op.items)
    && call.confirm && call.key != "" && call.now < op.expiresAt && !Offered(groups, PROTO)
    && forall id | Offered(groups, id) :: Unmoved(db, op, call.clearance, stored, id)
  }

  lemma ItemsOf(groups: seq<Group>, stored: map<string, int>, actions: seq<Item>, x: Item)
    requires NormalForm(groups, stored, actions) && x in actions
    ensures Offered(groups, x.target) && x.fingerprint.Some?
    ensures x.target in stored && x.target != PROTO ==> x.expected == Some(stored[x.target])
  {
    assert Planned(actions, x.target);
  }

  // ---------- an entry whose id is `__proto__` ----------

  /** Every planned item is stored exactly when no group offers `__proto__`. */
  lemma StoredWholeIff(groups: seq<Group>, stored: map<string, int>, actions: seq<Item>)
    requires NormalForm(groups, stored, actions)
    ensures R.FreshPrefix(CreateOrder(actions), {}) == CreateOrder(actions) <==> !Offered(groups, PROTO)
    ensures forall x | x in R.Stored(actions) :: x.target != PROTO
  {
    var created := CreateOrder(actions);
    R.CreateOrderDistinct(actions);
    SameMembers(created, actions);
    R.FreshPrefixDistinct(created, {});
    SameMembers(R.Stored(actions), R.FreshPrefix(created, {}));
    PrefixMembers(created, {});
    forall x | x in created
      ensures x.expected.None? <==> x.target == PROTO
    {
      assert x in actions;
    }
    if Offered(groups, PROTO) {
      assert Planned(actions, PROTO);
      var x :| x in actions && x.target == PROTO;
      assert x in created;
    } else {
      forall i | 0 <= i < |created|
        ensures created[i].expected.Some?
      {
        assert created[i] in actions && Planned(actions, created[i].target);
      }
      R.FreshPrefixWhole(created, {});
    }
  }

  lemma {:induction false} PrefixMembers(items: seq<Item>, seen: set<string>)
    ensures forall x | x in R.FreshPrefix(items, seen) :: x in items
  {
    if items != [] {
      PrefixMembers(items[1..], seen + {items[0].target});
    }
  }

  /** So a plan over two identical entries, one of them with that id, is not stored whole. */
  lemma ProtoIsNotStored(stored: map<string, int>, actions: seq<Item>, id: string)
    requires NormalForm([Group(SameTitleAndBody, "f", [PROTO, id])], stored, actions)
    ensures R.FreshPrefix(CreateOrder(actions), {}) != CreateOrder(actions)
    ensures forall x | x in R.Stored(actions) :: x.target != PROTO
  {
    var groups := [Group(SameTitleAndBody, "f", [PROTO, id])];
    assert groups[0].ids[0] == PROTO;
    assert Offers(groups, 0, PROTO);
    StoredWholeIff(groups, stored, actions);
  }

  lemma NumberedPlan(groups: seq<Group>, stored: map<string, int>, actions: seq<Item>)
    requires NormalForm(groups, stored, actions) && !Offered(groups, PROTO)
    ensures R.Numbered(actions) && forall x | x in actions :: x.target != PROTO
  {
    forall i | 0 <= i < |actions|
      ensures actions[i].target != PROTO && actions[i].expected.Some?
    {
      assert actions[i] in actions && Planned(actions, actions[i].target);
    }
  }

  lemma NothingMoved(groups: seq<Group>, stored: map<string, int>, db: P.Db, sha: Sha, op: R.Op, call: P.Call)
    requires Ready(groups, stored, db, op, call)
    ensures var made := R.Created(db, sha, op);
            && made.items[op.id] == CreateOrder(op.items)
            && made.plans[op.id] == R.NewRow(op, sha)
            && R.Undrifted(made, op.id, call.clearance)
  {
    var made := R.Created(db, sha, op);
    NumberedPlan(groups, stored, op.items);
    R.FreshPlanRehashes(op.items);
    SameMembers(CreateOrder(op.items), op.items);
    forall x | x in made.items[op.id]
      ensures P.SeenRevision(made.memories, x.target, call.clearance) == x.expected
    {
      ItemsOf(groups, stored, op.items, x);
      assert Unmoved(db, op, call.clearance, stored, x.target);
    }
  }

  lemma TwoMembers(group: seq<Item>, x: Item, y: Item)
    requires x in group && y in group && x != y
    ensures |group| >= 2
  {
  }

  /** The fingerprint group of each identical group has at least two items. */
  lemma GroupBigEnough(groups: seq<Group>, stored: map<string, int>, actions: seq<Item>, read: seq<Item>, k: nat)
    requires IdenticalGroupsApart(groups) && NormalForm(groups, stored, actions) && multiset(read) == multiset(actions)
    requires Identical(groups, k)
    ensures |GroupOf(Destructive(read), groups[k].fingerprint)| >= 2
  {
    var g := groups[k];
    FingerprintGroupsAreWhole(groups, stored, actions, read, k);
    TwoMembers(GroupOf(Destructive(read), g.fingerprint), ItemOf(g, g.ids[0], stored), ItemOf(g, g.ids[1], stored));
  }

  lemma DestructiveMergeable(groups: seq<Group>, stored: map<string, int>, db: P.Db, sha: Sha, op: R.Op, call: P.Call)
    requires Ready(groups, stored, db, op, call)
    ensures Structured(Destructive(CreateOrder(op.items)))
    ensures P.AllMergeable(db.memories, R.NewRow(op, sha), Destructive(CreateOrder(op.items)))
  {
    var read := CreateOrder(op.items);
    SameMembers(read, op.items);
    forall x | x in Destructive(read)
      ensures x.fingerprint.Some? && P.Obstacle(db.memories, R.NewRow(op, sha), x).None?
      ensures |GroupOf(Destructive(read), x.fingerprint.value)| >= 2
    {
      ItemsOf(groups, stored, op.items, x);
      assert Unmoved(db, op, call.clearance, stored, x.target);
      MergedIff(groups, stored, op.items, x);
      var k :| Offers(groups, k, x.target) && groups[k].reason.SameTitleAndBody?;
      MergeComesFrom(groups, stored, op.items, x, k);
      GroupBigEnough(groups, stored, op.items, read, k);
    }
  }

  /** A plan that is applied while nothing it lists has moved succeeds. */
  lemma PlannedThenApplied(groups: seq<Group>, stored: map<string, int>, db: P.Db, sha: Sha, op: R.Op, call: P.Call)
    requires Ready(groups, stored, db, op, call)
    ensures P.Perform(R.Created(db, sha, op), sha, call).answer.Done?
  {
    var made := R.Created(db, sha, op);
    NothingMoved(groups, stored, db, sha, op, call);
    DestructiveMergeable(groups, stored, db, sha, op, call);
    R.CreateKeepsSound(db, sha, op);
    R.SucceedsIff(made, sha, call);
  }

  /** The id that a group of identical entries collapses to: the smallest. */
  ghost predicate Keeps(group: Group, keep: string) {
    keep in group.ids && forall id | id in group.ids :: !JsLess(id, keep)
  }

  lemma KeeperOfWhole(groups: seq<Group>, stored: map<string, int>, actions: seq<Item>, read: seq<Item>, k: nat)
    requires IdenticalGroupsApart(groups) && NormalForm(groups, stored, actions) && multiset(read) == multiset(actions)
    requires Identical(groups, k)
    ensures GroupOf(Destructive(read), groups[k].fingerprint) != []
    ensures Keeps(groups[k], P.Keeper(GroupOf(Destructive(read), groups[k].fingerprint)))
  {
    var g := groups[k];
    var whole := GroupOf(Destructive(read), g.fingerprint);
    FingerprintGroupsAreWhole(groups, stored, actions, read, k);
    GroupBigEnough(groups, stored, actions, read, k);
    P.KeeperIsLeast(whole);
    forall id | id in g.ids
      ensures !JsLess(id, P.Keeper(whole))
    {
      assert ItemOf(g, id, stored) in whole;
    }
  }

  lemma KeptIsKeeper(groups: seq<Group>, stored: map<string, int>, actions: seq<Item>, read: seq<Item>, k: nat,
                     keep: string)
    requires IdenticalGroupsApart(groups) && NormalForm(groups, stored, actions) && multiset(read) == multiset(actions)
    requires Identical(groups, k) && Keeps(groups[k], keep)
    ensures P.Smallest(Destructive(read), groups[k].fingerprint, keep)
  {
    var f := groups[k].fingerprint;
    KeeperOfWhole(groups, stored, actions, read, k);
    var least := P.Keeper(GroupOf(Destructive(read), f));
    JsTotal(keep, least, keep);
    P.KeeperIsSmallest(Destructive(read), f);
  }

  /**
    And then each group of identical entries has collapsed to its smallest
    entry: that one is untouched and active, the others are superseded by it,
    one revision later and otherwise as they were.
   */
  lemma GroupsCollapse(groups: seq<Group>, stored: map<string, int>, db: P.Db, sha: Sha, op: R.Op, call: P.Call, k: nat,
                       keep: string, id: string)
    requires Ready(groups, stored, db, op, call) && Identical(groups, k) && id in groups[k].ids
    requires Keeps(groups[k], keep)
    ensures id in db.memories && keep in db.memories
    ensures var after := P.Perform(R.Created(db, sha, op), sha, call).db.memories;
            && id in after && keep in after
            && after[keep] == db.memories[keep] && after[keep].status == P.Active
            && (id != keep ==>
                  && after[id].status == P.Superseded && after[id].supersededBy == Some(keep)
                  && after[id].revision == db.memories[id].revision + 1
                  && after[id].scope == db.memories[id].scope && after[id].project == db.memories[id].project
                  && after[id].sensitivity == db.memories[id].sensitivity)
  {
    var made, read := R.Created(db, sha, op), CreateOrder(op.items);
    var x := ItemOf(groups[k], id, stored);
    Committed(groups, stored, db, sha, op, call);
    FingerprintGroupsAreWhole(groups, stored, op.items, read, k);
    KeptIsKeeper(groups, stored, op.items, read, k, keep);
    GroupMembers(Destructive(read), groups[k].fingerprint);
    assert x in Destructive(read);
    P.MemoryAfterCommit(made, op.id, Destructive(read), call.key, call.now, x, keep);
  }

  /** Of these entries `keep` alone is active. */
  ghost predicate OnlyActive(memories: P.Memories, ids: seq<string>, keep: string) {
    keep in ids && forall id | id in ids :: id in memories && (memories[id].status == P.Active <==> id == keep)
  }

  /** So of each group of identical entries exactly one is still active. */
  lemma OneStaysActive(groups: seq<Group>, stored: map<string, int>, db: P.Db, sha: Sha, op: R.Op, call: P.Call, k: nat)
    requires Ready(groups, stored, db, op, call) && Identical(groups, k)
    ensures exists keep :: OnlyActive(P.Perform(R.Created(db, sha, op), sha, call).db.memories, groups[k].ids, keep)
  {
    var keep := SmallestOf(groups, stored, op, k);
    StaysActive(groups, stored, db, sha, op, call, k, keep);
  }

  lemma SmallestOf(groups: seq<Group>, stored: map<string, int>, op: R.Op, k: nat) returns (keep: string)
    requires op.Create? && IdenticalGroupsApart(groups) && NormalForm(groups, stored, op.items) && Identical(groups, k)
    ensures Keeps(groups[k], keep)
  {
    var read := CreateOrder(op.items);
    KeeperOfWhole(groups, stored, op.items, read, k);
    keep := P.Keeper(GroupOf(Destructive(read), groups[k].fingerprint));
  }

  lemma StaysActive(groups: seq<Group>, stored: map<string, int>, db: P.Db, sha: Sha, op: R.Op, call: P.Call, k: nat,
                    keep: string)
    requires Ready(groups, stored, db, op, call) && Identical(groups, k) && Keeps(groups[k], keep)
    ensures OnlyActive(P.Perform(R.Created(db, sha, op), sha, call).db.memories, groups[k].ids, keep)
  {
    forall id | id in groups[k].ids
      ensures var after := P.Perform(R.Created(db, sha, op), sha, call).db.memories;
              id in after && (after[id].status == P.Active <==> id == keep)
    {
      GroupsCollapse(groups, stored, db, sha, op, call, k, keep, id);
    }
  }

  /** Entries in no such group are as they were. */
  lemma OthersStay(groups: seq<Group>, stored: map<string, int>, db: P.Db, sha: Sha, op: R.Op, call: P.Call, id: string)
    requires Ready(groups, stored, db, op, call) && id in db.memories
    requires forall k | Identical(groups, k) :: id !in groups[k].ids
    ensures var after := P.Perform(R.Created(db, sha, op), sha, call).db.memories;
            id in after && after[id] == db.memories[id]
  {
    var made, read := R.Created(db, sha, op), CreateOrder(op.items);
    Committed(groups, stored, db, sha, op, call);
    SameMembers(read, op.items);
    forall x | x in Destructive(read)
      ensures x.target != id
    {
      MergedIff(groups, stored, op.items, x);
      var k :| Offers(groups, k, x.target) && groups[k].reason.SameTitleAndBody?;
      assert Identical(groups, k);
    }
    if Destructive(read) != [] {
      P.OthersAfterCommit(made, op.id, Destructive(read), call.key, call.now, id);
    }
  }

  lemma Committed(groups: seq<Group>, stored: map<string, int>, db: P.Db, sha: Sha, op: R.Op, call: P.Call)
    requires Ready(groups, stored, db, op, call)
    ensures var made, items := R.Created(db, sha, op), Destructive(CreateOrder(op.items));
            var o := P.Perform(made, sha, call);
            && DistinctTargets(items) && Structured(items) && made.memories == db.memories && op.id in made.plans
            && (items == [] ==> o.db.memories == db.memories)
            && (items != [] ==> P.CommitPlan(made, op.id, items, call.key, call.now).Committed?
                                && o.db.memories == P.CommitPlan(made, op.id, items, call.key, call.now).db.memories)
  {
    var made := R.Created(db, sha, op);
    NothingMoved(groups, stored, db, sha, op, call);
    DestructiveMergeable(groups, stored, db, sha, op, call);
    R.CreateKeepsSound(db, sha, op);
    PlannedThenApplied(groups, stored, db, sha, op, call);
    R.SuccessMemories(made, sha, call);
  }
}
