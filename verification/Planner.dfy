/**
  The planning half of maintenance: duplicate groups become plan items, one
  item for each memory, whichever groups it occurs in.
 */
module MaintenancePlanner {
  import opened Common
  import opened Sorting
  import opened PlanItems

  datatype Reason = SameTitleAndBody | SameTitle | SameBody | SimilarTitleAndBody

  datatype Group = Group(reason: Reason, fingerprint: string, ids: seq<string>)

  function Priority(action: Action): nat {
    match action
    case Merge => 4
    case Supersede => 3
    case Forget => 2
    case Update => 1
    case Retain => 0
  }

  function ActionOf(group: Group): Action {
    if group.reason.SameTitleAndBody? then Merge else Retain
  }

  /** `revisions[id] ?? 0` after the revisions have been put into a plain object: no number for `__proto__`. */
  function RevisionOf(stored: map<string, int>, id: string): Option<int> {
    if id == PROTO then None else Some(if id in stored then stored[id] else 0)
  }

  /** The item for `id` out of `group`; `stored` holds the revisions of the entries that exist. */
  function ItemOf(group: Group, id: string, stored: map<string, int>): Item {
    Item(id, RevisionOf(stored, id), ActionOf(group), Some(group.fingerprint),
         if group.reason.SameTitleAndBody? then High else Low)
  }

  // ---------- addItem ----------

  type Seen = map<string, Item>

  /** `seenTarget` and `proposed_actions` hold the same items, each target once. */
  ghost predicate Consistent(seen: Seen, actions: seq<Item>) {
    && DistinctTargets(actions)
    && (forall a | a in actions :: a.target in seen && seen[a.target] == a)
    && (forall id | id in seen :: seen[id].target == id && seen[id] in actions)
  }

  /** A new target is recorded; a known one is replaced only by a higher priority. */
  function Kept(seen: Seen, item: Item): Seen {
    if item.target in seen && Priority(item.action) <= Priority(seen[item.target].action) then seen
    else seen[item.target := item]
  }

  method IndexOf(actions: seq<Item>, item: Item) returns (index: nat)
    requires item in actions
    ensures index < |actions| && actions[index] == item
  {
    index := 0;
    while actions[index] != item
      invariant index < |actions| && item !in actions[..index]
      decreases |actions| - index
    {
      index := index + 1;
    }
  }

  lemma ReplacementKeeps(seen: Seen, actions: seq<Item>, item: Item, index: nat)
    requires Consistent(seen, actions) && index < |actions| && actions[index].target == item.target
    ensures Consistent(seen[item.target := item], actions[index := item])
    ensures TargetList(actions[index := item]) == TargetList(actions)
  {
    var seen', actions' := seen[item.target := item], actions[index := item];
    forall id | id in seen'
      ensures seen'[id].target == id && seen'[id] in actions'
    {
      if id == item.target {
        assert actions'[index] == item;
      } else {
        var k :| 0 <= k < |actions| && actions[k] == seen[id];
        assert actions'[k] == seen[id];
      }
    }
  }

  lemma DistinctWith(actions: seq<Item>, item: Item)
    requires DistinctTargets(actions) && forall a | a in actions :: a.target != item.target
    ensures DistinctTargets(actions + [item])
  {
  }

  lemma ListWith(actions: seq<Item>, item: Item)
    ensures TargetList(actions + [item]) == TargetList(actions) + [item.target]
  {
  }

  lemma AdditionKeeps(seen: Seen, actions: seq<Item>, item: Item)
    requires Consistent(seen, actions) && item.target !in seen
    ensures Consistent(seen[item.target := item], actions + [item])
  {
    var seen', actions' := seen[item.target := item], actions + [item];
    assert forall a | a in actions :: a.target != item.target;
    DistinctWith(actions, item);
    assert forall a :: a in actions' <==> a in actions || a == item;
    forall id | id in seen'
      ensures seen'[id].target == id && seen'[id] in actions'
    {
    }
  }

  method AddItem(seen: Seen, actions: seq<Item>, item: Item) returns (seen': Seen, actions': seq<Item>)
    requires Consistent(seen, actions)
    ensures seen' == Kept(seen, item) && Consistent(seen', actions')
    ensures TargetList(actions') == TargetList(actions) + if item.target in seen then [] else [item.target]
  {
    seen', actions' := seen, actions;
    if item.target in seen {
      var existing := seen[item.target];
      if Priority(item.action) > Priority(existing.action) {
        var index := IndexOf(actions, existing);
        actions' := actions[index := item];
        seen' := seen[item.target := item];
        ReplacementKeeps(seen, actions, item, index);
      }
    } else {
      AdditionKeeps(seen, actions, item);
      ListWith(actions, item);
      seen' := seen[item.target := item];
      actions' := actions + [item];
    }
  }

  // ---------- which group an item comes from ----------

  /** Groups of one are skipped. */
  predicate Offers(groups: seq<Group>, k: int, id: string) {
    0 <= k < |groups| && |groups[k].ids| >= 2 && id in groups[k].ids
  }

  /** The group among the first `n` that decides the item for `id`. */
  function Winner(groups: seq<Group>, n: nat, id: string): (best: Option<nat>)
    requires n <= |groups|
    ensures best.Some? ==> best.value < n
  {
    if n == 0 then None
    else
      var before := Winner(groups, n - 1, id);
      if Offers(groups, n - 1, id)
         && (before.None? || Priority(ActionOf(groups[n - 1])) > Priority(ActionOf(groups[before.value])))
      then Some(n - 1)
      else before
  }

  /** It is the earliest of those with the highest priority, and there is one as soon as any group offers the id. */
  lemma {:induction false} WinnerIsEarliestOfHighest(groups: seq<Group>, n: nat, id: string)
    requires n <= |groups|
    ensures Winner(groups, n, id).None? ==> forall k | 0 <= k < n :: !Offers(groups, k, id)
    ensures Winner(groups, n, id).Some? ==>
              var w := Winner(groups, n, id).value;
              && Offers(groups, w, id)
              && (forall k | 0 <= k < n && Offers(groups, k, id) ::
                  Priority(ActionOf(groups[k])) <= Priority(ActionOf(groups[w])))
              && (forall k | 0 <= k < w && Offers(groups, k, id) ::
                  Priority(ActionOf(groups[k])) < Priority(ActionOf(groups[w])))
  {
    if n > 0 {
      WinnerIsEarliestOfHighest(groups, n - 1, id);
    }
  }

  /** What is recorded for each id once the first `n` groups and the first `j` ids of group `n` are done. */
  function Deciding(groups: seq<Group>, n: nat, j: nat, id: string): (w: Option<nat>)
    requires n < |groups| && j <= |groups[n].ids|
    ensures w.Some? ==> w.value <= n
  {
    Winner(groups, if id in groups[n].ids[..j] then n + 1 else n, id)
  }

  ghost predicate Records(groups: seq<Group>, stored: map<string, int>, seen: Seen, n: nat)
    requires n <= |groups|
  {
    && (forall id :: id in seen <==> Winner(groups, n, id).Some?)
    && (forall id | id in seen :: seen[id] == ItemOf(groups[Winner(groups, n, id).value], id, stored))
  }

  ghost predicate RecordsWithin(groups: seq<Group>, stored: map<string, int>, seen: Seen, n: nat, j: nat)
    requires n < |groups| && j <= |groups[n].ids|
  {
    && (forall id :: id in seen <==> Deciding(groups, n, j, id).Some?)
    && (forall id | id in seen :: seen[id] == ItemOf(groups[Deciding(groups, n, j, id).value], id, stored))
  }

  lemma DecidingNext(groups: seq<Group>, n: nat, j: nat, id: string)
    requires n < |groups| && j < |groups[n].ids|
    ensures id != groups[n].ids[j] ==> Deciding(groups, n, j + 1, id) == Deciding(groups, n, j, id)
    ensures id == groups[n].ids[j] ==> Deciding(groups, n, j + 1, id) == Winner(groups, n + 1, id)
  {
    var ids := groups[n].ids;
    assert ids[..j + 1] == ids[..j] + [ids[j]];
  }

  /** What `Kept` makes of the item for one more id. */
  lemma KeptIsWinner(groups: seq<Group>, stored: map<string, int>, seen: Seen, n: nat, j: nat)
    requires n < |groups| && j < |groups[n].ids| && |groups[n].ids| >= 2
    requires RecordsWithin(groups, stored, seen, n, j)
    ensures var id := groups[n].ids[j];
            var w := Winner(groups, n + 1, id);
            && w.Some?
            && Kept(seen, ItemOf(groups[n], id, stored)) == seen[id := ItemOf(groups[w.value], id, stored)]
  {
    var id := groups[n].ids[j];
    assert Offers(groups, n, id);
    var item := ItemOf(groups[n], id, stored);
    var w := Winner(groups, n + 1, id).value;
    assert Priority(ActionOf(groups[n])) <= Priority(ActionOf(groups[w]));
    if id in seen {
      assert seen[id] == ItemOf(groups[Deciding(groups, n, j, id).value], id, stored);
      if Priority(item.action) <= Priority(seen[id].action) {
        assert seen[id := seen[id]] == seen;
      }
    }
  }

  lemma NextId(groups: seq<Group>, stored: map<string, int>, seen: Seen, n: nat, j: nat)
    requires n < |groups| && j < |groups[n].ids| && |groups[n].ids| >= 2
    requires RecordsWithin(groups, stored, seen, n, j)
    ensures RecordsWithin(groups, stored, Kept(seen, ItemOf(groups[n], groups[n].ids[j], stored)), n, j + 1)
  {
    var next := Kept(seen, ItemOf(groups[n], groups[n].ids[j], stored));
    KeptIsWinner(groups, stored, seen, n, j);
    forall id: string
      ensures id in next <==> Deciding(groups, n, j + 1, id).Some?
      ensures id in next ==> next[id] == ItemOf(groups[Deciding(groups, n, j + 1, id).value], id, stored)
    {
      DecidingNext(groups, n, j, id);
      assert id != groups[n].ids[j] ==> (id in next <==> id in seen);
    }
  }

  lemma StartOfGroup(groups: seq<Group>, stored: map<string, int>, seen: Seen, n: nat)
    requires n < |groups| && Records(groups, stored, seen, n)
    ensures RecordsWithin(groups, stored, seen, n, 0)
  {
  }

  lemma EndOfGroup(groups: seq<Group>, stored: map<string, int>, seen: Seen, n: nat)
    requires n < |groups| && RecordsWithin(groups, stored, seen, n, |groups[n].ids|)
    ensures Records(groups, stored, seen, n + 1)
  {
    assert groups[n].ids[..|groups[n].ids|] == groups[n].ids;
    forall id: string
      ensures Deciding(groups, n, |groups[n].ids|, id) == Winner(groups, n + 1, id)
    {
    }
  }

  lemma SkippedGroup(groups: seq<Group>, stored: map<string, int>, seen: Seen, n: nat)
    requires n < |groups| && Records(groups, stored, seen, n) && |groups[n].ids| < 2
    ensures Records(groups, stored, seen, n + 1)
  {
    forall id: string
      ensures Winner(groups, n + 1, id) == Winner(groups, n, id)
    {
    }
  }

  // ---------- the plan ----------

  ghost predicate Planned(actions: seq<Item>, id: string) {
    exists a | a in actions :: a.target == id
  }

  ghost predicate Offered(groups: seq<Group>, id: string) {
    exists k :: Offers(groups, k, id)
  }

  /**
    One item for each memory that occurs in some group of two or more, taken
    from the earliest of the groups with the highest priority for it.
   */
  ghost predicate NormalForm(groups: seq<Group>, stored: map<string, int>, actions: seq<Item>) {
    && DistinctTargets(actions)
    && (forall id :: Planned(actions, id) <==> Offered(groups, id))
    && (forall a | a in actions ::
          var w := Winner(groups, |groups|, a.target);
          w.Some? && a == ItemOf(groups[w.value], a.target, stored))
  }

  lemma RecordedIsNormal(groups: seq<Group>, stored: map<string, int>, seen: Seen, actions: seq<Item>)
    requires Consistent(seen, actions) && Records(groups, stored, seen, |groups|)
    ensures NormalForm(groups, stored, actions)
  {
    forall id: string
      ensures Planned(actions, id) <==> Offered(groups, id)
    {
      WinnerIsEarliestOfHighest(groups, |groups|, id);
      if id in seen {
        assert seen[id] in actions && Offers(groups, Winner(groups, |groups|, id).value, id);
      }
    }
  }

  /** The inner loop: one item for each id of a group. */
  method AddGroup(groups: seq<Group>, n: nat, stored: map<string, int>, seen: Seen, actions: seq<Item>)
    returns (seen': Seen, actions': seq<Item>)
    requires n < |groups| && |groups[n].ids| >= 2 && Consistent(seen, actions) && Records(groups, stored, seen, n)
    ensures Consistent(seen', actions') && Records(groups, stored, seen', n + 1)
  {
    seen', actions' := seen, actions;
    StartOfGroup(groups, stored, seen, n);
    for j := 0 to |groups[n].ids|
      invariant Consistent(seen', actions') && RecordsWithin(groups, stored, seen', n, j)
    {
      NextId(groups, stored, seen', n, j);
      seen', actions' := AddItem(seen', actions', ItemOf(groups[n], groups[n].ids[j], stored));
    }
    EndOfGroup(groups, stored, seen', n);
  }

  /** The nested loops of `planMaintenance`. */
  method ProposeActions(groups: seq<Group>, stored: map<string, int>) returns (actions: seq<Item>, risk: Risk)
    ensures NormalForm(groups, stored, actions)
    ensures risk == if exists a :: a in actions && a.action != Retain then High else Low
  {
    var seen: Seen := map[];
    actions := [];
    for n := 0 to |groups|
      invariant Consistent(seen, actions) && Records(groups, stored, seen, n)
    {
      if |groups[n].ids| < 2 {
        SkippedGroup(groups, stored, seen, n);
      } else {
        seen, actions := AddGroup(groups, n, stored, seen, actions);
      }
    }
    RecordedIsNormal(groups, stored, seen, actions);
    var destructive := Destructive(actions);
    risk := if |destructive| > 0 then High else Low;
    assert |destructive| > 0 ==> destructive[0] in actions;
  }

  // ---------- what the plan says ----------

  /** A memory is merged exactly when some group of identical title and body holds it; otherwise it is only listed. */
  lemma MergedIff(groups: seq<Group>, stored: map<string, int>, actions: seq<Item>, a: Item)
    requires NormalForm(groups, stored, actions) && a in actions
    ensures a.action == Merge <==> exists k :: Offers(groups, k, a.target) && groups[k].reason.SameTitleAndBody?
    ensures a.action == Merge || a.action == Retain
  {
    WinnerIsEarliestOfHighest(groups, |groups|, a.target);
  }

  /** What is recorded of a memory: its revision, zero if it is gone; merging is high risk and listing is low. */
  lemma ItemColumns(groups: seq<Group>, stored: map<string, int>, actions: seq<Item>, a: Item)
    requires NormalForm(groups, stored, actions) && a in actions
    ensures a.target != "__proto__" ==> a.expected == Some(if a.target in stored then stored[a.target] else 0)
    ensures a.target == "__proto__" ==> a.expected == None
    ensures a.action == Merge ==> a.risk == High
    ensures a.action == Retain ==> a.risk == Low
    ensures exists k | 0 <= k < |groups| :: a.fingerprint == Some(groups[k].fingerprint) && a.target in groups[k].ids
  {
    WinnerIsEarliestOfHighest(groups, |groups|, a.target);
  }

  /** Two plans over the same groups list the same items, whatever their order. */
  lemma NormalFormUnique(groups: seq<Group>, stored: map<string, int>, a: seq<Item>, b: seq<Item>)
    requires NormalForm(groups, stored, a) && NormalForm(groups, stored, b)
    ensures forall x :: x in a <==> x in b
  {
    ItemsCarryOver(groups, stored, a, b);
    ItemsCarryOver(groups, stored, b, a);
  }

  lemma ItemsCarryOver(groups: seq<Group>, stored: map<string, int>, a: seq<Item>, b: seq<Item>)
    requires NormalForm(groups, stored, a) && NormalForm(groups, stored, b)
    ensures forall x | x in a :: x in b
  {
    forall x | x in a
      ensures x in b
    {
      assert Planned(a, x.target) && Offered(groups, x.target) && Planned(b, x.target);
      var y :| y in b && y.target == x.target;
    }
  }

  /**
    How the detector builds the groups of identical entries: an entry has one
    title and body, so these groups share no entry, and none lists one twice.
   */
  ghost predicate IdenticalGroupsApart(groups: seq<Group>) {
    && (forall k, l | 0 <= k < |groups| && 0 <= l < |groups| && k != l :: Apart(groups[k], groups[l]))
    && (forall k | 0 <= k < |groups| && groups[k].reason.SameTitleAndBody? :: Distinct(groups[k].ids))
  }

  ghost predicate Apart(g: Group, h: Group) {
    g.reason.SameTitleAndBody? && h.reason.SameTitleAndBody? ==>
      g.fingerprint != h.fingerprint && forall id | id in g.ids :: id !in h.ids
  }

  lemma SharedIdMeansSame(groups: seq<Group>, k: nat, l: nat, id: string)
    requires IdenticalGroupsApart(groups) && Offers(groups, k, id) && Offers(groups, l, id)
    requires groups[k].reason.SameTitleAndBody? && groups[l].reason.SameTitleAndBody?
    ensures k == l
  {
    assert !Apart(groups[k], groups[l]);
  }

  lemma SharedPrintMeansSame(groups: seq<Group>, k: nat, l: nat)
    requires IdenticalGroupsApart(groups) && k < |groups| && l < |groups|
    requires groups[k].reason.SameTitleAndBody? && groups[l].reason.SameTitleAndBody?
    requires groups[k].fingerprint == groups[l].fingerprint
    ensures k == l
  {
    assert !Apart(groups[k], groups[l]);
  }

  /** The merge item of an id comes from the one identical group that holds it. */
  lemma MergeComesFrom(groups: seq<Group>, stored: map<string, int>, actions: seq<Item>, a: Item, k: nat)
    requires IdenticalGroupsApart(groups) && NormalForm(groups, stored, actions) && a in actions
    requires Offers(groups, k, a.target) && groups[k].reason.SameTitleAndBody?
    ensures a == ItemOf(groups[k], a.target, stored)
  {
    WinnerIsEarliestOfHighest(groups, |groups|, a.target);
    var w := Winner(groups, |groups|, a.target).value;
    assert Priority(ActionOf(groups[w])) >= 4;
    assert groups[w].reason.SameTitleAndBody?;
    SharedIdMeansSame(groups, w, k, a.target);
  }

  /**
    Grouping the destructive items by fingerprint, in whatever order they are
    read back, gives the groups of identical entries again, complete.
   */
  lemma FingerprintGroupsAreWhole(groups: seq<Group>, stored: map<string, int>, actions: seq<Item>, read: seq<Item>,
                                  k: nat)
    requires IdenticalGroupsApart(groups) && NormalForm(groups, stored, actions) && multiset(read) == multiset(actions)
    requires k < |groups| && groups[k].reason.SameTitleAndBody? && |groups[k].ids| >= 2
    ensures forall x :: x in GroupOf(Destructive(read), groups[k].fingerprint)
                        <==> x.target in groups[k].ids && x == ItemOf(groups[k], x.target, stored)
  {
    var g := groups[k];
    var whole := GroupOf(Destructive(read), g.fingerprint);
    SameMembers(read, actions);
    GroupMembers(Destructive(read), g.fingerprint);
    forall x | x in whole
      ensures x.target in g.ids && x == ItemOf(g, x.target, stored)
    {
      assert x in actions;
      MergedIff(groups, stored, actions, x);
      var l :| Offers(groups, l, x.target) && groups[l].reason.SameTitleAndBody?;
      MergeComesFrom(groups, stored, actions, x, l);
      assert x.fingerprint == Some(groups[l].fingerprint);
      SharedPrintMeansSame(groups, l, k);
    }
    forall id | id in g.ids
      ensures ItemOf(g, id, stored) in whole
    {
      assert Offers(groups, k, id) && Offered(groups, id) && Planned(actions, id);
      var a :| a in actions && a.target == id;
      MergeComesFrom(groups, stored, actions, a, k);
    }
  }
}
