/**
  Whole runs of maintenance plans: creates, sweeps, applies, edits of the
  entries and tampering with the item rows, on one connection or interleaved
  over several.
 */
module MaintenanceRuns {
  import opened Common
  import opened Sorting
  import opened PlanItems
  import opened MaintenancePlans

  // ---------- one call ----------

  lemma ProceedMeans(db: Db, sha: Sha, call: Call)
    requires call.plan in db.plans && call.plan in db.items
    requires Validate(db, sha, call.plan, Snapshot(db, call.plan, call.clearance), call.key, call.now).Proceed?
    ensures db.plans[call.plan].state.Pending? && call.now < db.plans[call.plan].expiresAt
    ensures sha(Payloads(db.items[call.plan])) == db.plans[call.plan].hash
    ensures AfterValidate(db, sha, call.plan, call.now) == db
    ensures Undrifted(db, call.plan, call.clearance)
    ensures forall k | Event(call.plan, k, true) in db.audit :: Event(call.plan, call.key, true) in db.audit
  {
    var current := Snapshot(db, call.plan, call.clearance);
    forall x | x in db.items[call.plan]
      ensures SeenRevision(db.memories, x.target, call.clearance) == x.expected
    {
      assert x.target in current;
    }
  }

  /** Every listed entry is visible at the revision the plan recorded. */
  ghost predicate Undrifted(db: Db, id: string, clearance: nat)
    requires id in db.items
  {
    forall x | x in db.items[id] :: SeenRevision(db.memories, x.target, clearance) == x.expected
  }

  /** The call gets as far as opening the transaction. */
  ghost predicate Transacts(db: Db, sha: Sha, call: Call) {
    && call.confirm && call.key != "" && call.plan in db.plans && call.plan in db.items
    && Validate(db, sha, call.plan, Snapshot(db, call.plan, call.clearance), call.key, call.now).Proceed?
    && Destructive(db.items[call.plan]) != [] && Structured(Destructive(db.items[call.plan]))
  }

  /** All or nothing: if any group fails, one audit row is all that is left behind. */
  lemma FailedTransactionLeavesOnlyAudit(db: Db, sha: Sha, call: Call)
    requires Transacts(db, sha, call)
    ensures !Perform(db, sha, call).answer.Done? ==>
        Perform(db, sha, call).db == WithEvent(db, call.plan, call.key, false)
    ensures !Perform(db, sha, call).answer.Done? ==> db.plans[call.plan].state.Pending?
    ensures Perform(db, sha, call).answer.Done? <==>
              CommitPlan(db, call.plan, Destructive(db.items[call.plan]), call.key, call.now).Committed?
  {
    ProceedMeans(db, sha, call);
    FinishOfTransaction(db, call, db.items[call.plan]);
  }

  lemma FinishOfTransaction(db: Db, call: Call, items: seq<Item>)
    requires Destructive(items) != [] && Structured(Destructive(items))
    ensures var o := Finish(db, call, items, Proceed);
            var c := CommitPlan(db, call.plan, Destructive(items), call.key, call.now);
            && (o.answer.Done? <==> c.Committed?)
            && (!o.answer.Done? ==> o.db == WithEvent(db, call.plan, call.key, false))
  {
  }

  /** Only the row of plan `id` may differ, and no item row does. */
  ghost predicate Framed(db: Db, after: Db, id: string) {
    && after.items == db.items && after.plans.Keys == db.plans.Keys
    && forall other | other in db.plans && other != id :: after.plans[other] == db.plans[other]
  }

  lemma CommitFramed(db: Db, id: string, items: seq<Item>, key: string, now: int)
    requires Structured(items) && CommitPlan(db, id, items, key, now).Committed?
    ensures Framed(db, CommitPlan(db, id, items, key, now).db, id)
    ensures CommitPlan(db, id, items, key, now).db.audit == db.audit
  {
  }

  lemma StateFramed(db: Db, id: string, state: State)
    ensures Framed(db, WithState(db, id, state), id)
    ensures WithState(db, id, state).memories == db.memories && WithState(db, id, state).audit == db.audit
  {
  }

  lemma FinishKeeps(db: Db, call: Call, items: seq<Item>, verdict: Verdict)
    ensures var o := Finish(db, call, items, verdict);
            && Framed(db, o.db, call.plan)
            && o.db.audit == db.audit + [Event(call.plan, call.key, o.answer.Done?)]
            && (o.db.memories != db.memories ==>
                  o.answer.Done? && verdict.Proceed? && Destructive(items) != [] && Structured(Destructive(items)))
  {
    StateFramed(db, call.plan, Rejected);
    var destructive := Destructive(items);
    if Structured(destructive) && CommitPlan(db, call.plan, destructive, call.key, call.now).Committed? {
      CommitFramed(db, call.plan, destructive, call.key, call.now);
    }
  }

  lemma AfterValidateKeeps(db: Db, sha: Sha, id: string, now: int)
    ensures var after := AfterValidate(db, sha, id, now);
            Framed(db, after, id) && after.memories == db.memories && after.audit == db.audit
  {
    StateFramed(db, id, Expired);
    StateFramed(db, id, Rejected);
  }

  /** What any call leaves alone, and the one audit row it adds. */
  lemma CallKeeps(db: Db, sha: Sha, call: Call)
    ensures var o := Perform(db, sha, call);
            && Framed(db, o.db, call.plan)
            && (o.db.memories != db.memories ==> Transacts(db, sha, call) && o.answer.Done?)
            && o.db.audit == db.audit + (if o.answer.Invalid? || o.answer == Refused(PlanNotFound) then []
                                         else [Event(call.plan, call.key, o.answer.Done?)])
  {
    if call.confirm && call.key != "" && call.plan in db.plans && call.plan in db.items {
      var verdict := Validate(db, sha, call.plan, Snapshot(db, call.plan, call.clearance), call.key, call.now);
      AfterValidateKeeps(db, sha, call.plan, call.now);
      FinishKeeps(AfterValidate(db, sha, call.plan, call.now), call, db.items[call.plan], verdict);
      assert verdict != Fail(PlanNotFound);
    }
  }

  // ---------- the invariant ----------

  ghost predicate RowSound(row: PlanRow) {
    && !row.state.Applying?
    && (row.state.Completed? ==> row.keyUsed.Some? && row.result.Some?)
  }

  ghost predicate RowsSound(db: Db) {
    && db.plans.Keys == db.items.Keys
    && (forall id | id in db.plans :: RowSound(db.plans[id]))
    && (forall id | id in db.items :: DistinctTargets(db.items[id]))
  }

  /** The log names one successful key a plan, and for a completed plan it is the stored one. */
  ghost predicate KeysSound(db: Db) {
    && (forall e | e in db.audit && e.ok :: e.plan in db.plans)
    && (forall e, f | e in db.audit && f in db.audit && e.ok && f.ok && e.plan == f.plan :: e.key == f.key)
    && (forall e | e in db.audit && e.ok && e.plan in db.plans && db.plans[e.plan].state.Completed? ::
          db.plans[e.plan].keyUsed == Some(e.key))
  }

  ghost predicate Sound(db: Db) {
    RowsSound(db) && KeysSound(db)
  }

  /** A plan that is not pending keeps its row whatever is called. */
  lemma CallKeepsSettled(db: Db, sha: Sha, call: Call)
    requires RowsSound(db) && call.plan in db.plans && !db.plans[call.plan].state.Pending?
    ensures Perform(db, sha, call).db.plans == db.plans
    ensures Perform(db, sha, call).db.memories == db.memories
    ensures Perform(db, sha, call).answer.Done? ==> db.plans[call.plan].state.Completed?
    ensures Perform(db, sha, call).answer.Done? ==> db.plans[call.plan].keyUsed == Some(call.key)
    ensures Perform(db, sha, call).answer.Done? ==>
        db.plans[call.plan].result == Some(Perform(db, sha, call).answer.counts)
  {
    var row := db.plans[call.plan];
    assert row.state.Rejected? ==> db.plans[call.plan := row.(state := Rejected)] == db.plans;
  }

  /** When a pending plan's call succeeds, any key already logged for the plan is this call's key. */
  lemma SuccessOnPending(db: Db, sha: Sha, call: Call)
    requires Sound(db) && call.plan in db.plans && db.plans[call.plan].state.Pending?
    requires Perform(db, sha, call).answer.Done?
    ensures forall e | e in db.audit && e.ok && e.plan == call.plan :: e.key == call.key
    ensures var row := Perform(db, sha, call).db.plans[call.plan];
            row == db.plans[call.plan] || (row.state.Completed? && row.keyUsed == Some(call.key)
                                           && row.result == Some(Perform(db, sha, call).answer.counts))
    ensures Perform(db, sha, call).db.plans[call.plan].expiresAt == db.plans[call.plan].expiresAt
    ensures Destructive(db.items[call.plan]) != [] ==> Perform(db, sha, call).db.plans[call.plan].state.Completed?
    ensures Destructive(db.items[call.plan]) == [] ==> Perform(db, sha, call).db.plans == db.plans
  {
    ProceedMeans(db, sha, call);
    forall e | e in db.audit && e.ok && e.plan == call.plan
      ensures e.key == call.key
    {
      assert e == Event(call.plan, e.key, true);
    }
    var destructive := Destructive(db.items[call.plan]);
    if destructive != [] {
      DestructiveDistinct(db.items[call.plan]);
      CommitsIff(db, call.plan, destructive, call.key, call.now);
    }
  }

  lemma FailureOnPending(db: Db, sha: Sha, call: Call)
    requires Sound(db) && call.plan in db.plans && db.plans[call.plan].state.Pending?
    requires !Perform(db, sha, call).answer.Done?
    ensures Perform(db, sha, call).db.plans[call.plan].state in {Pending, Expired, Rejected}
  {
    if Transacts(db, sha, call) {
      FailedTransactionLeavesOnlyAudit(db, sha, call);
    }
  }

  lemma KeysSoundAfter(db: Db, after: Db, event: Event)
    requires KeysSound(db) && after.audit == db.audit + [event] && db.plans.Keys == after.plans.Keys
    requires event.ok ==>
        event.plan in after.plans && forall e | e in db.audit && e.ok && e.plan == event.plan :: e.key == event.key
    requires forall id | id in db.plans && id != event.plan :: after.plans[id] == db.plans[id]
    requires event.plan in after.plans && after.plans[event.plan].state.Completed? ==>
               after.plans[event.plan] == db.plans[event.plan] || event.ok
    requires event.ok && after.plans[event.plan].state.Completed? ==> after.plans[event.plan].keyUsed == Some(event.key)
    ensures KeysSound(after)
  {
    forall e | e in after.audit
      ensures e in db.audit || e == event
    {
    }
  }

  lemma RowsSoundAfter(db: Db, after: Db, id: string)
    requires RowsSound(db) && Framed(db, after, id) && (id in db.plans ==> RowSound(after.plans[id]))
    ensures RowsSound(after)
  {
  }

  lemma CallKeepsSound(db: Db, sha: Sha, call: Call)
    requires Sound(db)
    ensures Sound(Perform(db, sha, call).db)
  {
    var o := Perform(db, sha, call);
    CallKeeps(db, sha, call);
    if call.confirm && call.key != "" && call.plan in db.plans {
      if !db.plans[call.plan].state.Pending? {
        CallKeepsSettled(db, sha, call);
      } else if o.answer.Done? {
        SuccessOnPending(db, sha, call);
      } else {
        FailureOnPending(db, sha, call);
      }
      RowsSoundAfter(db, o.db, call.plan);
      KeysSoundAfter(db, o.db, Event(call.plan, call.key, o.answer.Done?));
    }
  }

  // ---------- when a call succeeds ----------

  lemma SettledSucceedsIff(db: Db, sha: Sha, call: Call)
    requires Sound(db) && call.plan in db.plans && !db.plans[call.plan].state.Pending?
    ensures var row := db.plans[call.plan];
            Perform(db, sha, call).answer.Done? <==>
              && call.confirm && call.key != "" && call.now < row.expiresAt
              && row.state.Completed? && row.keyUsed == Some(call.key)
  {
  }

  lemma ProceedsIff(db: Db, sha: Sha, call: Call)
    requires Sound(db) && call.plan in db.plans && db.plans[call.plan].state.Pending?
    ensures var row, items := db.plans[call.plan], db.items[call.plan];
            Validate(db, sha, call.plan, Snapshot(db, call.plan, call.clearance), call.key, call.now).Proceed? <==>
              && call.now < row.expiresAt && sha(Payloads(items)) == row.hash
              && Undrifted(db, call.plan, call.clearance)
              && (forall e | e in db.audit && e.ok && e.plan == call.plan :: e.key == call.key)
  {
    var items, current := db.items[call.plan], Snapshot(db, call.plan, call.clearance);
    assert !Unplanned(items, current);
    assert Drifted(items, current) <==> !Undrifted(db, call.plan, call.clearance);
    KeysAgreeIff(db, call.plan, call.key);
  }

  lemma FinishesIff(db: Db, call: Call, items: seq<Item>)
    requires call.plan in db.plans && db.plans[call.plan].state.Pending? && DistinctTargets(items)
    ensures var row, destructive := db.plans[call.plan], Destructive(items);
            Finish(db, call, items, Proceed).answer.Done? <==>
              destructive == []
              || (Structured(destructive) && Placed(row) && AllMergeable(db.memories, row, destructive))
  {
    var destructive := Destructive(items);
    if destructive != [] && Structured(destructive) {
      DestructiveDistinct(items);
      CommitsIff(db, call.plan, destructive, call.key, call.now);
    }
  }

  /** Exactly when `apply_maintenance` succeeds. */
  lemma SucceedsIff(db: Db, sha: Sha, call: Call)
    requires Sound(db) && call.plan in db.plans
    ensures var row, items := db.plans[call.plan], db.items[call.plan];
            var destructive := Destructive(items);
            Perform(db, sha, call).answer.Done? <==>
              && call.confirm && call.key != "" && call.now < row.expiresAt
              && (|| (row.state.Completed? && row.keyUsed == Some(call.key))
                  || (&& row.state.Pending? && sha(Payloads(items)) == row.hash
                      && Undrifted(db, call.plan, call.clearance)
                      && (forall e | e in db.audit && e.ok && e.plan == call.plan :: e.key == call.key)
                      && (destructive == []
                          || (Structured(destructive) && Placed(row) && AllMergeable(db.memories, row, destructive)))))
  {
    if !db.plans[call.plan].state.Pending? {
      SettledSucceedsIff(db, sha, call);
    } else if call.confirm && call.key != "" {
      var verdict := Validate(db, sha, call.plan, Snapshot(db, call.plan, call.clearance), call.key, call.now);
      ProceedsIff(db, sha, call);
      FinishesIff(db, call, db.items[call.plan]);
      if verdict.Proceed? {
        ProceedMeans(db, sha, call);
      }
    }
  }

  lemma KeysAgreeIff(db: Db, id: string, key: string)
    requires KeysSound(db)
    ensures var keys := AppliedKeys(db.audit, id);
            (keys == [] || key in keys) <==> forall e | e in db.audit && e.ok && e.plan == id :: e.key == key
  {
    var keys := AppliedKeys(db.audit, id);
    forall e | e in db.audit && e.ok && e.plan == id
      ensures e.key in keys
    {
      assert e == Event(id, e.key, true);
    }
    if keys != [] {
      assert keys[0] in keys;
    }
  }

  /** The entries after a pending plan's call succeeds are those its transaction commits. */
  lemma SuccessMemories(db: Db, sha: Sha, call: Call)
    requires Sound(db) && call.plan in db.plans && db.plans[call.plan].state.Pending?
    requires Perform(db, sha, call).answer.Done?
    ensures var items, after := Destructive(db.items[call.plan]), Perform(db, sha, call).db.memories;
            && DistinctTargets(items)
            && (items == [] ==> after == db.memories)
            && (items != [] ==> Structured(items) && CommitPlan(db, call.plan, items, call.key, call.now).Committed?
                                && after == CommitPlan(db, call.plan, items, call.key, call.now).db.memories)
  {
    ProceedMeans(db, sha, call);
    DestructiveDistinct(db.items[call.plan]);
  }

  // ---------- runs ----------

  datatype Op =
    | Create(id: string, items: seq<Item>, expiresAt: int, scope: Scope, project: Option<string>, now: int)
    | Apply(call: Call)
    | Sweep(now: int)
      // any other write to an entry; `None` deletes it
    | Edit(target: string, entry: Option<Memory>)
      // the item rows are changed behind the program's back
    | Tamper(id: string, items: seq<Item>)
      // an apply of one client, cut where other clients can get in between: its
      // reads, the state that validation writes, its writes to plan and entries,
      // its audit row
    | Begin(client: nat, call: Call)
    | Mark(client: nat)
    | End(client: nat)
    | Log(client: nat)

  /** The items table has one row for each plan and target, and its revisions are numbers. */
  ghost predicate WellFormed(op: Op) {
    op.Tamper? ==> DistinctTargets(op.items) && Numbered(op.items)
  }

  /** A revision that is a number, as the column of the items table requires. */
  predicate Numbered(items: seq<Item>) {
    forall i | 0 <= i < |items| :: items[i].expected.Some?
  }

  /** The insert loop of `create` stops with an error at the first repeated target or revision that is no number. */
  function FreshPrefix(items: seq<Item>, seen: set<string>): seq<Item> {
    if items == [] || items[0].target in seen || items[0].expected.None? then []
    else [items[0]] + FreshPrefix(items[1..], seen + {items[0].target})
  }

  lemma {:induction false} FreshPrefixDistinct(items: seq<Item>, seen: set<string>)
    ensures DistinctTargets(FreshPrefix(items, seen)) && Numbered(FreshPrefix(items, seen))
    ensures forall x | x in FreshPrefix(items, seen) :: x.target !in seen && x.expected.Some?
  {
    if items != [] && items[0].target !in seen && items[0].expected.Some? {
      FreshPrefixDistinct(items[1..], seen + {items[0].target});
    }
  }

  /** With no target repeated and every revision a number, every item is inserted. */
  lemma {:induction false} FreshPrefixWhole(items: seq<Item>, seen: set<string>)
    requires DistinctTargets(items) && Numbered(items) && forall i | 0 <= i < |items| :: items[i].target !in seen
    ensures FreshPrefix(items, seen) == items
  {
    if items != [] {
      FreshPrefixWhole(items[1..], seen + {items[0].target});
      assert items == [items[0]] + items[1..];
    }
  }

  lemma ReadOrderDistinct(items: seq<Item>)
    requires DistinctTargets(items)
    ensures DistinctTargets(ReadOrder(items))
  {
    TargetsOrder(items);
    DistinctKept(items, ReadOrder(items));
    SameMembers(items, ReadOrder(items));
    forall i, j | 0 <= i < j < |items|
      ensures ReadOrder(items)[i].target != ReadOrder(items)[j].target
    {
      TargetDetermines(items, ReadOrder(items)[i], ReadOrder(items)[j]);
    }
  }

  /** The rows of a plan as SQLite returns them. */
  function Stored(items: seq<Item>): seq<Item> {
    ReadOrder(FreshPrefix(CreateOrder(items), {}))
  }

  /** Without a repeated target or an inverted pair, numbered items are read back as they were hashed. */
  lemma FreshPlanRehashes(items: seq<Item>)
    requires DistinctTargets(items) && !HasInvertedPair(items) && Numbered(items)
    ensures Stored(items) == CreateOrder(items)
  {
    var created := CreateOrder(items);
    CreateOrderDistinct(items);
    SameMembers(created, items);
    assert Numbered(created) by {
      forall i | 0 <= i < |created|
        ensures created[i].expected.Some?
      {
        assert created[i] in items;
      }
    }
    FreshPrefixWhole(created, {});
    TargetsOrder(created);
    TargetsOrder(items);
    SortIgnoresOrder(SqlBefore, created, items);
    OrdersMeet(items);
  }

  lemma CreateOrderDistinct(items: seq<Item>)
    requires DistinctTargets(items)
    ensures DistinctTargets(CreateOrder(items))
  {
    TargetsOrder(items);
    DistinctKept(items, CreateOrder(items));
    SameMembers(items, CreateOrder(items));
    forall i, j | 0 <= i < j < |items|
      ensures CreateOrder(items)[i].target != CreateOrder(items)[j].target
    {
      TargetDetermines(items, CreateOrder(items)[i], CreateOrder(items)[j]);
    }
  }

  function NewRow(op: Op, sha: Sha): PlanRow
    requires op.Create?
  {
    PlanRow(sha(Payloads(CreateOrder(op.items))), op.expiresAt, Pending, op.scope, op.project, None, None, None)
  }

  function Created(db: Db, sha: Sha, op: Op): Db
    requires op.Create?
  {
    var swept := db.(plans := Swept(db.plans, op.now));
    if op.id in db.plans then swept
    else
      swept.(plans := swept.plans[op.id := NewRow(op, sha)],
             items := swept.items[op.id := Stored(op.items)])
  }

  function Edited(memories: Memories, target: string, entry: Option<Memory>): Memories {
    if entry.Some? then memories[target := entry.value] else memories - {target}
  }

  /** A client's apply: about to write what validation found, past validation, or with its audit row still to come. */
  datatype Pause =
    | Marking(call: Call, items: seq<Item>, verdict: Verdict, mark: Ending)
    | Pause(call: Call, items: seq<Item>, verdict: Verdict)
    | Unlogged(event: Event)

  datatype Sys = Sys(db: Db, paused: map<nat, Pause>)

  const EMPTY := Sys(Db(map[], map[], map[], []), map[])

  function Began(s: Sys, sha: Sha, client: nat, call: Call): Sys {
    if !call.confirm || call.key == "" || call.plan !in s.db.plans || call.plan !in s.db.items
    then s.(paused := s.paused - {client})
    else
      var verdict := Validate(s.db, sha, call.plan, Snapshot(s.db, call.plan, call.clearance), call.key, call.now);
      var mark := MarkOf(s.db, sha, call.plan, call.now);
      s.(paused := s.paused[client := if mark.Some? then Marking(call, s.db.items[call.plan], verdict, mark.value)
                                      else Pause(call, s.db.items[call.plan], verdict)])
  }

  /** The UPDATE has no guard: it overwrites whatever state the plan has by now. */
  function Marked(s: Sys, client: nat): Sys {
    if client !in s.paused || !s.paused[client].Marking? then s
    else
      var p := s.paused[client];
      Sys(WithState(s.db, p.call.plan, p.mark), s.paused[client := Pause(p.call, p.items, p.verdict)])
  }

  /** What a call does to plan and entries; its audit row comes after. */
  function Settled(db: Db, call: Call, items: seq<Item>, verdict: Verdict): Db {
    Finish(db, call, items, verdict).db.(audit := db.audit)
  }

  function Ended(s: Sys, client: nat): Sys {
    if client !in s.paused || !s.paused[client].Pause? then s
    else
      var p := s.paused[client];
      var done := Finish(s.db, p.call, p.items, p.verdict).answer.Done?;
      Sys(Settled(s.db, p.call, p.items, p.verdict), s.paused[client := Unlogged(Event(p.call.plan, p.call.key, done))])
  }

  function Logged(s: Sys, client: nat): Sys {
    if client !in s.paused || !s.paused[client].Unlogged? then s
    else Sys(s.db.(audit := s.db.audit + [s.paused[client].event]), s.paused - {client})
  }

  function Step(s: Sys, sha: Sha, op: Op): Sys {
    match op
    case Create(_, _, _, _, _, _) => s.(db := Created(s.db, sha, op))
    case Apply(call) => s.(db := Perform(s.db, sha, call).db)
    case Sweep(now) => s.(db := s.db.(plans := Swept(s.db.plans, now)))
    case Edit(target, entry) => s.(db := s.db.(memories := Edited(s.db.memories, target, entry)))
    case Tamper(id, items) => if id in s.db.items then s.(db := s.db.(items := s.db.items[id := items])) else s
    case Begin(client, call) => Began(s, sha, client, call)
    case Mark(client) => Marked(s, client)
    case End(client) => Ended(s, client)
    case Log(client) => Logged(s, client)
  }

  function Replay(sha: Sha, ops: seq<Op>): Sys {
    if ops == [] then EMPTY else Step(Replay(sha, ops[..|ops| - 1]), sha, ops[|ops| - 1])
  }

  function At(sha: Sha, ops: seq<Op>, n: nat): Sys
    requires n <= |ops|
  {
    Replay(sha, ops[..n])
  }

  lemma AtNext(sha: Sha, ops: seq<Op>, n: nat)
    requires n < |ops|
    ensures At(sha, ops, n + 1) == Step(At(sha, ops, n), sha, ops[n])
  {
    assert ops[..n + 1][..n] == ops[..n];
  }

  /** An apply is four steps with nothing in between. */
  function Steps(client: nat, call: Call): seq<Op> {
    [Begin(client, call), Mark(client), End(client), Log(client)]
  }

  /** The reads and the state that validation writes, with nothing in between. */
  lemma BeginThenMark(s: Sys, sha: Sha, client: nat, call: Call)
    requires call.confirm && call.key != "" && call.plan in s.db.plans && call.plan in s.db.items
    ensures var current := Snapshot(s.db, call.plan, call.clearance);
            var verdict := Validate(s.db, sha, call.plan, current, call.key, call.now);
            Step(Step(s, sha, Begin(client, call)), sha, Mark(client))
            == Sys(AfterValidate(s.db, sha, call.plan, call.now),
                   s.paused[client := Pause(call, s.db.items[call.plan], verdict)])
  {
  }

  lemma EndThenLog(s: Sys, sha: Sha, client: nat, p: Pause)
    requires client in s.paused && s.paused[client] == p && p.Pause?
    ensures Step(Step(s, sha, End(client)), sha, Log(client))
         == Sys(Finish(s.db, p.call, p.items, p.verdict).db, s.paused - {client})
  {
    FinishKeeps(s.db, p.call, p.items, p.verdict);
  }

  lemma ApplyIsFourSteps(s: Sys, sha: Sha, client: nat, call: Call)
    requires client !in s.paused
    ensures var begun := Step(s, sha, Begin(client, call));
            var ended := Step(Step(begun, sha, Mark(client)), sha, End(client));
            Step(ended, sha, Log(client)) == Step(s, sha, Apply(call))
  {
    if call.confirm && call.key != "" && call.plan in s.db.plans && call.plan in s.db.items {
      var marked := Step(Step(s, sha, Begin(client, call)), sha, Mark(client));
      BeginThenMark(s, sha, client, call);
      EndThenLog(marked, sha, client, marked.paused[client]);
    }
  }

  /** The run with each undivided apply replaced by its steps. */
  function CutUp(client: nat, ops: seq<Op>): seq<Op> {
    if ops == [] then []
    else
      var last := ops[|ops| - 1];
      CutUp(client, ops[..|ops| - 1]) + if last.Apply? then Steps(client, last.call) else [last]
  }

  lemma ReplayMore(sha: Sha, ops: seq<Op>, op: Op)
    ensures Replay(sha, ops + [op]) == Step(Replay(sha, ops), sha, op)
  {
    assert (ops + [op])[..|ops|] == ops;
  }

  lemma ReplaySteps(sha: Sha, ops: seq<Op>, client: nat, call: Call)
    requires client !in Replay(sha, ops).paused
    ensures Replay(sha, ops + Steps(client, call)) == Step(Replay(sha, ops), sha, Apply(call))
  {
    var begun := ops + [Begin(client, call)];
    var marked := begun + [Mark(client)];
    ReplayMore(sha, ops, Begin(client, call));
    ReplayMore(sha, begun, Mark(client));
    ReplayMore(sha, marked, End(client));
    ReplayMore(sha, marked + [End(client)], Log(client));
    assert ops + Steps(client, call) == marked + [End(client)] + [Log(client)];
    ApplyIsFourSteps(Replay(sha, ops), sha, client, call);
  }

  lemma UncutLeavesPaused(s: Sys, sha: Sha, op: Op)
    requires !Cut(op)
    ensures Step(s, sha, op).paused == s.paused
  {
  }

  lemma CutUpNext(sha: Sha, cut: seq<Op>, s: Sys, client: nat, op: Op)
    requires Replay(sha, cut) == s && s.paused == map[]
    ensures Replay(sha, cut + if op.Apply? then Steps(client, op.call) else [op]) == Step(s, sha, op)
  {
    if op.Apply? {
      ReplaySteps(sha, cut, client, op.call);
    } else {
      ReplayMore(sha, cut, op);
    }
  }

  /** A run on one connection is also a run of the steps: the two levels reach the same tables. */
  lemma {:induction false} OneConnectionIsCutUp(sha: Sha, ops: seq<Op>, client: nat)
    requires forall i | 0 <= i < |ops| :: !Cut(ops[i])
    ensures Replay(sha, CutUp(client, ops)) == Replay(sha, ops) && Replay(sha, ops).paused == map[]
  {
    if ops != [] {
      var before, last := ops[..|ops| - 1], ops[|ops| - 1];
      OneConnectionIsCutUp(sha, before, client);
      CutUpNext(sha, CutUp(client, before), Replay(sha, before), client, last);
      UncutLeavesPaused(Replay(sha, before), sha, last);
    }
  }

  // ---------- one connection ----------

  predicate Cut(op: Op) {
    op.Begin? || op.Mark? || op.End? || op.Log?
  }

  ghost predicate OneConnection(ops: seq<Op>) {
    forall i | 0 <= i < |ops| :: WellFormed(ops[i]) && !Cut(ops[i])
  }

  lemma SweepKeepsSound(db: Db, now: int)
    requires Sound(db)
    ensures Sound(db.(plans := Swept(db.plans, now)))
  {
  }

  lemma StoredDistinct(items: seq<Item>)
    ensures DistinctTargets(Stored(items))
  {
    FreshPrefixDistinct(CreateOrder(items), {});
    ReadOrderDistinct(FreshPrefix(CreateOrder(items), {}));
  }

  lemma NewPlanKeepsSound(db: Db, id: string, row: PlanRow, items: seq<Item>)
    requires Sound(db) && id !in db.plans && row.state.Pending? && DistinctTargets(items)
    ensures Sound(db.(plans := db.plans[id := row], items := db.items[id := items]))
  {
  }

  lemma CreateKeepsSound(db: Db, sha: Sha, op: Op)
    requires Sound(db) && op.Create?
    ensures Sound(Created(db, sha, op))
  {
    SweepKeepsSound(db, op.now);
    StoredDistinct(op.items);
    if op.id !in db.plans {
      NewPlanKeepsSound(db.(plans := Swept(db.plans, op.now)), op.id, NewRow(op, sha), Stored(op.items));
    }
  }

  lemma {:induction false} AlwaysSound(sha: Sha, ops: seq<Op>)
    requires OneConnection(ops)
    ensures Sound(Replay(sha, ops).db)
  {
    if ops != [] {
      var before, op := ops[..|ops| - 1], ops[|ops| - 1];
      AlwaysSound(sha, before);
      var db := Replay(sha, before).db;
      match op
      case Create(_, _, _, _, _, _) => CreateKeepsSound(db, sha, op);
      case Apply(call) => CallKeepsSound(db, sha, call);
      case Sweep(now) => SweepKeepsSound(db, now);
      case Edit(_, _) =>
      case Tamper(_, _) =>
    }
  }

  /** Between calls no plan is ever seen `applying`. */
  lemma ApplyingNeverVisible(sha: Sha, ops: seq<Op>, id: string)
    requires OneConnection(ops) && id in Replay(sha, ops).db.plans
    ensures !Replay(sha, ops).db.plans[id].state.Applying?
  {
    AlwaysSound(sha, ops);
    assert RowSound(Replay(sha, ops).db.plans[id]);
  }

  /** Step `i` is a call on plan `id` with this key that succeeds with these counts. */
  ghost predicate SucceedsAt(sha: Sha, ops: seq<Op>, i: nat, id: string, key: string, counts: Counts)
    requires i < |ops|
  {
    && ops[i].Apply? && ops[i].call.plan == id && ops[i].call.key == key
    && Perform(At(sha, ops, i).db, sha, ops[i].call).answer == Done(counts)
  }

  lemma SettledKeeps(db: Db, call: Call, items: seq<Item>, verdict: Verdict)
    ensures var after := Settled(db, call, items, verdict);
            && Framed(db, after, call.plan) && after.audit == db.audit
            && (after.memories != db.memories ==>
                  verdict.Proceed? && Destructive(items) != [] && Structured(Destructive(items))
                  && CommitPlan(db, call.plan, Destructive(items), call.key, call.now).Committed?)
  {
    FinishKeeps(db, call, items, verdict);
  }

  lemma EndKeeps(s: Sys, client: nat)
    ensures var after := Ended(s, client).db;
            after.items == s.db.items && after.plans.Keys == s.db.plans.Keys && after.audit == s.db.audit
  {
    if client in s.paused && s.paused[client].Pause? {
      SettledKeeps(s.db, s.paused[client].call, s.paused[client].items, s.paused[client].verdict);
    }
  }

  lemma AuditGrows(s: Sys, sha: Sha, op: Op, e: Event)
    requires e in s.db.audit
    ensures e in Step(s, sha, op).db.audit
  {
    match op
    case Apply(call) => CallKeeps(s.db, sha, call);
    case End(client) => EndKeeps(s, client);
    case _ =>
  }

  lemma AuditNext(sha: Sha, ops: seq<Op>, j: nat, e: Event)
    requires j < |ops| && e in At(sha, ops, j).db.audit
    ensures e in At(sha, ops, j + 1).db.audit
  {
    AtNext(sha, ops, j);
    AuditGrows(At(sha, ops, j), sha, ops[j], e);
  }

  lemma {:induction false} AuditKept(sha: Sha, ops: seq<Op>, i: nat, j: nat, e: Event)
    requires i <= j <= |ops| && e in At(sha, ops, i).db.audit
    ensures e in At(sha, ops, j).db.audit
    decreases j - i
  {
    if i < j {
      AuditNext(sha, ops, i, e);
      AuditKept(sha, ops, i + 1, j, e);
    }
  }

  lemma SuccessIsLogged(sha: Sha, ops: seq<Op>, i: nat, id: string, key: string, counts: Counts)
    requires i < |ops| && SucceedsAt(sha, ops, i, id, key, counts)
    ensures Event(id, key, true) in At(sha, ops, |ops|).db.audit
  {
    AtNext(sha, ops, i);
    CallKeeps(At(sha, ops, i).db, sha, ops[i].call);
    AuditKept(sha, ops, i + 1, |ops|, Event(id, key, true));
  }

  /** Over any run on one connection, at most one key ever succeeds for a plan, destructive or not. */
  lemma OneKeyEverSucceeds(sha: Sha, ops: seq<Op>, i: nat, j: nat, id: string, key: string, other: string,
                           counts: Counts, otherCounts: Counts)
    requires OneConnection(ops) && i < |ops| && j < |ops|
    requires SucceedsAt(sha, ops, i, id, key, counts) && SucceedsAt(sha, ops, j, id, other, otherCounts)
    ensures key == other
  {
    SuccessIsLogged(sha, ops, i, id, key, counts);
    SuccessIsLogged(sha, ops, j, id, other, otherCounts);
    assert ops[..|ops|] == ops;
    AlwaysSound(sha, ops);
    assert KeysSound(At(sha, ops, |ops|).db);
  }

  /** A plan that has left `pending` never changes again. */
  lemma SettledStays(s: Sys, sha: Sha, op: Op, id: string)
    requires Sound(s.db) && WellFormed(op) && !Cut(op)
    requires id in s.db.plans && !s.db.plans[id].state.Pending?
    ensures id in Step(s, sha, op).db.plans && Step(s, sha, op).db.plans[id] == s.db.plans[id]
  {
    match op
    case Apply(call) =>
      CallKeeps(s.db, sha, call);
      if call.plan == id {
        CallKeepsSettled(s.db, sha, call);
      }
    case _ =>
  }

  ghost predicate SettledAs(s: Sys, id: string, row: PlanRow) {
    id in s.db.plans && s.db.plans[id] == row && !row.state.Pending?
  }

  lemma SettledNext(sha: Sha, ops: seq<Op>, j: nat, id: string, row: PlanRow)
    requires OneConnection(ops) && j < |ops| && SettledAs(At(sha, ops, j), id, row)
    ensures SettledAs(At(sha, ops, j + 1), id, row)
  {
    AtNext(sha, ops, j);
    AlwaysSound(sha, ops[..j]);
    SettledStays(At(sha, ops, j), sha, ops[j], id);
  }

  lemma {:induction false} SettledForever(sha: Sha, ops: seq<Op>, i: nat, j: nat, id: string, row: PlanRow)
    requires OneConnection(ops) && i <= j <= |ops| && SettledAs(At(sha, ops, i), id, row)
    ensures SettledAs(At(sha, ops, j), id, row)
    decreases j - i
  {
    if i < j {
      SettledNext(sha, ops, i, id, row);
      SettledForever(sha, ops, i + 1, j, id, row);
    }
  }

  /** After a destructive plan has succeeded its row is completed and carries the key and the counts. */
  lemma SuccessCompletes(db: Db, sha: Sha, call: Call)
    requires Sound(db) && call.plan in db.plans && Perform(db, sha, call).answer.Done?
    requires Destructive(db.items[call.plan]) != []
    ensures var row := Perform(db, sha, call).db.plans[call.plan];
            row.state.Completed? && row.keyUsed == Some(call.key)
            && row.result == Some(Perform(db, sha, call).answer.counts)
  {
    if db.plans[call.plan].state.Pending? {
      SuccessOnPending(db, sha, call);
    } else {
      CallKeepsSettled(db, sha, call);
    }
  }

  lemma ReplayOnCompleted(db: Db, sha: Sha, call: Call)
    requires Sound(db) && call.plan in db.plans && db.plans[call.plan].state.Completed?
    requires call.confirm && call.key != "" && call.now < db.plans[call.plan].expiresAt
    requires db.plans[call.plan].keyUsed == Some(call.key)
    ensures Perform(db, sha, call).answer == Done(db.plans[call.plan].result.value)
    ensures Perform(db, sha, call).db.plans == db.plans && Perform(db, sha, call).db.memories == db.memories
  {
    SettledSucceedsIff(db, sha, call);
    CallKeepsSettled(db, sha, call);
  }

  /** Plan `id` has at least one item that is not `retain`. */
  ghost predicate HasDestructive(db: Db, id: string) {
    id in db.items && Destructive(db.items[id]) != []
  }

  ghost predicate CompletedWith(row: PlanRow, key: string, counts: Counts) {
    row.state.Completed? && row.keyUsed == Some(key) && row.result == Some(counts)
  }

  lemma SuccessSettles(sha: Sha, ops: seq<Op>, i: nat, id: string, key: string, counts: Counts) returns (row: PlanRow)
    requires OneConnection(ops) && i < |ops| && SucceedsAt(sha, ops, i, id, key, counts)
    requires HasDestructive(At(sha, ops, i).db, id)
    ensures SettledAs(At(sha, ops, i + 1), id, row) && CompletedWith(row, key, counts)
  {
    var before := At(sha, ops, i).db;
    AlwaysSound(sha, ops[..i]);
    SuccessCompletes(before, sha, ops[i].call);
    row := Perform(before, sha, ops[i].call).db.plans[id];
    AtNext(sha, ops, i);
  }

  ghost predicate ChangesNothing(before: Db, after: Db) {
    after.memories == before.memories && after.plans == before.plans && after.items == before.items
  }

  /**
    Once a destructive plan has succeeded, every later call with its key
    before the plan's expiry returns the same counts and changes no entry and
    no plan, whatever happened in between.
   */
  lemma ReplayReturnsTheSame(sha: Sha, ops: seq<Op>, i: nat, j: nat, id: string, key: string, counts: Counts)
    requires OneConnection(ops) && i < j < |ops| && SucceedsAt(sha, ops, i, id, key, counts)
    requires HasDestructive(At(sha, ops, i).db, id)
    requires ops[j].Apply? && ops[j].call.plan == id && ops[j].call.key == key && ops[j].call.confirm && key != ""
    requires id in At(sha, ops, j).db.plans ==> ops[j].call.now < At(sha, ops, j).db.plans[id].expiresAt
    ensures SucceedsAt(sha, ops, j, id, key, counts)
    ensures ChangesNothing(At(sha, ops, j).db, At(sha, ops, j + 1).db)
  {
    var row := SuccessSettles(sha, ops, i, id, key, counts);
    SettledForever(sha, ops, i + 1, j, id, row);
    AlwaysSound(sha, ops[..j]);
    AtNext(sha, ops, j);
    ReplayOnCompleted(At(sha, ops, j).db, sha, ops[j].call);
    CallKeeps(At(sha, ops, j).db, sha, ops[j].call);
  }

  /** A rejected or expired plan never succeeds again, with any key. */
  lemma RejectedNeverSucceeds(sha: Sha, ops: seq<Op>, i: nat, j: nat, id: string, row: PlanRow, key: string,
                              counts: Counts)
    requires OneConnection(ops) && i <= j < |ops| && SettledAs(At(sha, ops, i), id, row)
    requires row.state.Rejected? || row.state.Expired?
    ensures !SucceedsAt(sha, ops, j, id, key, counts)
  {
    SettledForever(sha, ops, i, j, id, row);
    AlwaysSound(sha, ops[..j]);
    if ops[j].Apply? && ops[j].call.plan == id {
      SettledSucceedsIff(At(sha, ops, j).db, sha, ops[j].call);
    }
  }

  // ---------- plans without destructive items ----------

  /** Such a plan's row never moves when it succeeds: it stays pending and only the audit log keeps the key. */
  lemma RetainSuccessStaysPending(db: Db, sha: Sha, call: Call)
    requires Sound(db) && call.plan in db.plans && db.plans[call.plan].state.Pending?
    requires Destructive(db.items[call.plan]) == [] && Perform(db, sha, call).answer.Done?
    ensures Perform(db, sha, call).db == WithEvent(db, call.plan, call.key, true)
  {
    ProceedMeans(db, sha, call);
  }

  /**
    So the same key succeeds again exactly while every listed entry is visible
    to the caller at its recorded revision.
   */
  lemma RetainReplayIff(db: Db, sha: Sha, call: Call)
    requires Sound(db) && call.plan in db.plans && db.plans[call.plan].state.Pending?
    requires Destructive(db.items[call.plan]) == [] && Event(call.plan, call.key, true) in db.audit
    requires sha(Payloads(db.items[call.plan])) == db.plans[call.plan].hash
    requires call.confirm && call.key != "" && call.now < db.plans[call.plan].expiresAt
    ensures Perform(db, sha, call).answer.Done? <==> Undrifted(db, call.plan, call.clearance)
  {
    SucceedsIff(db, sha, call);
  }

  /** A call that finds a listed entry moved, or hidden from this caller, rejects the plan for every key. */
  lemma DriftRejects(db: Db, sha: Sha, call: Call)
    requires Sound(db) && call.plan in db.plans && db.plans[call.plan].state.Pending?
    requires sha(Payloads(db.items[call.plan])) == db.plans[call.plan].hash
    requires call.confirm && call.key != "" && call.now < db.plans[call.plan].expiresAt
    requires !Undrifted(db, call.plan, call.clearance)
    ensures Perform(db, sha, call).answer == Refused(StaleRevision)
    ensures Perform(db, sha, call).db.plans[call.plan] == db.plans[call.plan].(state := Rejected)
  {
    var items, current := db.items[call.plan], Snapshot(db, call.plan, call.clearance);
    assert !Unplanned(items, current);
    assert Drifted(items, current);
  }

  // ---------- one commit ----------

  /** Step `op` commits the transaction of plan `id`. */
  ghost predicate Commits(s: Sys, sha: Sha, op: Op, id: string) {
    match op
    case Apply(call) =>
      call.plan == id && Transacts(s.db, sha, call)
      && CommitPlan(s.db, id, Destructive(s.db.items[id]), call.key, call.now).Committed?
    case End(client) =>
      && client in s.paused && s.paused[client].Pause?
      && s.paused[client].call.plan == id && s.paused[client].verdict.Proceed?
      && Destructive(s.paused[client].items) != [] && Structured(Destructive(s.paused[client].items))
      && CommitPlan(s.db, id, Destructive(s.paused[client].items),
                    s.paused[client].call.key, s.paused[client].call.now).Committed?
    case _ => false
  }

  ghost function CommitCount(sha: Sha, ops: seq<Op>, id: string): nat {
    if ops == [] then 0
    else CommitCount(sha, ops[..|ops| - 1], id)
         + if Commits(Replay(sha, ops[..|ops| - 1]), sha, ops[|ops| - 1], id) then 1 else 0
  }

  /** No statement puts a plan back to `pending`. */
  lemma FinishNotPending(db: Db, call: Call, items: seq<Item>, verdict: Verdict)
    requires call.plan in db.plans && !db.plans[call.plan].state.Pending?
    ensures call.plan in Finish(db, call, items, verdict).db.plans
    ensures !Finish(db, call, items, verdict).db.plans[call.plan].state.Pending?
  {
  }

  lemma PendingOnlyFromPending(s: Sys, sha: Sha, op: Op, id: string)
    requires id in s.db.plans && !s.db.plans[id].state.Pending?
    ensures id in Step(s, sha, op).db.plans && !Step(s, sha, op).db.plans[id].state.Pending?
  {
    match op
    case Apply(call) =>
      CallKeeps(s.db, sha, call);
      if call.plan == id && id in s.db.items {
        FinishNotPending(AfterValidate(s.db, sha, id, call.now), call, s.db.items[id],
                         Validate(s.db, sha, id, Snapshot(s.db, id, call.clearance), call.key, call.now));
      }
    case End(client) =>
      if client in s.paused && s.paused[client].Pause? {
        var p := s.paused[client];
        SettledKeeps(s.db, p.call, p.items, p.verdict);
        if p.call.plan == id {
          FinishNotPending(s.db, p.call, p.items, p.verdict);
        }
      }
    case _ =>
  }

  lemma CommitLeavesPending(s: Sys, sha: Sha, op: Op, id: string)
    requires Commits(s, sha, op, id)
    ensures id in s.db.plans && s.db.plans[id].state.Pending?
    ensures id in Step(s, sha, op).db.plans && Step(s, sha, op).db.plans[id].state.Completed?
  {
    if op.Apply? {
      ProceedMeans(s.db, sha, op.call);
    }
  }

  /** However any number of connections interleave, a plan's merges are committed at most once. */
  lemma {:induction false} CommittedAtMostOnce(sha: Sha, ops: seq<Op>, id: string)
    ensures CommitCount(sha, ops, id) <= 1
    ensures CommitCount(sha, ops, id) == 1 ==>
              id in Replay(sha, ops).db.plans && !Replay(sha, ops).db.plans[id].state.Pending?
  {
    if ops != [] {
      var before, op := ops[..|ops| - 1], ops[|ops| - 1];
      CommittedAtMostOnce(sha, before, id);
      if Commits(Replay(sha, before), sha, op, id) {
        CommitLeavesPending(Replay(sha, before), sha, op, id);
      } else if CommitCount(sha, before, id) == 1 {
        PendingOnlyFromPending(Replay(sha, before), sha, op, id);
      }
    }
  }

  /** Entries change only by a commit or an edit. */
  lemma EntriesMoveOnlyByCommit(s: Sys, sha: Sha, op: Op)
    requires Step(s, sha, op).db.memories != s.db.memories
    ensures op.Edit? || (exists id :: Commits(s, sha, op, id))
  {
    match op
    case Apply(call) =>
      CallKeeps(s.db, sha, call);
      FailedTransactionLeavesOnlyAudit(s.db, sha, call);
      assert Commits(s, sha, op, call.plan);
    case End(client) =>
      var p := s.paused[client];
      SettledKeeps(s.db, p.call, p.items, p.verdict);
      assert Commits(s, sha, op, p.call.plan);
    case _ =>
  }
}
