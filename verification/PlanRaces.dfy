/**
  What applies on several connections can do to each other: each one reads,
  then writes to plan and entries, then logs, and anything can come between.
 */
module MaintenanceRaces {
  import opened Common
  import opened Sorting
  import opened TextOrder
  import opened PlanItems
  import opened MaintenancePlans
  import opened MaintenanceRuns

  // ---------- what every interleaving keeps ----------

  /** No statement leaves `applying` behind, and a key is stored only on leaving `pending`. */
  ghost predicate RowKept(row: PlanRow) {
    && !row.state.Applying?
    && (row.keyUsed.Some? ==> !row.state.Pending?)
    && (row.state.Completed? ==> row.keyUsed.Some? && row.result.Some?)
  }

  ghost predicate RowsKept(db: Db) {
    forall id | id in db.plans :: RowKept(db.plans[id])
  }

  /** The plan's row stores this key and these counts. */
  ghost predicate Carries(db: Db, id: string, key: string, counts: Counts) {
    id in db.plans && db.plans[id].keyUsed == Some(key) && db.plans[id].result == Some(counts)
  }

  /** A call that is about to replay replays what its plan's row stores. */
  ghost predicate PauseKept(db: Db, p: Pause) {
    !p.Unlogged? && p.verdict.ReplayOf? ==> Carries(db, p.call.plan, p.call.key, p.verdict.counts)
  }

  ghost predicate Kept(s: Sys) {
    RowsKept(s.db) && forall c | c in s.paused :: PauseKept(s.db, s.paused[c])
  }

  /** One row: once it stores a key and counts it keeps both. */
  ghost predicate RowMoves(before: PlanRow, after: PlanRow) {
    RowKept(after) && (before.keyUsed.Some? ==> after.keyUsed == before.keyUsed && after.result == before.result)
  }

  ghost predicate Moves(before: Db, after: Db) {
    forall id | id in before.plans :: id in after.plans && RowMoves(before.plans[id], after.plans[id])
  }

  lemma FinishMovesRow(db: Db, call: Call, items: seq<Item>, verdict: Verdict)
    requires call.plan in db.plans && RowKept(db.plans[call.plan])
    ensures RowMoves(db.plans[call.plan], Finish(db, call, items, verdict).db.plans[call.plan])
  {
  }

  lemma FinishMoves(db: Db, call: Call, items: seq<Item>, verdict: Verdict)
    requires RowsKept(db)
    ensures Moves(db, Finish(db, call, items, verdict).db) && RowsKept(Finish(db, call, items, verdict).db)
  {
    FinishKeeps(db, call, items, verdict);
    if call.plan in db.plans {
      FinishMovesRow(db, call, items, verdict);
    }
    FramedMoves(db, Finish(db, call, items, verdict).db, call.plan);
  }

  lemma FramedMoves(db: Db, after: Db, id: string)
    requires RowsKept(db) && Framed(db, after, id)
    requires id in db.plans ==> RowMoves(db.plans[id], after.plans[id])
    ensures Moves(db, after) && RowsKept(after)
  {
  }

  lemma AfterValidateMoves(db: Db, sha: Sha, id: string, now: int)
    requires RowsKept(db)
    ensures Moves(db, AfterValidate(db, sha, id, now)) && RowsKept(AfterValidate(db, sha, id, now))
  {
  }

  lemma PerformMoves(db: Db, sha: Sha, call: Call)
    requires RowsKept(db)
    ensures Moves(db, Perform(db, sha, call).db) && RowsKept(Perform(db, sha, call).db)
  {
    if WellMade(db, call) {
      var checked := AfterValidate(db, sha, call.plan, call.now);
      AfterValidateMoves(db, sha, call.plan, call.now);
      FinishMoves(checked, call, db.items[call.plan], VerdictOf(db, sha, call));
    }
  }

  lemma MarkMoves(s: Sys, client: nat)
    requires RowsKept(s.db)
    ensures Moves(s.db, Marked(s, client).db) && RowsKept(Marked(s, client).db)
  {
  }

  lemma EndMoves(s: Sys, client: nat)
    requires RowsKept(s.db)
    ensures Moves(s.db, Ended(s, client).db) && RowsKept(Ended(s, client).db)
  {
    if client in s.paused && s.paused[client].Pause? {
      FinishMoves(s.db, s.paused[client].call, s.paused[client].items, s.paused[client].verdict);
    }
  }

  lemma SweepMoves(db: Db, now: int)
    requires RowsKept(db)
    ensures Moves(db, db.(plans := Swept(db.plans, now))) && RowsKept(db.(plans := Swept(db.plans, now)))
  {
  }

  lemma CreateMoves(db: Db, sha: Sha, op: Op)
    requires RowsKept(db) && op.Create?
    ensures Moves(db, Created(db, sha, op)) && RowsKept(Created(db, sha, op))
  {
    SweepMoves(db, op.now);
    assert RowKept(NewRow(op, sha));
  }

  lemma StepMoves(s: Sys, sha: Sha, op: Op)
    requires RowsKept(s.db)
    ensures Moves(s.db, Step(s, sha, op).db) && RowsKept(Step(s, sha, op).db)
  {
    match op
    case Create(_, _, _, _, _, _) => CreateMoves(s.db, sha, op);
    case Apply(call) => PerformMoves(s.db, sha, call);
    case Mark(client) => MarkMoves(s, client);
    case End(client) => EndMoves(s, client);
    case Sweep(now) => SweepMoves(s.db, now);
    case _ =>
  }

  /** The verdict a call meets when it begins. */
  function VerdictOf(db: Db, sha: Sha, call: Call): Verdict
    requires call.plan in db.plans && call.plan in db.items
  {
    Validate(db, sha, call.plan, Snapshot(db, call.plan, call.clearance), call.key, call.now)
  }

  ghost predicate WellMade(db: Db, call: Call) {
    call.confirm && call.key != "" && call.plan in db.plans && call.plan in db.items
  }

  /** What a call carries once it has begun. */
  ghost predicate BegunAs(p: Pause, db: Db, sha: Sha, call: Call)
    requires WellMade(db, call)
  {
    var mark := MarkOf(db, sha, call.plan, call.now);
    p == if mark.Some? then Marking(call, db.items[call.plan], VerdictOf(db, sha, call), mark.value)
         else Pause(call, db.items[call.plan], VerdictOf(db, sha, call))
  }

  lemma BeganPause(s: Sys, sha: Sha, client: nat, call: Call)
    requires WellMade(s.db, call)
    ensures var t := Step(s, sha, Begin(client, call));
            && client in t.paused && BegunAs(t.paused[client], s.db, sha, call)
            && t == s.(paused := s.paused[client := t.paused[client]])
    ensures VerdictOf(s.db, sha, call).ReplayOf? ==>
              Carries(s.db, call.plan, call.key, VerdictOf(s.db, sha, call).counts)
  {
  }

  predicate SameCall(p: Pause, q: Pause) {
    p == q || (!p.Unlogged? && !q.Unlogged? && p.call == q.call && p.items == q.items && p.verdict == q.verdict)
  }

  /** Where a call that is under way after a step comes from: it has just begun, or was under way before. */
  ghost predicate CameFrom(s: Sys, sha: Sha, op: Op, c: nat, p: Pause) {
    || p.Unlogged?
    || (op.Begin? && c == op.client && WellMade(s.db, op.call) && BegunAs(p, s.db, sha, op.call))
    || (c in s.paused && SameCall(p, s.paused[c]))
  }

  lemma PausesCameFrom(s: Sys, sha: Sha, op: Op, c: nat)
    requires c in Step(s, sha, op).paused
    ensures CameFrom(s, sha, op, c, Step(s, sha, op).paused[c])
  {
    if op.Begin? && c == op.client && WellMade(s.db, op.call) {
      BeganPause(s, sha, c, op.call);
    }
  }

  lemma StepKeeps(s: Sys, sha: Sha, op: Op)
    requires Kept(s)
    ensures Kept(Step(s, sha, op))
  {
    var t := Step(s, sha, op);
    StepMoves(s, sha, op);
    forall c | c in t.paused
      ensures PauseKept(t.db, t.paused[c])
    {
      PausesCameFrom(s, sha, op, c);
      if op.Begin? && WellMade(s.db, op.call) {
        BeganPause(s, sha, op.client, op.call);
      }
      assert c in s.paused ==> PauseKept(s.db, s.paused[c]);
    }
  }

  /** Over every run, whatever is interleaved, edited or tampered with. */
  lemma {:induction false} AlwaysKept(sha: Sha, ops: seq<Op>)
    ensures Kept(Replay(sha, ops))
  {
    if ops != [] {
      AlwaysKept(sha, ops[..|ops| - 1]);
      StepKeeps(Replay(sha, ops[..|ops| - 1]), sha, ops[|ops| - 1]);
    }
  }

  // ---------- one key for each plan ----------

  /** What a step answers, and whether it found no destructive item to apply. */
  datatype Conclusion = Nothing | Answered(call: Call, answer: Answer, vacuous: bool)

  ghost function ConclusionOf(s: Sys, sha: Sha, op: Op): Conclusion {
    match op
    case Apply(call) =>
      Answered(call, Perform(s.db, sha, call).answer,
               WellMade(s.db, call) && VerdictOf(s.db, sha, call).Proceed? && Destructive(s.db.items[call.plan]) == [])
    case End(client) =>
      if client !in s.paused || !s.paused[client].Pause? then Nothing
      else
        var p := s.paused[client];
        Answered(p.call, Finish(s.db, p.call, p.items, p.verdict).answer,
                 p.verdict.Proceed? && Destructive(p.items) == [])
    case _ => Nothing
  }

  ghost predicate Succeeds(c: Conclusion, id: string, key: string, counts: Counts) {
    c.Answered? && c.call.plan == id && c.call.key == key && c.answer == Done(counts)
  }

  lemma FinishCarries(db: Db, call: Call, items: seq<Item>, verdict: Verdict)
    requires RowsKept(db) && PauseKept(db, Pause(call, items, verdict))
    requires Finish(db, call, items, verdict).answer.Done? && !(verdict.Proceed? && Destructive(items) == [])
    ensures var o := Finish(db, call, items, verdict);
            Carries(o.db, call.plan, call.key, o.answer.counts)
  {
  }

  lemma SuccessCarries(s: Sys, sha: Sha, op: Op, id: string, key: string, counts: Counts)
    requires Kept(s) && Succeeds(ConclusionOf(s, sha, op), id, key, counts) && !ConclusionOf(s, sha, op).vacuous
    ensures Carries(Step(s, sha, op).db, id, key, counts)
  {
    if op.Apply? {
      var call := op.call;
      AfterValidateMoves(s.db, sha, call.plan, call.now);
      BeganPause(s, sha, 0, call);
      FinishCarries(AfterValidate(s.db, sha, call.plan, call.now), call, s.db.items[call.plan],
                    VerdictOf(s.db, sha, call));
    } else {
      var p := s.paused[op.client];
      assert PauseKept(s.db, p);
      FinishCarries(s.db, p.call, p.items, p.verdict);
    }
  }

  lemma {:induction false} CarriesOn(sha: Sha, ops: seq<Op>, i: nat, j: nat, id: string, key: string, counts: Counts)
    requires i <= j <= |ops| && Carries(At(sha, ops, i).db, id, key, counts)
    ensures Carries(At(sha, ops, j).db, id, key, counts)
    decreases j - i
  {
    if i < j {
      AlwaysKept(sha, ops[..i]);
      AtNext(sha, ops, i);
      StepMoves(At(sha, ops, i), sha, ops[i]);
      CarriesOn(sha, ops, i + 1, j, id, key, counts);
    }
  }

  lemma CarriedToTheEnd(sha: Sha, ops: seq<Op>, i: nat, id: string, key: string, counts: Counts)
    requires i < |ops| && Succeeds(ConclusionOf(At(sha, ops, i), sha, ops[i]), id, key, counts)
    requires !ConclusionOf(At(sha, ops, i), sha, ops[i]).vacuous
    ensures Carries(At(sha, ops, |ops|).db, id, key, counts)
  {
    AlwaysKept(sha, ops[..i]);
    SuccessCarries(At(sha, ops, i), sha, ops[i], id, key, counts);
    AtNext(sha, ops, i);
    CarriesOn(sha, ops, i + 1, |ops|, id, key, counts);
  }

  /**
    Under any interleaving, two successes for one plan that each committed or
    replayed a commit have one key and the same counts.
   */
  lemma OneKeyCommits(sha: Sha, ops: seq<Op>, i: nat, j: nat, id: string, key: string, other: string,
                      counts: Counts, otherCounts: Counts)
    requires i < |ops| && j < |ops|
    requires Succeeds(ConclusionOf(At(sha, ops, i), sha, ops[i]), id, key, counts)
    requires Succeeds(ConclusionOf(At(sha, ops, j), sha, ops[j]), id, other, otherCounts)
    requires !ConclusionOf(At(sha, ops, i), sha, ops[i]).vacuous && !ConclusionOf(At(sha, ops, j), sha, ops[j]).vacuous
    ensures key == other && counts == otherCounts
  {
    CarriedToTheEnd(sha, ops, i, id, key, counts);
    CarriedToTheEnd(sha, ops, j, id, other, otherCounts);
  }

  // ---------- plans whose rows nobody tampers with ----------

  /** The run creates plan `id` with these items only, and leaves its item rows alone. */
  ghost predicate CreatedOnlyWith(ops: seq<Op>, id: string, items: seq<Item>) {
    forall i | 0 <= i < |ops| ::
      (ops[i].Create? && ops[i].id == id ==> ops[i].items == items) && (ops[i].Tamper? ==> ops[i].id != id)
  }

  /** The hash of the rows as read back is the stored hash. */
  predicate Rehashes(sha: Sha, items: seq<Item>) {
    sha(Payloads(Stored(items))) == sha(Payloads(CreateOrder(items)))
  }

  /** Revisions that are numbers, of ids whose revision can be read back. */
  ghost predicate Legible(items: seq<Item>) {
    forall x | x in items :: x.target != PROTO && x.expected.Some?
  }

  ghost predicate Applicable(sha: Sha, items: seq<Item>) {
    Rehashes(sha, items) && Legible(Stored(items))
  }

  lemma StoredNumbered(items: seq<Item>)
    ensures forall x | x in Stored(items) :: x.expected.Some?
  {
    FreshPrefixDistinct(CreateOrder(items), {});
    SameMembers(Stored(items), FreshPrefix(CreateOrder(items), {}));
  }

  ghost predicate RowAsCreated(db: Db, sha: Sha, id: string, items: seq<Item>) {
    && (id in db.items <==> id in db.plans)
    && (id in db.plans ==> db.items[id] == Stored(items) && db.plans[id].hash == sha(Payloads(CreateOrder(items))))
  }

  ghost predicate PauseAsCreated(p: Pause, sha: Sha, id: string, items: seq<Item>) {
    !p.Unlogged? && p.call.plan == id ==>
        p.items == Stored(items) && (p.verdict.Proceed? ==> Applicable(sha, items))
  }

  ghost predicate AsCreated(s: Sys, sha: Sha, id: string, items: seq<Item>) {
    RowAsCreated(s.db, sha, id, items) && forall c | c in s.paused :: PauseAsCreated(s.paused[c], sha, id, items)
  }

  lemma SameHash(db: Db, after: Db, id: string)
    requires after.items == db.items && after.plans.Keys == db.plans.Keys
    requires id in db.plans ==> after.plans[id].hash == db.plans[id].hash
    ensures forall sha, items :: RowAsCreated(db, sha, id, items) ==> RowAsCreated(after, sha, id, items)
  {
  }

  lemma FinishKeepsHash(db: Db, call: Call, items: seq<Item>, verdict: Verdict, id: string)
    requires id in db.plans
    ensures id in Finish(db, call, items, verdict).db.plans
    ensures Finish(db, call, items, verdict).db.plans[id].hash == db.plans[id].hash
  {
    FinishKeeps(db, call, items, verdict);
  }

  lemma AfterValidateKeepsHash(db: Db, sha: Sha, plan: string, now: int, id: string)
    requires id in db.plans
    ensures id in AfterValidate(db, sha, plan, now).plans
    ensures AfterValidate(db, sha, plan, now).plans[id].hash == db.plans[id].hash
  {
  }

  lemma PerformKeepsRow(db: Db, sha: Sha, call: Call, id: string, items: seq<Item>)
    requires RowAsCreated(db, sha, id, items)
    ensures RowAsCreated(Perform(db, sha, call).db, sha, id, items)
  {
    CallKeeps(db, sha, call);
    if WellMade(db, call) && id in db.plans {
      AfterValidateKeepsHash(db, sha, call.plan, call.now, id);
      FinishKeepsHash(AfterValidate(db, sha, call.plan, call.now), call, db.items[call.plan], VerdictOf(db, sha, call),
                      id);
    }
    SameHash(db, Perform(db, sha, call).db, id);
  }

  lemma MarkKeepsRow(s: Sys, sha: Sha, client: nat, id: string, items: seq<Item>)
    requires RowAsCreated(s.db, sha, id, items)
    ensures RowAsCreated(Marked(s, client).db, sha, id, items)
  {
    SameHash(s.db, Marked(s, client).db, id);
  }

  lemma EndKeepsRow(s: Sys, sha: Sha, client: nat, id: string, items: seq<Item>)
    requires RowAsCreated(s.db, sha, id, items)
    ensures RowAsCreated(Ended(s, client).db, sha, id, items)
  {
    EndKeeps(s, client);
    if client in s.paused && s.paused[client].Pause? && id in s.db.plans {
      FinishKeepsHash(s.db, s.paused[client].call, s.paused[client].items, s.paused[client].verdict, id);
    }
    SameHash(s.db, Ended(s, client).db, id);
  }

  lemma CreateKeepsRow(db: Db, sha: Sha, op: Op, id: string, items: seq<Item>)
    requires RowAsCreated(db, sha, id, items) && op.Create? && (op.id == id ==> op.items == items)
    ensures RowAsCreated(Created(db, sha, op), sha, id, items)
  {
  }

  lemma StepKeepsRow(s: Sys, sha: Sha, op: Op, id: string, items: seq<Item>)
    requires RowAsCreated(s.db, sha, id, items) && CreatedOnlyWith([op], id, items)
    ensures RowAsCreated(Step(s, sha, op).db, sha, id, items)
  {
    assert op == [op][0];
    match op
    case Create(_, _, _, _, _, _) => CreateKeepsRow(s.db, sha, op, id, items);
    case Apply(call) => PerformKeepsRow(s.db, sha, call, id, items);
    case Mark(client) => MarkKeepsRow(s, sha, client, id, items);
    case End(client) => EndKeepsRow(s, sha, client, id, items);
    case _ =>
  }

  lemma ProceedRehashes(db: Db, sha: Sha, call: Call, items: seq<Item>)
    requires WellMade(db, call) && VerdictOf(db, sha, call).Proceed? && RowAsCreated(db, sha, call.plan, items)
    ensures Applicable(sha, items)
  {
    ProceedMeans(db, sha, call);
    StoredNumbered(items);
    forall x | x in Stored(items)
      ensures x.target != PROTO && x.expected.Some?
    {
      assert SeenRevision(db.memories, x.target, call.clearance) == x.expected;
    }
  }

  lemma BegunAsCreated(p: Pause, db: Db, sha: Sha, call: Call, id: string, items: seq<Item>)
    requires WellMade(db, call) && BegunAs(p, db, sha, call) && RowAsCreated(db, sha, id, items)
    ensures PauseAsCreated(p, sha, id, items)
  {
    if call.plan == id && VerdictOf(db, sha, call).Proceed? {
      ProceedRehashes(db, sha, call, items);
    }
  }

  lemma StepKeepsCreated(s: Sys, sha: Sha, op: Op, id: string, items: seq<Item>)
    requires AsCreated(s, sha, id, items) && CreatedOnlyWith([op], id, items)
    ensures AsCreated(Step(s, sha, op), sha, id, items)
  {
    var t := Step(s, sha, op);
    StepKeepsRow(s, sha, op, id, items);
    forall c | c in t.paused
      ensures PauseAsCreated(t.paused[c], sha, id, items)
    {
      PausesCameFrom(s, sha, op, c);
      if op.Begin? && c == op.client && WellMade(s.db, op.call) && BegunAs(t.paused[c], s.db, sha, op.call) {
        BegunAsCreated(t.paused[c], s.db, sha, op.call, id, items);
      } else {
        assert c in s.paused ==> PauseAsCreated(s.paused[c], sha, id, items);
      }
    }
  }

  lemma {:induction false} AlwaysAsCreated(sha: Sha, ops: seq<Op>, id: string, items: seq<Item>)
    requires CreatedOnlyWith(ops, id, items)
    ensures AsCreated(Replay(sha, ops), sha, id, items)
  {
    if ops != [] {
      var before, op := ops[..|ops| - 1], ops[|ops| - 1];
      AlwaysAsCreated(sha, before, id, items);
      StepKeepsCreated(Replay(sha, before), sha, op, id, items);
    }
  }

  lemma VacuousMeans(s: Sys, sha: Sha, op: Op, id: string, items: seq<Item>)
    requires AsCreated(s, sha, id, items)
    requires ConclusionOf(s, sha, op).Answered? && ConclusionOf(s, sha, op).vacuous
        && ConclusionOf(s, sha, op).call.plan == id
    ensures Destructive(Stored(items)) == [] && Applicable(sha, items)
  {
    if op.Apply? {
      ProceedRehashes(s.db, sha, op.call, items);
    } else {
      assert PauseAsCreated(s.paused[op.client], sha, id, items);
    }
  }

  // ---------- when two keys can succeed ----------

  /** In this run, which leaves the plan's items alone, two calls succeed for the plan with different keys. */
  ghost predicate TwoKeys(sha: Sha, ops: seq<Op>, id: string, items: seq<Item>, i: nat, j: nat) {
    && CreatedOnlyWith(ops, id, items) && i < |ops| && j < |ops|
    && var c, d := ConclusionOf(At(sha, ops, i), sha, ops[i]), ConclusionOf(At(sha, ops, j), sha, ops[j]);
    && c.Answered? && d.Answered? && c.call.plan == id && d.call.plan == id
    && c.answer.Done? && d.answer.Done? && c.call.key != d.call.key
  }

  ghost predicate TwoKeysCanSucceed(sha: Sha, items: seq<Item>) {
    exists ops, id, i, j :: TwoKeys(sha, ops, id, items, i, j)
  }

  lemma TwoKeysNeedRetain(sha: Sha, ops: seq<Op>, id: string, items: seq<Item>, i: nat, j: nat)
    requires TwoKeys(sha, ops, id, items, i, j)
    ensures Destructive(Stored(items)) == [] && Applicable(sha, items)
  {
    var c, d := ConclusionOf(At(sha, ops, i), sha, ops[i]), ConclusionOf(At(sha, ops, j), sha, ops[j]);
    AlwaysAsCreated(sha, ops[..i], id, items);
    AlwaysAsCreated(sha, ops[..j], id, items);
    if c.vacuous {
      VacuousMeans(At(sha, ops, i), sha, ops[i], id, items);
    } else if d.vacuous {
      VacuousMeans(At(sha, ops, j), sha, ops[j], id, items);
    } else {
      OneKeyCommits(sha, ops, i, j, id, c.call.key, d.call.key, c.answer.counts, d.answer.counts);
    }
  }

  /** Writes that put every listed entry at its listed revision. */
  function Seeds(items: seq<Item>): seq<Op> {
    if items == [] then []
    else
      var x := items[|items| - 1];
      Seeds(items[..|items| - 1]) + [Edit(x.target, Some(SeedOf(x)))]
  }

  ghost predicate Seeded(memories: Memories, items: seq<Item>) {
    forall i | 0 <= i < |items| ::
      items[i].target in memories && memories[items[i].target] == SeedOf(items[i])
  }

  function SeedOf(x: Item): Memory {
    Memory(if x.expected.Some? then x.expected.value else 0, Active, None, Global, None, 1)
  }

  /** Only entries so far, and these are as the items list them. */
  ghost predicate OnlySeeded(s: Sys, items: seq<Item>) {
    s == EMPTY.(db := EMPTY.db.(memories := s.db.memories)) && Seeded(s.db.memories, items)
  }

  lemma SeedNext(s: Sys, sha: Sha, items: seq<Item>, x: Item)
    requires OnlySeeded(s, items) && forall i | 0 <= i < |items| :: items[i].target != x.target
    ensures OnlySeeded(Step(s, sha, Edit(x.target, Some(SeedOf(x)))), items + [x])
  {
    var all, after := items + [x], s.db.memories[x.target := SeedOf(x)];
    forall i | 0 <= i < |all|
      ensures all[i].target in after && after[all[i].target] == SeedOf(all[i])
    {
    }
  }

  lemma {:induction false} SeedsReplay(sha: Sha, items: seq<Item>)
    requires DistinctTargets(items)
    ensures OnlySeeded(Replay(sha, Seeds(items)), items)
    ensures forall i | 0 <= i < |Seeds(items)| :: Seeds(items)[i].Edit?
  {
    if items != [] {
      var before, x := items[..|items| - 1], items[|items| - 1];
      SeedsReplay(sha, before);
      ReplayMore(sha, Seeds(before), Edit(x.target, Some(SeedOf(x))));
      SeedNext(Replay(sha, Seeds(before)), sha, before, x);
      assert before + [x] == items;
    }
  }

  const PLAN := "p"

  function CreateOf(items: seq<Item>): Op {
    Create(PLAN, items, 1, Global, None, 0)
  }

  function CallWith(key: string, clearance: nat): Call {
    Call(PLAN, true, key, clearance, 0)
  }

  /** The plan has just been created over entries that are as it lists them. */
  ghost predicate Fresh(s: Sys, sha: Sha, items: seq<Item>) {
    && s.paused == map[] && Seeded(s.db.memories, Stored(items)) && s.db.audit == []
    && s.db.plans == map[PLAN := NewRow(CreateOf(items), sha)] && s.db.items == map[PLAN := Stored(items)]
  }

  lemma FreshReached(sha: Sha, items: seq<Item>)
    ensures Fresh(Replay(sha, RaceMade(items)), sha, items)
  {
    StoredDistinct(items);
    SeedsReplay(sha, Stored(items));
    ReplayMore(sha, Seeds(Stored(items)), CreateOf(items));
    var s := Replay(sha, Seeds(Stored(items)));
    assert Swept(s.db.plans, 0) == map[];
  }

  lemma NothingDrifted(items: seq<Item>, current: map<string, Option<int>>)
    requires forall x | x in items :: x.target in current && current[x.target] == x.expected
    ensures !Unplanned(items, current) && !Drifted(items, current)
  {
  }

  lemma SeededUndrifted(db: Db, items: seq<Item>, clearance: nat)
    requires PLAN in db.items && db.items[PLAN] == items && Seeded(db.memories, items) && clearance >= 1
    requires Legible(items)
    ensures !Unplanned(items, Snapshot(db, PLAN, clearance)) && !Drifted(items, Snapshot(db, PLAN, clearance))
  {
    forall x | x in items
      ensures x.target in Snapshot(db, PLAN, clearance) && Snapshot(db, PLAN, clearance)[x.target] == x.expected
    {
      var i :| 0 <= i < |items| && items[i] == x;
    }
    NothingDrifted(items, Snapshot(db, PLAN, clearance));
  }

  lemma ValidateProceeds(db: Db, sha: Sha, id: string, current: map<string, Option<int>>, key: string, now: int)
    requires id in db.plans && id in db.items && db.plans[id].state.Pending? && now < db.plans[id].expiresAt
    requires sha(Payloads(db.items[id])) == db.plans[id].hash && db.audit == []
    requires !Unplanned(db.items[id], current) && !Drifted(db.items[id], current)
    ensures Validate(db, sha, id, current, key, now) == Proceed
  {
  }

  lemma FreshProceeds(s: Sys, sha: Sha, items: seq<Item>, key: string, clearance: nat)
    requires Fresh(s, sha, items) && Applicable(sha, items) && key != "" && clearance >= 1
    ensures WellMade(s.db, CallWith(key, clearance)) && VerdictOf(s.db, sha, CallWith(key, clearance)) == Proceed
  {
    SeededUndrifted(s.db, Stored(items), clearance);
    ValidateProceeds(s.db, sha, PLAN, Snapshot(s.db, PLAN, clearance), key, 0);
  }

  lemma BeginProceeds(s: Sys, sha: Sha, client: nat, call: Call)
    requires WellMade(s.db, call) && VerdictOf(s.db, sha, call).Proceed?
    ensures Step(s, sha, Begin(client, call))
         == Sys(s.db, s.paused[client := Pause(call, s.db.items[call.plan], Proceed)])
  {
    ProceedMeans(s.db, sha, call);
  }

  /** An end with nothing to apply: only the audit row is still to come. */
  lemma EndsVacuously(s: Sys, sha: Sha, client: nat, call: Call, items: seq<Item>)
    requires client in s.paused && s.paused[client] == Pause(call, items, Proceed) && Destructive(items) == []
    requires call.plan in s.db.plans && !s.db.plans[call.plan].state.Applying?
    ensures ConclusionOf(s, sha, End(client)) == Answered(call, Done(Counts(0, 0)), true)
    ensures Step(s, sha, End(client)) == s.(paused := s.paused[client := Unlogged(Event(call.plan, call.key, true))])
  {
  }

  function RaceMade(items: seq<Item>): seq<Op> {
    Seeds(Stored(items)) + [CreateOf(items)]
  }

  /** Both calls begin. */
  function RaceStart(items: seq<Item>): seq<Op> {
    RaceMade(items) + [Begin(0, CallWith("one", 1))] + [Begin(1, CallWith("two", 1))]
  }

  lemma RaceReplay(s: Sys, sha: Sha, items: seq<Item>)
    requires Fresh(s, sha, items) && Applicable(sha, items) && Destructive(Stored(items)) == []
    ensures var begun := Step(Step(s, sha, Begin(0, CallWith("one", 1))), sha, Begin(1, CallWith("two", 1)));
            && ConclusionOf(begun, sha, End(0)) == Answered(CallWith("one", 1), Done(Counts(0, 0)), true)
            && ConclusionOf(Step(begun, sha, End(0)), sha, End(1))
               == Answered(CallWith("two", 1), Done(Counts(0, 0)), true)
  {
    var one, two := CallWith("one", 1), CallWith("two", 1);
    FreshProceeds(s, sha, items, "one", 1);
    FreshProceeds(s, sha, items, "two", 1);
    BeginProceeds(s, sha, 0, one);
    var first := Step(s, sha, Begin(0, one));
    BeginProceeds(first, sha, 1, two);
    var begun := Step(first, sha, Begin(1, two));
    EndsVacuously(begun, sha, 0, one, Stored(items));
    EndsVacuously(Step(begun, sha, End(0)), sha, 1, two, Stored(items));
  }

  lemma CreatedOnlyMore(ops: seq<Op>, op: Op, id: string, items: seq<Item>)
    requires CreatedOnlyWith(ops, id, items) && !op.Tamper? && (op.Create? ==> op.items == items)
    ensures CreatedOnlyWith(ops + [op], id, items)
  {
  }

  lemma RaceCreates(sha: Sha, items: seq<Item>)
    ensures CreatedOnlyWith(RaceStart(items), PLAN, items)
  {
    var one, two := Begin(0, CallWith("one", 1)), Begin(1, CallWith("two", 1));
    StoredDistinct(items);
    SeedsReplay(sha, Stored(items));
    CreatedOnlyMore(Seeds(Stored(items)), CreateOf(items), PLAN, items);
    CreatedOnlyMore(RaceMade(items), one, PLAN, items);
    CreatedOnlyMore(RaceMade(items) + [one], two, PLAN, items);
  }

  lemma StartReplays(sha: Sha, made: seq<Op>, one: Op, two: Op)
    ensures Replay(sha, made + [one] + [two]) == Step(Step(Replay(sha, made), sha, one), sha, two)
  {
    ReplayMore(sha, made, one);
    ReplayMore(sha, made + [one], two);
  }

  /** Two ends that both succeed, with different keys. */
  lemma EndsWithTwoKeys(sha: Sha, begun: seq<Op>, items: seq<Item>, one: Call, two: Call)
    requires CreatedOnlyWith(begun, PLAN, items) && one.plan == two.plan == PLAN && one.key != two.key
    requires ConclusionOf(Replay(sha, begun), sha, End(0)) == Answered(one, Done(Counts(0, 0)), true)
    requires ConclusionOf(Step(Replay(sha, begun), sha, End(0)), sha, End(1)) == Answered(two, Done(Counts(0, 0)), true)
    ensures TwoKeys(sha, begun + [End(0)] + [End(1)], PLAN, items, |begun|, |begun| + 1)
  {
    var ops := begun + [End(0)] + [End(1)];
    CreatedOnlyMore(begun, End(0), PLAN, items);
    CreatedOnlyMore(begun + [End(0)], End(1), PLAN, items);
    ReplayMore(sha, begun, End(0));
    assert ops[..|begun|] == begun && ops[..|begun| + 1] == begun + [End(0)];
  }

  lemma RaceConcludes(sha: Sha, items: seq<Item>)
    requires Applicable(sha, items) && Destructive(Stored(items)) == []
    ensures var begun := Replay(sha, RaceStart(items));
            && ConclusionOf(begun, sha, End(0)) == Answered(CallWith("one", 1), Done(Counts(0, 0)), true)
            && ConclusionOf(Step(begun, sha, End(0)), sha, End(1))
               == Answered(CallWith("two", 1), Done(Counts(0, 0)), true)
  {
    FreshReached(sha, items);
    StartReplays(sha, RaceMade(items), Begin(0, CallWith("one", 1)), Begin(1, CallWith("two", 1)));
    RaceReplay(Replay(sha, RaceMade(items)), sha, items);
  }

  lemma TwoKeysHere(sha: Sha, ops: seq<Op>, id: string, items: seq<Item>, i: nat, j: nat)
    requires TwoKeys(sha, ops, id, items, i, j)
    ensures TwoKeysCanSucceed(sha, items)
  {
  }

  lemma RaceRuns(sha: Sha, items: seq<Item>)
    requires Applicable(sha, items) && Destructive(Stored(items)) == []
    ensures TwoKeysCanSucceed(sha, items)
  {
    RaceConcludes(sha, items);
    RaceCreates(sha, items);
    EndsWithTwoKeys(sha, RaceStart(items), items, CallWith("one", 1), CallWith("two", 1));
    TwoKeysHere(sha, RaceStart(items) + [End(0)] + [End(1)], PLAN, items, |RaceStart(items)|, |RaceStart(items)| + 1);
  }

  /**
    Two keys can succeed for a plan nobody tampers with exactly when its rows
    hold no destructive item and hash, as read back, to the stored hash.
   */
  lemma TwoKeysIff(sha: Sha, items: seq<Item>)
    ensures TwoKeysCanSucceed(sha, items) <==> Destructive(Stored(items)) == [] && Applicable(sha, items)
  {
    if TwoKeysCanSucceed(sha, items) {
      var ops, id, i, j :| TwoKeys(sha, ops, id, items, i, j);
      TwoKeysNeedRetain(sha, ops, id, items, i, j);
    }
    if Destructive(Stored(items)) == [] && Applicable(sha, items) {
      RaceRuns(sha, items);
    }
  }

  /** For items as the planner makes them, exactly when all of them are `retain`. */
  lemma TwoKeysOfPlannedIff(sha: Sha, items: seq<Item>)
    requires DistinctTargets(items) && !HasInvertedPair(items) && Legible(items)
    ensures TwoKeysCanSucceed(sha, items) <==> Destructive(items) == []
  {
    TwoKeysIff(sha, items);
    FreshPlanRehashes(items);
    SameMembers(CreateOrder(items), items);
    NoneDestructive(items);
    NoneDestructive(CreateOrder(items));
  }

  lemma NoneDestructive(items: seq<Item>)
    ensures Destructive(items) == [] <==> forall x | x in items :: x.action == Retain
  {
    if Destructive(items) != [] {
      assert Destructive(items)[0] in Destructive(items);
    }
  }

  // ---------- when a completed plan stays completed ----------

  /** A call that, when it goes on, marks plan `id` rejected or expired. */
  predicate Undoes(p: Pause, id: string) {
    && !p.Unlogged? && p.call.plan == id
    && (|| p.Marking?
        || (p.verdict.Fail? && p.verdict.error in {StaleRevision, HashDrift, UnplannedTarget})
        || (p.verdict.Proceed? && Destructive(p.items) != [] && !Structured(Destructive(p.items))))
  }

  /** The next step of client `c`'s call on the plan's row. */
  function GoesOn(s: Sys, c: nat): Op {
    if c in s.paused && s.paused[c].Marking? then Mark(c) else End(c)
  }

  predicate Undoing(s: Sys, op: Op, id: string) {
    (op.Mark? || op.End?) && op.client in s.paused && op == GoesOn(s, op.client) && Undoes(s.paused[op.client], id)
  }

  /** The state it writes. */
  function Undone(p: Pause): State {
    if p.Marking? then p.mark else Rejected
  }

  lemma FinishOnCompleted(db: Db, call: Call, items: seq<Item>, verdict: Verdict)
    requires call.plan in db.plans && db.plans[call.plan].state.Completed?
    ensures var row := db.plans[call.plan];
            Finish(db, call, items, verdict).db.plans[call.plan]
            == if Undoes(Pause(call, items, verdict), call.plan) then row.(state := Rejected) else row
  {
  }

  lemma VerdictOnCompleted(db: Db, sha: Sha, call: Call)
    requires WellMade(db, call) && db.plans[call.plan].state.Completed?
    ensures !VerdictOf(db, sha, call).Proceed?
    ensures VerdictOf(db, sha, call).Fail? ==> VerdictOf(db, sha, call).error in {PlanExpired, IdempotencyMismatch}
    ensures MarkOf(db, sha, call.plan, call.now).None?
  {
  }

  lemma ApplyOnCompleted(db: Db, sha: Sha, call: Call, id: string)
    requires id in db.plans && db.plans[id].state.Completed?
    ensures Perform(db, sha, call).db.plans[id] == db.plans[id]
  {
    CallKeeps(db, sha, call);
    if call.plan == id && WellMade(db, call) {
      VerdictOnCompleted(db, sha, call);
      FinishOnCompleted(db, call, db.items[id], VerdictOf(db, sha, call));
    }
  }

  lemma MarkOnCompleted(s: Sys, client: nat, id: string)
    requires id in s.db.plans && s.db.plans[id].state.Completed?
    ensures id in Marked(s, client).db.plans
    ensures Marked(s, client).db.plans[id]
         == if client in s.paused && s.paused[client].Marking? && s.paused[client].call.plan == id
            then s.db.plans[id].(state := s.paused[client].mark) else s.db.plans[id]
  {
  }

  lemma EndOnCompleted(s: Sys, client: nat, id: string)
    requires id in s.db.plans && s.db.plans[id].state.Completed?
    ensures id in Ended(s, client).db.plans
    ensures Ended(s, client).db.plans[id]
         == if client in s.paused && s.paused[client].Pause? && Undoes(s.paused[client], id)
            then s.db.plans[id].(state := Rejected) else s.db.plans[id]
  {
    if client in s.paused && s.paused[client].Pause? {
      var p := s.paused[client];
      FinishKeeps(s.db, p.call, p.items, p.verdict);
      if p.call.plan == id {
        FinishOnCompleted(s.db, p.call, p.items, p.verdict);
      }
    }
  }

  /**
    A step leaves the row of a completed plan as it is exactly when it is not a
    write of a call that read the row before: that of validation, for a plan past
    its time or with a drifted hash, or that of a call that found the plan stale,
    drifted or unstructured. Such a write marks it expired or rejected.
   */
  lemma CompletedStaysIff(s: Sys, sha: Sha, op: Op, id: string)
    requires id in s.db.plans && s.db.plans[id].state.Completed?
    ensures id in Step(s, sha, op).db.plans
    ensures Step(s, sha, op).db.plans[id] == s.db.plans[id] <==> !Undoing(s, op, id)
    ensures Undoing(s, op, id) ==>
              Step(s, sha, op).db.plans[id] == s.db.plans[id].(state := Undone(s.paused[op.client]))
  {
    match op
    case Apply(call) => ApplyOnCompleted(s.db, sha, call, id);
    case Mark(client) => MarkOnCompleted(s, client, id);
    case End(client) => EndOnCompleted(s, client, id);
    case _ =>
  }

  /** Completed, and no call that began before is about to mark it rejected or expired. */
  ghost predicate Quiet(s: Sys, id: string) {
    && id in s.db.plans && s.db.plans[id].state.Completed?
    && forall c | c in s.paused :: !Undoes(s.paused[c], id)
  }

  function ReplayFrom(s: Sys, sha: Sha, ops: seq<Op>): Sys {
    if ops == [] then s else Step(ReplayFrom(s, sha, ops[..|ops| - 1]), sha, ops[|ops| - 1])
  }

  lemma QuietStays(s: Sys, sha: Sha, op: Op, id: string)
    requires Quiet(s, id)
    ensures Quiet(Step(s, sha, op), id) && Step(s, sha, op).db.plans[id] == s.db.plans[id]
  {
    var t := Step(s, sha, op);
    CompletedStaysIff(s, sha, op, id);
    forall c | c in t.paused
      ensures !Undoes(t.paused[c], id)
    {
      PausesCameFrom(s, sha, op, c);
      if op.Begin? && WellMade(s.db, op.call) && op.call.plan == id {
        VerdictOnCompleted(s.db, sha, op.call);
      }
      assert c in s.paused ==> !Undoes(s.paused[c], id);
    }
  }

  lemma {:induction false} QuietForever(s: Sys, sha: Sha, ops: seq<Op>, id: string)
    requires Quiet(s, id)
    ensures Quiet(ReplayFrom(s, sha, ops), id) && ReplayFrom(s, sha, ops).db.plans[id] == s.db.plans[id]
  {
    if ops != [] {
      QuietForever(s, sha, ops[..|ops| - 1], id);
      QuietStays(ReplayFrom(s, sha, ops[..|ops| - 1]), sha, ops[|ops| - 1], id);
    }
  }

  /** Plan `id` has this row after `ops`. */
  ghost predicate SameRow(s: Sys, sha: Sha, ops: seq<Op>, id: string, row: PlanRow) {
    id in ReplayFrom(s, sha, ops).db.plans && ReplayFrom(s, sha, ops).db.plans[id] == row
  }

  /**
    A completed plan keeps its row whatever follows exactly when no call that
    read the row before is still about to mark it rejected or expired: no later
    call can.
   */
  lemma CompletedForeverIff(s: Sys, sha: Sha, id: string)
    requires id in s.db.plans && s.db.plans[id].state.Completed?
    ensures (forall ops :: SameRow(s, sha, ops, id, s.db.plans[id])) <==> Quiet(s, id)
  {
    if Quiet(s, id) {
      forall ops
        ensures SameRow(s, sha, ops, id, s.db.plans[id])
      {
        QuietForever(s, sha, ops, id);
      }
    } else {
      var c :| c in s.paused && Undoes(s.paused[c], id);
      CompletedStaysIff(s, sha, GoesOn(s, c), id);
      assert ReplayFrom(s, sha, []) == s && [GoesOn(s, c)][..0] == [];
      assert !SameRow(s, sha, [GoesOn(s, c)], id, s.db.plans[id]);
    }
  }

  // ---------- a commit that a late rejection hides ----------

  /** Items that a transaction can merge: each in a group of two or more, and not all of them missing entries. */
  ghost predicate CanCommit(sha: Sha, items: seq<Item>) {
    && Applicable(sha, items) && Destructive(Stored(items)) != [] && Structured(Destructive(Stored(items)))
    && (forall x | x in Destructive(Stored(items)) :: |GroupOf(Destructive(Stored(items)), x.fingerprint.value)| >= 2)
    && exists x :: x in Stored(items) && x.expected != Some(-1)
  }

  lemma FreshIsSound(s: Sys, sha: Sha, items: seq<Item>)
    requires Fresh(s, sha, items)
    ensures Sound(s.db)
  {
    StoredDistinct(items);
  }

  lemma ValidateStale(db: Db, sha: Sha, id: string, current: map<string, Option<int>>, key: string, now: int)
    requires id in db.plans && id in db.items && db.plans[id].state.Pending? && now < db.plans[id].expiresAt
    requires sha(Payloads(db.items[id])) == db.plans[id].hash
    requires !Unplanned(db.items[id], current) && Drifted(db.items[id], current)
    ensures Validate(db, sha, id, current, key, now) == Fail(StaleRevision)
    ensures MarkOf(db, sha, id, now).None?
  {
  }

  lemma HiddenDrifts(db: Db, items: seq<Item>, x: Item)
    requires PLAN in db.items && db.items[PLAN] == items && Seeded(db.memories, items)
    requires x in items && x.expected != Some(-1) && Legible(items)
    ensures !Unplanned(items, Snapshot(db, PLAN, 0)) && Drifted(items, Snapshot(db, PLAN, 0))
  {
    var i :| 0 <= i < |items| && items[i] == x;
    assert db.memories[x.target] == SeedOf(x);
    assert x.target in Snapshot(db, PLAN, 0) && Snapshot(db, PLAN, 0)[x.target] == ReadBack(x.target, -1);
  }

  lemma BeganStale(s: Sys, sha: Sha, client: nat, call: Call)
    requires WellMade(s.db, call) && VerdictOf(s.db, sha, call) == Fail(StaleRevision)
    requires MarkOf(s.db, sha, call.plan, call.now).None?
    ensures Step(s, sha, Begin(client, call))
         == Sys(s.db, s.paused[client := Pause(call, s.db.items[call.plan], Fail(StaleRevision))])
  {
  }

  /** A caller who cannot see the entries finds the plan stale. */
  lemma FreshIsStale(s: Sys, sha: Sha, items: seq<Item>, x: Item, client: nat, key: string)
    requires Fresh(s, sha, items) && Applicable(sha, items) && x in Stored(items) && x.expected != Some(-1) && key != ""
    ensures Step(s, sha, Begin(client, CallWith(key, 0)))
         == Sys(s.db, map[client := Pause(CallWith(key, 0), Stored(items), Fail(StaleRevision))])
  {
    HiddenDrifts(s.db, Stored(items), x);
    ValidateStale(s.db, sha, PLAN, Snapshot(s.db, PLAN, 0), key, 0);
    BeganStale(s, sha, client, CallWith(key, 0));
  }

  lemma FreshUndrifted(s: Sys, sha: Sha, items: seq<Item>)
    requires Fresh(s, sha, items) && Legible(Stored(items))
    ensures Undrifted(s.db, PLAN, 1)
  {
    forall x | x in Stored(items)
      ensures SeenRevision(s.db.memories, x.target, 1) == x.expected
    {
      var i :| 0 <= i < |Stored(items)| && Stored(items)[i] == x;
    }
  }

  lemma FreshAllMergeable(s: Sys, sha: Sha, items: seq<Item>)
    requires Fresh(s, sha, items) && CanCommit(sha, items)
    ensures AllMergeable(s.db.memories, s.db.plans[PLAN], Destructive(Stored(items)))
  {
    forall x | x in Destructive(Stored(items))
      ensures Obstacle(s.db.memories, s.db.plans[PLAN], x).None?
    {
      var i :| 0 <= i < |Stored(items)| && Stored(items)[i] == x;
    }
  }

  lemma FreshCommits(s: Sys, sha: Sha, items: seq<Item>, key: string)
    requires Fresh(s, sha, items) && CanCommit(sha, items) && key != ""
    ensures var o := Perform(s.db, sha, CallWith(key, 1));
            && o.answer.Done? && PLAN in o.db.plans && PLAN in o.db.items && o.db.plans[PLAN].state.Completed?
            && o.db.plans[PLAN].expiresAt > 0
  {
    FreshIsSound(s, sha, items);
    FreshUndrifted(s, sha, items);
    FreshAllMergeable(s, sha, items);
    SucceedsIff(s.db, sha, CallWith(key, 1));
    SuccessOnPending(s.db, sha, CallWith(key, 1));
    CallKeeps(s.db, sha, CallWith(key, 1));
  }

  lemma RejectedRefuses(db: Db, sha: Sha, call: Call)
    requires WellMade(db, call) && db.plans[call.plan].state.Rejected? && call.now < db.plans[call.plan].expiresAt
    ensures Perform(db, sha, call).answer == Refused(HashDrift)
  {
  }

  /** The late call ends after the other one has committed. */
  lemma LateEnd(s: Sys, sha: Sha, call: Call, p: Pause)
    requires 0 in s.paused && s.paused[0] == p && Undoes(p, call.plan) && p.Pause? && p.verdict.Fail?
    requires WellMade(s.db, call) && s.db.plans[call.plan].state.Completed?
        && call.now < s.db.plans[call.plan].expiresAt
    ensures var late := Step(s, sha, End(0)).db;
            && late.memories == s.db.memories && call.plan in late.plans && late.plans[call.plan].state.Rejected?
            && Perform(late, sha, call).answer == Refused(HashDrift)
  {
    CompletedStaysIff(s, sha, End(0), call.plan);
    SettledKeeps(s.db, p.call, p.items, p.verdict);
    RejectedRefuses(Step(s, sha, End(0)).db, sha, call);
  }

  /** `call` succeeds and completes its plan, and the late call `p` then rejects it. */
  ghost predicate HiddenBy(begun: Sys, sha: Sha, call: Call) {
    var done := Step(begun, sha, Apply(call));
    var late := Step(done, sha, End(0));
    && Perform(begun.db, sha, call).answer.Done?
    && call.plan in done.db.plans && done.db.plans[call.plan].state.Completed?
    && call.plan in late.db.plans && late.db.plans[call.plan].state.Rejected?
    && late.db.memories == done.db.memories && Perform(late.db, sha, call).answer == Refused(HashDrift)
  }

  lemma HiddenWhenLate(begun: Sys, sha: Sha, call: Call, p: Pause)
    requires 0 in begun.paused && begun.paused[0] == p && Undoes(p, call.plan) && p.Pause? && p.verdict.Fail?
    requires var o := Perform(begun.db, sha, call);
             && o.answer.Done? && WellMade(o.db, call) && o.db.plans[call.plan].state.Completed?
             && call.now < o.db.plans[call.plan].expiresAt
    ensures HiddenBy(begun, sha, call)
  {
    LateEnd(Step(begun, sha, Apply(call)), sha, call, p);
  }

  lemma LateRace(s: Sys, sha: Sha, items: seq<Item>)
    requires Fresh(s, sha, items) && CanCommit(sha, items)
    ensures HiddenBy(Step(s, sha, Begin(0, CallWith("late", 0))), sha, CallWith("key", 1))
  {
    var x :| x in Stored(items) && x.expected != Some(-1);
    var p := Pause(CallWith("late", 0), Stored(items), Fail(StaleRevision));
    FreshIsStale(s, sha, items, x, 0, "late");
    FreshCommits(s, sha, items, "key");
    HiddenWhenLate(Sys(s.db, map[0 := p]), sha, CallWith("key", 1), p);
  }

  /**
    From an empty database: a caller who cannot see every entry begins, another
    one commits, the first goes on and marks the plan rejected. The commit
    stands, but its key is refused from then on.
   */
  lemma LateRejectionHidesCommit(sha: Sha, items: seq<Item>)
    requires CanCommit(sha, items)
    ensures var ops, call := RaceMade(items) + [Begin(0, CallWith("late", 0))], CallWith("key", 1);
            && HiddenBy(Replay(sha, ops), sha, call)
            && Replay(sha, ops + [Apply(call)] + [End(0)])
               == Step(Step(Replay(sha, ops), sha, Apply(call)), sha, End(0))
  {
    var begin, apply := Begin(0, CallWith("late", 0)), Apply(CallWith("key", 1));
    FreshReached(sha, items);
    LateRace(Replay(sha, RaceMade(items)), sha, items);
    ReplayMore(sha, RaceMade(items), begin);
    StartReplays(sha, RaceMade(items) + [begin], apply, End(0));
  }

  // ---------- a commit that a late expiry hides ----------

  /** A caller whose clock is past the plan's time, while the row still says pending. */
  lemma FreshExpires(s: Sys, sha: Sha, items: seq<Item>, client: nat, late: Call)
    requires s.db.plans == map[PLAN := NewRow(CreateOf(items), sha)] && s.db.items == map[PLAN := Stored(items)]
    requires late.plan == PLAN && late.confirm && late.key != "" && late.now >= 1
    ensures Step(s, sha, Begin(client, late))
         == Sys(s.db, s.paused[client := Marking(late, Stored(items), Fail(PlanExpired), Expired)])
  {
  }

  lemma EndIsPerform(s: Sys, sha: Sha, client: nat, call: Call)
    requires WellMade(s.db, call) && VerdictOf(s.db, sha, call).Proceed?
    requires client in s.paused && s.paused[client] == Pause(call, s.db.items[call.plan], Proceed)
    ensures var o := Perform(s.db, sha, call);
            && Step(s, sha, End(client)).db == o.db.(audit := s.db.audit)
            && Step(s, sha, End(client)).paused
               == s.paused[client := Unlogged(Event(call.plan, call.key, o.answer.Done?))]
  {
    ProceedMeans(s.db, sha, call);
  }

  lemma CommitConcludes(s: Sys, sha: Sha, client: nat, call: Call)
    requires WellMade(s.db, call) && VerdictOf(s.db, sha, call).Proceed?
    requires client in s.paused && s.paused[client] == Pause(call, s.db.items[call.plan], Proceed)
    ensures ConclusionOf(s, sha, End(client)).Answered?
    ensures ConclusionOf(s, sha, End(client)).answer == Perform(s.db, sha, call).answer
  {
    ProceedMeans(s.db, sha, call);
  }

  /** The commit goes through, and then the expiry is written over it. */
  ghost predicate ExpiredOver(begun: Sys, sha: Sha, id: string) {
    var done := Step(begun, sha, End(1));
    var marked := Step(done, sha, Mark(0));
    && ConclusionOf(begun, sha, End(1)).Answered? && ConclusionOf(begun, sha, End(1)).answer.Done?
    && id in done.db.plans && done.db.plans[id].state.Completed?
    && id in marked.db.plans && marked.db.plans[id].state.Expired?
    && marked.db.memories == done.db.memories
  }

  lemma MarkAfter(done: Sys, sha: Sha, id: string, m: Pause)
    requires 0 in done.paused && done.paused[0] == m && m.Marking? && m.call.plan == id && m.mark == Expired
    requires id in done.db.plans && done.db.plans[id].state.Completed?
    ensures var marked := Step(done, sha, Mark(0)).db;
            id in marked.plans && marked.plans[id].state.Expired? && marked.memories == done.db.memories
  {
    MarkOnCompleted(done, 0, id);
  }

  lemma ExpiryAfter(begun: Sys, sha: Sha, call: Call, m: Pause)
    requires WellMade(begun.db, call) && VerdictOf(begun.db, sha, call).Proceed?
    requires 1 in begun.paused && begun.paused[1] == Pause(call, begun.db.items[call.plan], Proceed)
    requires 0 in begun.paused && begun.paused[0] == m && m.Marking? && m.call.plan == call.plan && m.mark == Expired
    requires var o := Perform(begun.db, sha, call);
             o.answer.Done? && call.plan in o.db.plans && o.db.plans[call.plan].state.Completed?
    ensures ExpiredOver(begun, sha, call.plan)
  {
    EndIsPerform(begun, sha, 1, call);
    CommitConcludes(begun, sha, 1, call);
    MarkAfter(Step(begun, sha, End(1)), sha, call.plan, m);
  }

  lemma ExpiryRace(s: Sys, sha: Sha, items: seq<Item>, late: Call)
    requires Fresh(s, sha, items) && CanCommit(sha, items)
    requires late.plan == PLAN && late.confirm && late.key != "" && late.now >= 1
    ensures ExpiredOver(Step(Step(s, sha, Begin(1, CallWith("key", 1))), sha, Begin(0, late)), sha, PLAN)
  {
    var call := CallWith("key", 1);
    FreshProceeds(s, sha, items, "key", 1);
    BeginProceeds(s, sha, 1, call);
    FreshExpires(Step(s, sha, Begin(1, call)), sha, items, 0, late);
    FreshCommits(s, sha, items, "key");
    var m := Marking(late, Stored(items), Fail(PlanExpired), Expired);
    ExpiryAfter(Sys(s.db, map[1 := Pause(call, Stored(items), Proceed)][0 := m]), sha, call, m);
  }

  /**
    From an empty database: one call passes validation in time, another finds the
    plan past its time, the first commits, and then the second writes `expired`
    over the completed plan. The merges stand.
   */
  lemma LateExpiryHidesCommit(sha: Sha, items: seq<Item>, late: Call)
    requires CanCommit(sha, items)
    requires late.plan == PLAN && late.confirm && late.key != "" && late.now >= 1
    ensures var ops := RaceMade(items) + [Begin(1, CallWith("key", 1))] + [Begin(0, late)];
            && ExpiredOver(Replay(sha, ops), sha, PLAN)
            && Replay(sha, ops + [End(1)] + [Mark(0)]) == Step(Step(Replay(sha, ops), sha, End(1)), sha, Mark(0))
  {
    var one, two := Begin(1, CallWith("key", 1)), Begin(0, late);
    FreshReached(sha, items);
    StartReplays(sha, RaceMade(items), one, two);
    ExpiryRace(Replay(sha, RaceMade(items)), sha, items, late);
    StartReplays(sha, RaceMade(items) + [one] + [two], End(1), Mark(0));
  }

  const ONE := Item("a", Some(1), Merge, Some("f"), High)
  const OTHER := Item("b", Some(1), Merge, Some("f"), High)

  lemma PairIsPlain()
    ensures DistinctTargets([ONE, OTHER]) && !HasInvertedPair([ONE, OTHER])
  {
    forall x, y | x in [ONE, OTHER] && y in [ONE, OTHER]
      ensures !Inverted(x.target, y.target)
    {
      NeverInverted(x.target, y.target);
    }
  }

  lemma PairGroups(d: seq<Item>)
    requires forall x :: x in d <==> x == ONE || x == OTHER
    ensures d != [] && Structured(d)
    ensures forall x | x in d :: |GroupOf(d, x.fingerprint.value)| >= 2
  {
    assert ONE in d && OTHER in d && ONE.target != OTHER.target;
    forall i | 0 <= i < |d|
      ensures d[i].fingerprint == Some("f")
    {
      assert d[i] in d;
    }
    GroupMembers(d, "f");
    assert ONE in GroupOf(d, "f") && OTHER in GroupOf(d, "f");
    TwoOf(GroupOf(d, "f"), ONE, OTHER);
  }

  lemma PairStored(items: seq<Item>)
    requires items == [ONE, OTHER]
    ensures Stored(items) == CreateOrder(items)
    ensures forall x :: x in Stored(items) <==> x == ONE || x == OTHER
  {
    PairIsPlain();
    FreshPlanRehashes(items);
    SameMembers(CreateOrder(items), items);
    forall x
      ensures x in items <==> x == ONE || x == OTHER
    {
      assert items[0] == ONE && items[1] == OTHER;
    }
  }

  /** Two entries of one duplicate group are such a plan, whatever the hash function. */
  lemma PairCanCommit(sha: Sha, items: seq<Item>)
    requires items == [ONE, OTHER]
    ensures CanCommit(sha, items)
  {
    PairStored(items);
    var stored := Stored(items);
    PairGroups(Destructive(stored));
    PairLegible(stored);
    assert ONE in stored && ONE.expected != Some(-1);
  }

  lemma PairLegible(stored: seq<Item>)
    requires forall x :: x in stored <==> x == ONE || x == OTHER
    ensures Legible(stored)
  {
    assert |ONE.target| != |PROTO| && |OTHER.target| != |PROTO|;
  }

  lemma TwoOf(group: seq<Item>, x: Item, y: Item)
    requires x in group && y in group && x != y
    ensures |group| >= 2
  {
  }
}
