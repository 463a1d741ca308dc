/**
  The derivation-job table of the SQLite store: every guarded UPDATE is one
  atomic step, and a run is the sequence of steps that all workers sharing the
  database file issued, in commit order.
 */
module DerivationJobs {
  import opened Common

  datatype State = Queued | Running | Succeeded | Failed | Cancelled

  datatype Job = Job(
    kind: string,
    creator: string,
    idempotencyKey: string,
    cursor: string,
    state: State,
    attemptCount: nat,
    leaseOwner: Option<string>,
    leaseExpiresAt: Option<int>,
    cancelRequestedAt: Option<int>,
    nextRetryAt: Option<int>,
    errorCode: Option<string>,
    redactedError: Option<string>,
    createdAt: int,
    startedAt: Option<int>,
    updatedAt: int,
    finishedAt: Option<int>)

  type Table = map<string, Job>

  /** One statement against the table, with the arguments bound to it. */
  datatype Op =
    | Insert(id: string, kind: string, creator: string, key: string, cursor: string, retryAt: Option<int>, now: int)
    | Claim(id: string, owner: string, expiresAt: int, startedAt: int, now: int)
    | RequestCancel(id: string, now: int)
    | Finalize(id: string, terminal: State, newCursor: Option<string>, errorCode: Option<string>,
               redactedError: Option<string>, retryAt: Option<int>, now: int)
    | Checkpoint(id: string, cursor: string, now: int)
    | Renew(id: string, owner: string, expiresAt: int, now: int)
    | Reap(now: int)

  /** `finalizeDerivationJob` only takes a terminal state. */
  ghost predicate WellFormed(op: Op) {
    op.Finalize? ==> op.terminal in {Succeeded, Failed, Cancelled}
  }

  // ---------- the WHERE clauses ----------

  predicate WaitsForClaim(j: Job, now: int) {
    j.state.Queued? || (j.state.Failed? && j.nextRetryAt.Some? && j.nextRetryAt.value <= now)
  }

  predicate LeaseFree(j: Job, now: int) {
    j.leaseOwner.None? || j.leaseExpiresAt.None? || j.leaseExpiresAt.value <= now
  }

  predicate Claimable(j: Job, now: int) {
    WaitsForClaim(j, now) && LeaseFree(j, now)
  }

  predicate Renewable(j: Job, owner: string, now: int) {
    && j.state.Running?
    && j.leaseOwner == Some(owner)
    && (j.cancelRequestedAt.None? || j.cancelRequestedAt.value > now)
  }

  predicate LeaseExpired(j: Job, now: int) {
    j.state.Running? && j.leaseExpiresAt.Some? && j.leaseExpiresAt.value <= now
  }

  predicate Terminal(s: State) {
    s.Succeeded? || s.Failed? || s.Cancelled?
  }

  /** The statement's WHERE clause selects this row. */
  predicate Selects(op: Op, id: string, j: Job) {
    match op
    case Insert(_, _, _, _, _, _, _) => false
    case Claim(target, _, _, _, now) => id == target && Claimable(j, now)
    case RequestCancel(target, _) => id == target && !Terminal(j.state)
    case Finalize(target, _, _, _, _, _, _) => id == target && j.state.Running?
    case Checkpoint(target, _, _) => id == target && j.state.Running?
    case Renew(target, owner, _, now) => id == target && Renewable(j, owner, now)
    case Reap(now) => LeaseExpired(j, now)
  }

  // ---------- the SET clauses ----------

  function Claimed(j: Job, owner: string, expiresAt: int, startedAt: int, now: int): Job {
    j.(leaseOwner := Some(owner), leaseExpiresAt := Some(expiresAt), attemptCount := j.attemptCount + 1,
       state := Running, startedAt := Coalesce(j.startedAt, Some(startedAt)), updatedAt := now)
  }

  function Finalized(j: Job, op: Op): Job
    requires op.Finalize?
  {
    j.(state := op.terminal, cursor := if op.newCursor.Some? then op.newCursor.value else j.cursor,
       errorCode := op.errorCode, redactedError := op.redactedError, nextRetryAt := op.retryAt,
       leaseOwner := None, leaseExpiresAt := None,
       finishedAt := Coalesce(j.finishedAt, Some(op.now)), updatedAt := op.now)
  }

  function Requeued(j: Job, now: int): Job {
    j.(state := Queued, leaseOwner := None, leaseExpiresAt := None, updatedAt := now)
  }

  function Updated(op: Op, j: Job): Job {
    match op
    case Insert(_, _, _, _, _, _, _) => j
    case Claim(_, owner, expiresAt, startedAt, now) => Claimed(j, owner, expiresAt, startedAt, now)
    case RequestCancel(_, now) => j.(cancelRequestedAt := Some(now), updatedAt := now)
    case Finalize(_, _, _, _, _, _, _) => Finalized(j, op)
    case Checkpoint(_, cursor, now) => j.(cursor := cursor, updatedAt := now)
    case Renew(_, owner, expiresAt, now) =>
      j.(leaseOwner := Some(owner), leaseExpiresAt := Some(expiresAt), updatedAt := now)
    case Reap(now) => Requeued(j, now)
  }

  function RowAfter(op: Op, id: string, j: Job): Job {
    if Selects(op, id, j) then Updated(op, j) else j
  }

  // ---------- whole-table semantics ----------

  /** PRIMARY KEY (job_id) and UNIQUE (creator_actor_id, kind, idempotency_key). */
  predicate InsertAllowed(t: Table, op: Op)
    requires op.Insert?
  {
    && op.id !in t
    && forall k | k in t :: !(t[k].creator == op.creator && t[k].kind == op.kind && t[k].idempotencyKey == op.key)
  }

  function NewJob(op: Op): Job
    requires op.Insert?
  {
    Job(op.kind, op.creator, op.key, op.cursor, Queued, 0, None, None, None, op.retryAt, None, None,
        op.now, None, op.now, None)
  }

  function Step(t: Table, op: Op): Table {
    if op.Insert? then
      if InsertAllowed(t, op) then t[op.id := NewJob(op)] else t
    else
      map id | id in t :: RowAfter(op, id, t[id])
  }

  /** The table after a run that starts on an empty database. */
  function Replay(ops: seq<Op>): Table {
    if ops == [] then map[] else Step(Replay(ops[..|ops| - 1]), ops[|ops| - 1])
  }

  /** The table just before step `n` of the run. */
  function At(ops: seq<Op>, n: nat): Table
    requires n <= |ops|
  {
    Replay(ops[..n])
  }

  lemma AtNext(ops: seq<Op>, n: nat)
    requires n < |ops|
    ensures At(ops, n + 1) == Step(At(ops, n), ops[n])
  {
    assert ops[..n + 1][..n] == ops[..n];
  }

  /** Step `n` is a statement about job `id` whose WHERE clause selected it. */
  predicate Effective(ops: seq<Op>, n: nat, id: string)
    requires n < |ops|
  {
    id in At(ops, n) && Selects(ops[n], id, At(ops, n)[id])
  }

  predicate ClaimWon(ops: seq<Op>, n: nat, id: string)
    requires n < |ops|
  {
    ops[n].Claim? && Effective(ops, n, id)
  }

  predicate FinalizeWon(ops: seq<Op>, n: nat, id: string)
    requires n < |ops|
  {
    ops[n].Finalize? && Effective(ops, n, id)
  }

  predicate RenewWon(ops: seq<Op>, n: nat, id: string)
    requires n < |ops|
  {
    ops[n].Renew? && Effective(ops, n, id)
  }

  ghost predicate ClockOrdered(ops: seq<Op>) {
    forall i, j | 0 <= i < j < |ops| :: ops[i].now <= ops[j].now
  }

  ghost predicate WellFormedRun(ops: seq<Op>) {
    forall i | 0 <= i < |ops| :: WellFormed(ops[i])
  }

  /** A statement that names one job leaves every other row alone. */
  lemma StepOfOne(t: Table, op: Op)
    requires !op.Insert? && !op.Reap?
    ensures Step(t, op) == if op.id in t && Selects(op, op.id, t[op.id]) then t[op.id := Updated(op, t[op.id])] else t
  {
  }

  /** Rows are never deleted, and one step changes a row by `RowAfter`. */
  lemma RowNext(ops: seq<Op>, n: nat, id: string)
    requires n < |ops| && id in At(ops, n)
    ensures id in At(ops, n + 1)
    ensures At(ops, n + 1)[id] == RowAfter(ops[n], id, At(ops, n)[id])
  {
    AtNext(ops, n);
  }

  // ---------- invariants of every reachable row ----------

  ghost predicate RowInvariant(j: Job) {
    && (j.state.Running? <==> j.leaseOwner.Some?)
    && (j.state.Running? <==> j.leaseExpiresAt.Some?)
    && (j.startedAt.Some? <==> j.attemptCount > 0)
    && (Terminal(j.state) || j.state.Running? ==> j.attemptCount > 0)
    && (Terminal(j.state) ==> j.finishedAt.Some?)
  }

  lemma RowInvariantKept(op: Op, id: string, j: Job)
    requires WellFormed(op) && RowInvariant(j)
    ensures RowInvariant(RowAfter(op, id, j))
  {
  }

  /** In every reachable table a job is running exactly while owner and expiry are both set. */
  lemma {:induction false} ReachableRows(ops: seq<Op>, id: string)
    requires WellFormedRun(ops) && id in Replay(ops)
    ensures RowInvariant(Replay(ops)[id])
  {
    var prev, op := ops[..|ops| - 1], ops[|ops| - 1];
    if id in Replay(prev) {
      ReachableRows(prev, id);
      RowInvariantKept(op, id, Replay(prev)[id]);
    }
  }

  /** So the lease clause of the claim statement never decides anything. */
  lemma LeaseClauseRedundant(ops: seq<Op>, id: string, now: int)
    requires WellFormedRun(ops) && id in Replay(ops)
    ensures Claimable(Replay(ops)[id], now) <==> WaitsForClaim(Replay(ops)[id], now)
  {
    ReachableRows(ops, id);
  }

  /** The number of claims of `id` that found the job claimable. */
  function ClaimsWon(ops: seq<Op>, id: string): nat {
    if ops == [] then 0
    else
      var prev := ops[..|ops| - 1];
      ClaimsWon(prev, id) +
      (if ops[|ops| - 1].Claim? && id in Replay(prev) && Selects(ops[|ops| - 1], id, Replay(prev)[id]) then 1 else 0)
  }

  lemma {:induction false} AttemptsCountClaims(ops: seq<Op>, id: string)
    ensures id in Replay(ops) ==> Replay(ops)[id].attemptCount == ClaimsWon(ops, id)
    ensures id !in Replay(ops) ==> ClaimsWon(ops, id) == 0
  {
    if ops != [] {
      AttemptsCountClaims(ops[..|ops| - 1], id);
    }
  }

  /** `started_at` and `finished_at` keep the first value written; identity columns never change. */
  ghost predicate StampsKept(before: Job, after: Job) {
    && (before.startedAt.Some? ==> after.startedAt == before.startedAt)
    && (before.finishedAt.Some? ==> after.finishedAt == before.finishedAt)
    && (before.cancelRequestedAt.Some? ==> after.cancelRequestedAt.Some?)
    && before.attemptCount <= after.attemptCount
    && (before.kind, before.creator, before.idempotencyKey, before.createdAt)
       == (after.kind, after.creator, after.idempotencyKey, after.createdAt)
  }

  lemma {:induction false} StampsAreWrittenOnce(ops: seq<Op>, n: nat, m: nat, id: string)
    requires n <= m <= |ops| && id in At(ops, n)
    ensures id in At(ops, m)
    ensures StampsKept(At(ops, n)[id], At(ops, m)[id])
    decreases m
  {
    if n < m {
      StampsAreWrittenOnce(ops, n, m - 1, id);
      RowNext(ops, m - 1, id);
      StampsStep(ops[m - 1], id, At(ops, m - 1)[id]);
      StampsChain(At(ops, n)[id], At(ops, m - 1)[id], At(ops, m)[id]);
    }
  }

  lemma StampsStep(op: Op, id: string, j: Job)
    ensures StampsKept(j, RowAfter(op, id, j))
  {
  }

  lemma StampsChain(a: Job, b: Job, c: Job)
    requires StampsKept(a, b) && StampsKept(b, c)
    ensures StampsKept(a, c)
  {
  }

  /** No later statement can select such a row. */
  predicate Settled(j: Job) {
    j.state.Succeeded? || j.state.Cancelled? || (j.state.Failed? && j.nextRetryAt.None?)
  }

  lemma {:induction false} SettledRowsAreFrozen(ops: seq<Op>, n: nat, m: nat, id: string)
    requires n <= m <= |ops| && id in At(ops, n) && Settled(At(ops, n)[id])
    ensures id in At(ops, m) && At(ops, m)[id] == At(ops, n)[id]
    decreases m
  {
    if n < m {
      SettledRowsAreFrozen(ops, n, m - 1, id);
      RowNext(ops, m - 1, id);
    }
  }

  /** Conversely, a row that is not settled can still be changed by some statement. */
  lemma UnsettledRowsCanMove(id: string, j: Job)
    requires RowInvariant(j) && !Settled(j)
    ensures exists op | WellFormed(op) :: Selects(op, id, j) && RowAfter(op, id, j) != j
  {
    if j.state.Running? {
      var op := Finalize(id, Succeeded, None, None, None, None, 0);
      assert RowAfter(op, id, j).state.Succeeded?;
    } else {
      var now := if j.state.Failed? then j.nextRetryAt.value else 0;
      var op := Claim(id, "", 0, 0, now);
      assert RowAfter(op, id, j).attemptCount == j.attemptCount + 1;
    }
  }

  /** After a reap every queued job can be claimed at once and every running lease is in the future. */
  lemma ReapLeavesNoExpiredLease(ops: seq<Op>, now: int, id: string)
    requires WellFormedRun(ops) && id in Step(Replay(ops), Reap(now))
    ensures var j := Step(Replay(ops), Reap(now))[id];
      && (j.state.Queued? ==> Claimable(j, now))
      && (j.state.Running? ==> j.leaseExpiresAt.Some? && j.leaseExpiresAt.value > now)
  {
    ReachableRows(ops, id);
  }

  /** Jobs that a claim preceded by a reap can take over. */
  predicate TakeoverReady(j: Job, now: int) {
    WaitsForClaim(j, now) || LeaseExpired(j, now)
  }

  /** The service reaps before it claims: the pair takes a job exactly when it waits or its lease ran out. */
  lemma ReapThenClaimTakesOver(ops: seq<Op>, id: string, now: int)
    requires WellFormedRun(ops) && id in Replay(ops)
    ensures id in Step(Replay(ops), Reap(now))
    ensures Claimable(Step(Replay(ops), Reap(now))[id], now) <==> TakeoverReady(Replay(ops)[id], now)
  {
    ReachableRows(ops, id);
  }

  // ---------- lease exclusion over whole runs ----------

  /** The expiry most recently granted under the claim won at step `i`, as known before step `n`. */
  function LastGrant(ops: seq<Op>, i: nat, n: nat, id: string): int
    requires i < n <= |ops| && ops[i].Claim?
    decreases n
  {
    if n == i + 1 then ops[i].expiresAt
    else if RenewWon(ops, n - 1, id) then ops[n - 1].expiresAt
    else LastGrant(ops, i, n - 1, id)
  }

  /** Step `r` is a reap that requeued job `id` at or after the last expiry granted since step `i`. */
  ghost predicate ReapedAt(ops: seq<Op>, i: nat, r: nat, id: string)
    requires i < r < |ops| && ops[i].Claim?
  {
    ops[r].Reap? && Effective(ops, r, id) && LastGrant(ops, i, r, id) <= ops[r].now
  }

  /** Until the next claim or finalize the job is either held under the last grant or was reaped past it. */
  lemma {:induction false} HeldOrReaped(ops: seq<Op>, i: nat, n: nat, id: string)
    requires WellFormedRun(ops)
    requires i < n <= |ops| && ClaimWon(ops, i, id)
    requires forall m | i < m < n :: !ClaimWon(ops, m, id) && !FinalizeWon(ops, m, id)
    ensures id in At(ops, n)
    ensures var j := At(ops, n)[id];
      || (j.state.Running? && j.leaseOwner == Some(ops[i].owner) && j.leaseExpiresAt == Some(LastGrant(ops, i, n, id)))
      || (j.state.Queued? && exists r | i < r < n ::
          ReapedAt(ops, i, r, id) && LastGrant(ops, i, n, id) == LastGrant(ops, i, r, id))
    decreases n
  {
    if n == i + 1 {
      RowNext(ops, i, id);
    } else {
      HeldOrReaped(ops, i, n - 1, id);
      RowNext(ops, n - 1, id);
      var j := At(ops, n - 1)[id];
      assert !ClaimWon(ops, n - 1, id) && !FinalizeWon(ops, n - 1, id);
      if j.state.Running? {
        if Effective(ops, n - 1, id) && ops[n - 1].Reap? {
          assert ReapedAt(ops, i, n - 1, id);
        }
      } else {
        var r :| i < r < n - 1 && ReapedAt(ops, i, r, id) && LastGrant(ops, i, n - 1, id) == LastGrant(ops, i, r, id);
        assert !RenewWon(ops, n - 1, id);
      }
    }
  }

  /**
    Lease exclusion: when a claim is followed by another successful claim of the
    same job with no finalize in between, a reap released the lease at or after
    the last expiry its holder was granted, and the new claim comes no earlier.
   */
  lemma LeaseExclusion(ops: seq<Op>, i: nat, k: nat, id: string)
    requires WellFormedRun(ops) && ClockOrdered(ops)
    requires i < k < |ops| && ClaimWon(ops, i, id) && ClaimWon(ops, k, id)
    requires forall m | i < m < k :: !ClaimWon(ops, m, id) && !FinalizeWon(ops, m, id)
    ensures LastGrant(ops, i, k, id) <= ops[k].now
    ensures exists r | i < r < k :: ReapedAt(ops, i, r, id)
  {
    HeldOrReaped(ops, i, k, id);
  }

  /** With finalizes allowed, a second claim also has an explanation: a failure with a retry window that is due. */
  lemma {:induction false} SecondClaimHasACause(ops: seq<Op>, i: nat, k: nat, id: string)
    requires WellFormedRun(ops)
    requires i < k < |ops| && ClaimWon(ops, i, id) && ClaimWon(ops, k, id)
    requires forall m | i < m < k :: !ClaimWon(ops, m, id)
    ensures
      || (exists r | i < r < k :: ops[r].Reap? && Effective(ops, r, id))
      || (exists f | i < f < k :: FinalizeWon(ops, f, id) && ops[f].terminal.Failed?
                                  && ops[f].retryAt.Some? && ops[f].retryAt.value <= ops[k].now)
  {
    if forall m | i < m < k :: !FinalizeWon(ops, m, id) {
      HeldOrReaped(ops, i, k, id);
    } else {
      var f :| i < f < k && FinalizeWon(ops, f, id);
      RowNext(ops, f, id);
      IdleUntilClaimed(ops, f + 1, k, id);
    }
  }

  /** A finished row keeps its state and retry window until it is claimed again. */
  lemma {:induction false} IdleUntilClaimed(ops: seq<Op>, n: nat, m: nat, id: string)
    requires n <= m <= |ops| && id in At(ops, n) && Terminal(At(ops, n)[id].state)
    requires forall c | n <= c < m :: !ClaimWon(ops, c, id)
    ensures id in At(ops, m) && At(ops, m)[id] == At(ops, n)[id]
    decreases m
  {
    if n < m {
      IdleUntilClaimed(ops, n, m - 1, id);
      RowNext(ops, m - 1, id);
      assert !ClaimWon(ops, m - 1, id);
    }
  }

  /** A worker that is not the holder cannot renew until it wins a claim again. */
  lemma {:induction false} LostLeaseNeverRenews(ops: seq<Op>, n: nat, m: nat, id: string, worker: string, now: int)
    requires n <= m <= |ops| && id in At(ops, n)
    requires At(ops, n)[id].leaseOwner != Some(worker)
    requires forall c | n <= c < m :: ClaimWon(ops, c, id) ==> ops[c].owner != worker
    ensures id in At(ops, m) && !Renewable(At(ops, m)[id], worker, now)
    ensures At(ops, m)[id].leaseOwner != Some(worker)
    decreases m
  {
    if n < m {
      LostLeaseNeverRenews(ops, n, m - 1, id, worker, now);
      RowNext(ops, m - 1, id);
    }
  }

  /** The claim of another worker ends a holder's right to renew. */
  lemma SupersededHolderNeverRenews(ops: seq<Op>, k: nat, m: nat, id: string, worker: string)
    requires k < m < |ops| && ClaimWon(ops, k, id) && ops[k].owner != worker
    requires forall c | k < c < m :: ClaimWon(ops, c, id) ==> ops[c].owner != worker
    ensures ops[m].Renew? && ops[m].owner == worker ==> !RenewWon(ops, m, id)
  {
    RowNext(ops, k, id);
    LostLeaseNeverRenews(ops, k + 1, m, id, worker, ops[m].now);
  }

  lemma HolderIsRunning(ops: seq<Op>, id: string)
    requires WellFormedRun(ops) && id in Replay(ops)
    ensures Replay(ops)[id].leaseOwner.Some? ==> Replay(ops)[id].state.Running?
  {
    ReachableRows(ops, id);
  }

  /** With an ordered clock, no renewal succeeds after a cancel was recorded, not even under a later claim. */
  lemma {:induction false} CancelEndsRenewals(ops: seq<Op>, c: nat, m: nat, id: string)
    requires ClockOrdered(ops)
    requires c < m < |ops| && ops[c].RequestCancel? && Effective(ops, c, id)
    ensures !RenewWon(ops, m, id)
  {
    CancelMarkStays(ops, c, m, id);
  }

  lemma {:induction false} CancelMarkStays(ops: seq<Op>, c: nat, m: nat, id: string)
    requires ClockOrdered(ops)
    requires c < m < |ops| && ops[c].RequestCancel? && Effective(ops, c, id)
    ensures id in At(ops, m)
    ensures At(ops, m)[id].cancelRequestedAt.Some? && At(ops, m)[id].cancelRequestedAt.value <= ops[m].now
    decreases m
  {
    if m == c + 1 {
      RowNext(ops, c, id);
    } else {
      CancelMarkStays(ops, c, m - 1, id);
      RowNext(ops, m - 1, id);
    }
  }

  // ---------- what the guards do not promise ----------

  /** Once worker `b` took over from `a`, any finalize, also the one `a` issues late, ends `b`'s job. */
  lemma StrangerFinishes(id: string, j: Job, a: string, b: string, t: int, e: int, e': int, op: Op)
    requires RowInvariant(j) && WaitsForClaim(j, t) && op.Finalize? && op.id == id
    ensures
      var held := RowAfter(Claim(id, a, e, t, t), id, j);
      var taken := RowAfter(Claim(id, b, e', e, e), id, RowAfter(Reap(e), id, held));
      && held.leaseOwner == Some(a) && taken.leaseOwner == Some(b)
      && RowAfter(op, id, taken).state == op.terminal && RowAfter(op, id, taken).leaseOwner.None?
  {
  }

  // ---------- the store object ----------

  /** The job half of `SQLiteMemoryStore`; `history` lists the statements issued so far. */
  class JobStore {
    var rows: Table
    ghost var history: seq<Op>

    ghost predicate Valid()
      reads this
    {
      WellFormedRun(history) && rows == Replay(history)
    }

    constructor ()
      ensures Valid() && rows == map[]
    {
      rows := map[];
      history := [];
    }

    /** Appending one statement to the history keeps `Valid` when the table moved by `Step`. */
    lemma Extends(op: Op)
      requires Valid()
      ensures Replay(history + [op]) == Step(rows, op)
    {
      assert (history + [op])[..|history|] == history;
    }

    method InsertJob(id: string, kind: string, creator: string, key: string, cursor: string, retryAt: Option<int>,
                     now: int)
      returns (inserted: bool)
      requires Valid()
      modifies this
      ensures Valid() && history == old(history) + [Insert(id, kind, creator, key, cursor, retryAt, now)]
      ensures inserted <==>
        id !in old(rows) && forall k | k in old(rows) ::
          (old(rows)[k].creator, old(rows)[k].kind, old(rows)[k].idempotencyKey) != (creator, kind, key)
      ensures rows == if inserted
                      then old(rows)[id := Job(kind, creator, key, cursor, Queued, 0, None, None, None, retryAt,
                                               None, None, now, None, now, None)]
                      else old(rows)
    {
      ghost var op := Insert(id, kind, creator, key, cursor, retryAt, now);
      Extends(op);
      inserted := id !in rows && forall k | k in rows ::
        !(rows[k].creator == creator && rows[k].kind == kind && rows[k].idempotencyKey == key);
      if inserted {
        rows := rows[id := Job(kind, creator, key, cursor, Queued, 0, None, None, None, retryAt, None, None, now, None,
                               now, None)];
      }
      history := history + [op];
    }

    method ClaimJob(id: string, owner: string, expiresAt: int, startedAt: int, now: int) returns (row: Option<Job>)
      requires Valid()
      modifies this
      ensures Valid() && history == old(history) + [Claim(id, owner, expiresAt, startedAt, now)]
      ensures row.Some? <==>
        id in old(rows)
        && (old(rows)[id].state.Queued?
            || (old(rows)[id].state.Failed? && old(rows)[id].nextRetryAt.Some?
                && old(rows)[id].nextRetryAt.value <= now))
      ensures row.Some? ==> rows == old(rows)[id := row.value] && row.value.leaseOwner == Some(owner)
                            && row.value.leaseExpiresAt == Some(expiresAt) && row.value.state.Running?
      ensures row.None? ==> rows == old(rows)
    {
      ghost var op := Claim(id, owner, expiresAt, startedAt, now);
      Extends(op);
      StepOfOne(rows, op);
      row := None;
      if id in rows {
        LeaseClauseRedundant(history, id, now);
        var j := rows[id];
        if (j.state.Queued? || (j.state.Failed? && j.nextRetryAt.Some? && j.nextRetryAt.value <= now))
           && (j.leaseOwner.None? || j.leaseExpiresAt.None? || j.leaseExpiresAt.value <= now)
        {
          var started := if j.startedAt.Some? then j.startedAt else Some(startedAt);
          row := Some(j.(leaseOwner := Some(owner), leaseExpiresAt := Some(expiresAt),
                         attemptCount := j.attemptCount + 1, state := Running, startedAt := started, updatedAt := now));
          rows := rows[id := row.value];
        }
      }
      history := history + [op];
    }

    method RequestJobCancel(id: string, now: int) returns (changed: bool)
      requires Valid()
      modifies this
      ensures Valid() && history == old(history) + [RequestCancel(id, now)]
      ensures changed <==> id in old(rows) && (old(rows)[id].state.Queued? || old(rows)[id].state.Running?)
      ensures !changed ==> rows == old(rows)
    {
      ghost var op := RequestCancel(id, now);
      Extends(op);
      StepOfOne(rows, op);
      changed := id in rows && !rows[id].state.Succeeded? && !rows[id].state.Failed? && !rows[id].state.Cancelled?;
      if changed {
        rows := rows[id := rows[id].(cancelRequestedAt := Some(now), updatedAt := now)];
      }
      history := history + [op];
    }

    method FinalizeJob(id: string, terminal: State, cursor: Option<string>, errorCode: Option<string>,
                       redactedError: Option<string>, retryAt: Option<int>, now: int) returns (row: Option<Job>)
      requires Valid() && terminal in {Succeeded, Failed, Cancelled}
      modifies this
      ensures Valid()
      ensures history == old(history) + [Finalize(id, terminal, cursor, errorCode, redactedError, retryAt, now)]
      ensures row.Some? <==> id in old(rows) && old(rows)[id].state.Running?
      ensures row.Some? ==>
          rows == old(rows)[id := row.value] && row.value.state == terminal && row.value.finishedAt.Some?
                            && row.value.leaseOwner.None? && row.value.leaseExpiresAt.None?
                            && row.value.nextRetryAt == retryAt
      ensures row.None? ==> rows == old(rows)
    {
      ghost var op := Finalize(id, terminal, cursor, errorCode, redactedError, retryAt, now);
      Extends(op);
      StepOfOne(rows, op);
      row := None;
      if id in rows && rows[id].state.Running? {
        var j := rows[id];
        var newCursor := match cursor case Some(c) => c case None => j.cursor;
        var finished := if j.finishedAt.Some? then j.finishedAt else Some(now);
        row := Some(j.(state := terminal, cursor := newCursor, errorCode := errorCode, redactedError := redactedError,
                       nextRetryAt := retryAt, leaseOwner := None, leaseExpiresAt := None,
                       finishedAt := finished, updatedAt := now));
        rows := rows[id := row.value];
      }
      history := history + [op];
    }

    method CheckpointJob(id: string, cursor: string, now: int) returns (changed: bool)
      requires Valid()
      modifies this
      ensures Valid() && history == old(history) + [Checkpoint(id, cursor, now)]
      ensures changed <==> id in old(rows) && old(rows)[id].state.Running?
      ensures !changed ==> rows == old(rows)
    {
      ghost var op := Checkpoint(id, cursor, now);
      Extends(op);
      StepOfOne(rows, op);
      changed := id in rows && rows[id].state.Running?;
      if changed {
        rows := rows[id := rows[id].(cursor := cursor, updatedAt := now)];
      }
      history := history + [op];
    }

    method RenewLease(id: string, owner: string, expiresAt: int, now: int) returns (changed: bool)
      requires Valid()
      modifies this
      ensures Valid() && history == old(history) + [Renew(id, owner, expiresAt, now)]
      ensures changed <==> id in old(rows) && old(rows)[id].leaseOwner == Some(owner)
                           && (old(rows)[id].cancelRequestedAt.None? || old(rows)[id].cancelRequestedAt.value > now)
      ensures !changed ==> rows == old(rows)
    {
      ghost var op := Renew(id, owner, expiresAt, now);
      Extends(op);
      StepOfOne(rows, op);
      changed := false;
      if id in rows {
        HolderIsRunning(history, id);
        var j := rows[id];
        changed := j.state.Running? && j.leaseOwner == Some(owner)
                   && (j.cancelRequestedAt.None? || j.cancelRequestedAt.value > now);
        if changed {
          rows := rows[id := j.(leaseOwner := Some(owner), leaseExpiresAt := Some(expiresAt), updatedAt := now)];
        }
      }
      history := history + [op];
    }

    method ReapExpired(now: int) returns (count: nat)
      requires Valid()
      modifies this
      ensures Valid() && history == old(history) + [Reap(now)]
      ensures count == |set id | id in old(rows) && old(rows)[id].state.Running? && old(rows)[id].leaseExpiresAt.Some?
                                 && old(rows)[id].leaseExpiresAt.value <= now|
      ensures forall id | id in rows :: !LeaseExpired(rows[id], now)
    {
      Extends(Reap(now));
      var expired := set id | id in rows && rows[id].state.Running? && rows[id].leaseExpiresAt.Some?
                                && rows[id].leaseExpiresAt.value <= now;
      assert expired == set id | id in old(rows) && LeaseExpired(old(rows)[id], now);
      count := |expired|;
      rows := map id | id in rows :: if id in expired then Requeued(rows[id], now) else rows[id];
      assert rows == Step(old(rows), Reap(now));
      history := history + [Reap(now)];
    }

    /** The service call: reap first, then claim with the default or given lease length. */
    method ReapAndClaim(id: string, owner: string, leaseMs: int, now: int) returns (row: Option<Job>)
      requires Valid()
      modifies this
      ensures Valid() && history == old(history) + [Reap(now), Claim(id, owner, now + leaseMs, now, now)]
      ensures row.Some? <==> id in old(rows) && TakeoverReady(old(rows)[id], now)
    {
      ghost var before := history;
      var _ := ReapExpired(now);
      assert history == before + [Reap(now)];
      assert history[..|history| - 1] == before;
      if id in old(rows) {
        ReapThenClaimTakesOver(before, id, now);
        LeaseClauseRedundant(history, id, now);
      }
      row := ClaimJob(id, owner, now + leaseMs, now, now);
      assert [Reap(now), Claim(id, owner, now + leaseMs, now, now)]
          == [Reap(now)] + [Claim(id, owner, now + leaseMs, now, now)];
    }

    predicate Listable(id: string, kind: Option<string>, now: int)
      reads this
    {
      id in rows && Claimable(rows[id], now) && (kind.Some? ==> rows[id].kind == kind.value)
    }

    /** An id of the set with the smallest creation time. */
    method Oldest(ids: set<string>) returns (oldest: string)
      requires ids != {} && forall id | id in ids :: id in rows
      ensures oldest in ids && forall id | id in ids :: rows[oldest].createdAt <= rows[id].createdAt
    {
      oldest :| oldest in ids;
      var rest := ids - {oldest};
      while rest != {}
        invariant oldest in ids && rest <= ids
        invariant forall id | id in ids - rest :: rows[oldest].createdAt <= rows[id].createdAt
      {
        var id :| id in rest;
        if rows[id].createdAt < rows[oldest].createdAt {
          oldest := id;
        }
        rest := rest - {id};
      }
    }

    /** ORDER BY created_at ASC LIMIT: the oldest claimable jobs, and nothing older is left out. */
    method ListClaimable(kind: Option<string>, now: int, limit: nat) returns (ids: seq<string>)
      ensures |ids| <= limit
      ensures forall i, j | 0 <= i < j < |ids| :: ids[i] != ids[j]
      ensures forall i | 0 <= i < |ids| :: ids[i] in rows && Listable(ids[i], kind, now)
      ensures forall i, j | 0 <= i <= j < |ids| :: rows[ids[i]].createdAt <= rows[ids[j]].createdAt
      ensures forall id | Listable(id, kind, now) && id !in ids ::
        |ids| == limit && forall i | 0 <= i < |ids| :: rows[ids[i]].createdAt <= rows[id].createdAt
    {
      ids := [];
      var rest := set id | id in rows && Listable(id, kind, now);
      while rest != {} && |ids| < limit
        invariant |ids| <= limit
        invariant forall i | 0 <= i < |ids| :: ids[i] in rows && Listable(ids[i], kind, now)
        invariant forall id :: Listable(id, kind, now) <==> id in rest || id in ids
        invariant forall id | id in rest :: id !in ids
        invariant forall i, j | 0 <= i < j < |ids| :: ids[i] != ids[j]
        invariant forall i, j | 0 <= i <= j < |ids| :: rows[ids[i]].createdAt <= rows[ids[j]].createdAt
        invariant forall i, id | 0 <= i < |ids| && id in rest :: rows[ids[i]].createdAt <= rows[id].createdAt
        decreases rest
      {
        var id := Oldest(rest);
        ids := ids + [id];
        rest := rest - {id};
      }
    }
  }

  /** The list is about jobs of the given kind, if one is given, that are queued or whose retry is due. */
  lemma ListableIff(store: JobStore, id: string, kind: Option<string>, now: int)
    requires store.Valid() && id in store.rows
    ensures var j := store.rows[id];
            store.Listable(id, kind, now) <==>
              && (kind == None || kind == Some(j.kind))
              && (j.state == Queued || (j.state == Failed && j.nextRetryAt.Some? && j.nextRetryAt.value <= now))
  {
    LeaseClauseRedundant(store.history, id, now);
  }

  /** A claim wins exactly the jobs that the list without kind and limit shows. */
  lemma ClaimWinsExactlyTheListed(store: JobStore, id: string, now: int)
    requires store.Valid()
    ensures store.Listable(id, None, now) <==> id in store.rows && WaitsForClaim(store.rows[id], now)
  {
    if id in store.rows {
      LeaseClauseRedundant(store.history, id, now);
    }
  }
}
