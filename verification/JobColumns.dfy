/**
  Every column of a job row in terms of the run: which statement last wrote it,
  and what that statement was given.
 */
module DerivationJobColumns {
  import opened Common
  import opened DerivationJobs

  // ---------- which statements take effect ----------

  /** Step `i` inserted job `id`, which was not there before. */
  ghost predicate Inserted(ops: seq<Op>, i: nat, id: string)
    requires i < |ops|
  {
    ops[i].Insert? && ops[i].id == id && id !in At(ops, i) && id in At(ops, i + 1)
  }

  /** Step `i` wrote the row of job `id`. */
  ghost predicate Wrote(ops: seq<Op>, i: nat, id: string)
    requires i < |ops|
  {
    Inserted(ops, i, id) || (!ops[i].Insert? && Effective(ops, i, id))
  }

  /** Which rows each statement selects, column by column. */
  lemma EffectiveIff(ops: seq<Op>, i: nat, id: string)
    requires i < |ops| && id in At(ops, i)
    ensures var op, j := ops[i], At(ops, i)[id];
      Effective(ops, i, id) <==>
        match op
        case Insert(_, _, _, _, _, _, _) => false
        case Claim(target, _, _, _, now) =>
          && target == id
          && (j.state == Queued || (j.state == Failed && j.nextRetryAt.Some? && j.nextRetryAt.value <= now))
          && (j.leaseOwner == None || j.leaseExpiresAt == None || j.leaseExpiresAt.value <= now)
        case RequestCancel(target, _) => target == id && j.state in {Queued, Running}
        case Finalize(target, _, _, _, _, _, _) => target == id && j.state == Running
        case Checkpoint(target, _, _) => target == id && j.state == Running
        case Renew(target, owner, _, now) =>
          && target == id && j.state == Running && j.leaseOwner == Some(owner)
          && (j.cancelRequestedAt == None || j.cancelRequestedAt.value > now)
        case Reap(now) => j.state == Running && j.leaseExpiresAt.Some? && j.leaseExpiresAt.value <= now
  {
  }

  // ---------- the unique key ----------

  predicate SameKey(j: Job, creator: string, kind: string, key: string) {
    j.creator == creator && j.kind == kind && j.idempotencyKey == key
  }

  ghost predicate KeysUnique(t: Table) {
    forall a, b | a in t && b in t && a != b :: !SameKey(t[a], t[b].creator, t[b].kind, t[b].idempotencyKey)
  }

  lemma KeyOfRowStays(op: Op, id: string, j: Job, creator: string, kind: string, key: string)
    ensures SameKey(RowAfter(op, id, j), creator, kind, key) <==> SameKey(j, creator, kind, key)
  {
  }

  lemma UpdateKeepsKeysUnique(t: Table, op: Op)
    requires KeysUnique(t) && !op.Insert?
    ensures KeysUnique(Step(t, op))
  {
    var t' := Step(t, op);
    forall a, b | a in t' && b in t' && a != b
      ensures !SameKey(t'[a], t'[b].creator, t'[b].kind, t'[b].idempotencyKey)
    {
      KeyOfRowStays(op, a, t[a], t[b].creator, t[b].kind, t[b].idempotencyKey);
      KeyOfRowStays(op, b, t[b], t[b].creator, t[b].kind, t[b].idempotencyKey);
    }
  }

  lemma InsertKeepsKeysUnique(t: Table, op: Op)
    requires KeysUnique(t) && op.Insert?
    ensures KeysUnique(Step(t, op))
  {
  }

  lemma StepKeepsKeysUnique(t: Table, op: Op)
    requires KeysUnique(t)
    ensures KeysUnique(Step(t, op))
  {
    if op.Insert? {
      InsertKeepsKeysUnique(t, op);
    } else {
      UpdateKeepsKeysUnique(t, op);
    }
  }

  /** No two rows of a reachable table share creator, kind and idempotency key. */
  lemma {:induction false} KeysAlwaysUnique(ops: seq<Op>)
    ensures KeysUnique(Replay(ops))
  {
    if ops != [] {
      KeysAlwaysUnique(ops[..|ops| - 1]);
      StepKeepsKeysUnique(Replay(ops[..|ops| - 1]), ops[|ops| - 1]);
    }
  }

  /** An insert goes in exactly when neither its id nor its creator, kind and key are taken. */
  lemma InsertedIff(ops: seq<Op>, i: nat)
    requires i < |ops| && ops[i].Insert?
    ensures var op := ops[i];
      Inserted(ops, i, op.id) <==>
        op.id !in At(ops, i) && forall k | k in At(ops, i) :: !SameKey(At(ops, i)[k], op.creator, op.kind, op.key)
    ensures !Inserted(ops, i, ops[i].id) ==> At(ops, i + 1) == At(ops, i)
  {
    AtNext(ops, i);
    var t, op := At(ops, i), ops[i];
    if InsertAllowed(t, op) {
      forall k | k in t
        ensures !SameKey(t[k], op.creator, op.kind, op.key)
      {
      }
    }
  }

  // ---------- the last writer of a column ----------

  /** Step `i` is the last before step `n` to write the column. */
  ghost predicate LastAt(ops: seq<Op>, n: nat, id: string, writes: Op -> bool, i: nat)
    requires n <= |ops|
  {
    i < n && Wrote(ops, i, id) && writes(ops[i]) && forall k | i < k < n && Wrote(ops, k, id) :: !writes(ops[k])
  }

  /** The value is what the last statement that writes the column gave it. */
  ghost predicate LastGave<T(!new)>(ops: seq<Op>, n: nat, id: string, writes: Op -> bool, gives: Op -> T, value: T)
    requires n <= |ops|
  {
    exists i: nat :: LastAt(ops, n, id, writes, i) && gives(ops[i]) == value
  }

  /** The column of one row through one statement. */
  ghost predicate Follows<T(!new)>(column: Job -> T, writes: Op -> bool, gives: Op -> T, op: Op, before: Job,
                                   after: Job) {
    column(after) == if writes(op) then gives(op) else column(before)
  }

  lemma LastGaveMore<T(!new)>(ops: seq<Op>, n: nat, id: string, writes: Op -> bool, gives: Op -> T, value: T)
    requires n < |ops| && LastGave(ops, n, id, writes, gives, value)
    requires Wrote(ops, n, id) ==> !writes(ops[n])
    ensures LastGave(ops, n + 1, id, writes, gives, value)
  {
    var i: nat :| LastAt(ops, n, id, writes, i) && gives(ops[i]) == value;
    LastAtMore(ops, n, id, writes, i);
  }

  lemma LastAtMore(ops: seq<Op>, n: nat, id: string, writes: Op -> bool, i: nat)
    requires n < |ops| && LastAt(ops, n, id, writes, i) && (Wrote(ops, n, id) ==> !writes(ops[n]))
    ensures LastAt(ops, n + 1, id, writes, i)
  {
  }

  lemma LastGaveNow<T(!new)>(ops: seq<Op>, n: nat, id: string, writes: Op -> bool, gives: Op -> T)
    requires n < |ops| && Wrote(ops, n, id) && writes(ops[n])
    ensures LastGave(ops, n + 1, id, writes, gives, gives(ops[n]))
  {
    assert LastAt(ops, n + 1, id, writes, n);
  }

  /** What holds of one statement holds over the run. */
  lemma {:induction false} ColumnFollows<T(!new)>(ops: seq<Op>, n: nat, id: string, column: Job -> T,
                                                  writes: Op -> bool, gives: Op -> T)
    requires n <= |ops| && id in At(ops, n)
    requires forall op: Op | op.Insert? :: writes(op) && column(NewJob(op)) == gives(op)
    requires forall op: Op, j: Job | !op.Insert? && Selects(op, id, j) ::
               Follows(column, writes, gives, op, j, Updated(op, j))
    ensures LastGave(ops, n, id, writes, gives, column(At(ops, n)[id]))
  {
    if n > 0 {
      AtNext(ops, n - 1);
      if id in At(ops, n - 1) {
        ColumnFollows(ops, n - 1, id, column, writes, gives);
        RowNext(ops, n - 1, id);
        var op, j := ops[n - 1], At(ops, n - 1)[id];
        if Wrote(ops, n - 1, id) {
          assert Follows(column, writes, gives, op, j, Updated(op, j));
          if writes(op) {
            LastGaveNow(ops, n - 1, id, writes, gives);
          } else {
            LastGaveMore(ops, n - 1, id, writes, gives, column(j));
          }
        } else {
          LastGaveMore(ops, n - 1, id, writes, gives, column(j));
        }
      } else {
        assert Wrote(ops, n - 1, id);
        LastGaveNow(ops, n - 1, id, writes, gives);
      }
    }
  }

  // ---------- the columns ----------

  predicate IsInsert(op: Op) {
    op.Insert?
  }

  datatype Identity = Identity(kind: string, creator: string, key: string, createdAt: int)

  function IdentityOf(j: Job): Identity {
    Identity(j.kind, j.creator, j.idempotencyKey, j.createdAt)
  }

  function InsertedIdentity(op: Op): Identity {
    if op.Insert? then Identity(op.kind, op.creator, op.key, op.now) else Identity("", "", "", 0)
  }

  /** Kind, creator, idempotency key and creation time are those of the job's insert. */
  lemma IdentityIsInserted(ops: seq<Op>, n: nat, id: string)
    requires n <= |ops| && id in At(ops, n)
    ensures LastGave(ops, n, id, IsInsert, InsertedIdentity, IdentityOf(At(ops, n)[id]))
  {
    ColumnFollows(ops, n, id, IdentityOf, IsInsert, InsertedIdentity);
  }

  predicate GivesCursor(op: Op) {
    op.Insert? || op.Checkpoint? || (op.Finalize? && op.newCursor.Some?)
  }

  function CursorGiven(op: Op): string {
    match op
    case Insert(_, _, _, _, cursor, _, _) => cursor
    case Checkpoint(_, cursor, _) => cursor
    case Finalize(_, _, Some(cursor), _, _, _, _) => cursor
    case _ => ""
  }

  /** The cursor is that of the last checkpoint or finalize that gave one, else the insert's. */
  lemma CursorIsLastGiven(ops: seq<Op>, n: nat, id: string)
    requires n <= |ops| && id in At(ops, n)
    ensures LastGave(ops, n, id, GivesCursor, CursorGiven, At(ops, n)[id].cursor)
  {
    var cursorOf := (j: Job) => j.cursor;
    ColumnFollows(ops, n, id, cursorOf, GivesCursor, CursorGiven);
  }

  predicate GivesState(op: Op) {
    op.Insert? || op.Claim? || op.Finalize? || op.Reap?
  }

  function StateGiven(op: Op): State {
    match op
    case Claim(_, _, _, _, _) => Running
    case Finalize(_, terminal, _, _, _, _, _) => terminal
    case _ => Queued
  }

  /** The state is what the last claim, finalize or reap made it, else queued. */
  lemma StateIsLastGiven(ops: seq<Op>, n: nat, id: string)
    requires n <= |ops| && id in At(ops, n)
    ensures LastGave(ops, n, id, GivesState, StateGiven, At(ops, n)[id].state)
  {
    var stateOf := (j: Job) => j.state;
    ColumnFollows(ops, n, id, stateOf, GivesState, StateGiven);
  }

  datatype Lease = Lease(owner: Option<string>, expiresAt: Option<int>)

  function LeaseOf(j: Job): Lease {
    Lease(j.leaseOwner, j.leaseExpiresAt)
  }

  predicate GivesLease(op: Op) {
    op.Insert? || op.Claim? || op.Renew? || op.Finalize? || op.Reap?
  }

  function LeaseGiven(op: Op): Lease {
    match op
    case Claim(_, owner, expiresAt, _, _) => Lease(Some(owner), Some(expiresAt))
    case Renew(_, owner, expiresAt, _) => Lease(Some(owner), Some(expiresAt))
    case _ => Lease(None, None)
  }

  /** The lease is that of the last claim or renewal, and none after an insert, finalize or reap. */
  lemma LeaseIsLastGiven(ops: seq<Op>, n: nat, id: string)
    requires n <= |ops| && id in At(ops, n)
    ensures LastGave(ops, n, id, GivesLease, LeaseGiven, LeaseOf(At(ops, n)[id]))
  {
    ColumnFollows(ops, n, id, LeaseOf, GivesLease, LeaseGiven);
  }

  predicate GivesRetry(op: Op) {
    op.Insert? || op.Finalize?
  }

  datatype Failure = Failure(retryAt: Option<int>, errorCode: Option<string>, redactedError: Option<string>)

  function FailureOf(j: Job): Failure {
    Failure(j.nextRetryAt, j.errorCode, j.redactedError)
  }

  function FailureGiven(op: Op): Failure {
    match op
    case Insert(_, _, _, _, _, retryAt, _) => Failure(retryAt, None, None)
    case Finalize(_, _, _, errorCode, redactedError, retryAt, _) => Failure(retryAt, errorCode, redactedError)
    case _ => Failure(None, None, None)
  }

  /** Retry time, error code and text are those of the last finalize, else the insert's retry time and no error. */
  lemma FailureIsLastGiven(ops: seq<Op>, n: nat, id: string)
    requires n <= |ops| && id in At(ops, n)
    ensures LastGave(ops, n, id, GivesRetry, FailureGiven, FailureOf(At(ops, n)[id]))
  {
    ColumnFollows(ops, n, id, FailureOf, GivesRetry, FailureGiven);
  }

  predicate GivesCancel(op: Op) {
    op.Insert? || op.RequestCancel?
  }

  function CancelGiven(op: Op): Option<int> {
    if op.RequestCancel? then Some(op.now) else None
  }

  /** The cancel mark is the time of the last recorded cancel, and none before one. */
  lemma CancelIsLastGiven(ops: seq<Op>, n: nat, id: string)
    requires n <= |ops| && id in At(ops, n)
    ensures LastGave(ops, n, id, GivesCancel, CancelGiven, At(ops, n)[id].cancelRequestedAt)
  {
    var cancelOf := (j: Job) => j.cancelRequestedAt;
    ColumnFollows(ops, n, id, cancelOf, GivesCancel, CancelGiven);
  }

  predicate GivesUpdate(op: Op) {
    true
  }

  function UpdateGiven(op: Op): int {
    op.now
  }

  /** Every statement that writes the row stamps `updated_at` with its time. */
  lemma UpdatedIsLastGiven(ops: seq<Op>, n: nat, id: string)
    requires n <= |ops| && id in At(ops, n)
    ensures LastGave(ops, n, id, GivesUpdate, UpdateGiven, At(ops, n)[id].updatedAt)
  {
    var updatedOf := (j: Job) => j.updatedAt;
    ColumnFollows(ops, n, id, updatedOf, GivesUpdate, UpdateGiven);
  }

  // ---------- columns that keep the first value ----------

  /** The value is what the first such statement gave, and none before one. */
  ghost predicate FirstGave(ops: seq<Op>, n: nat, id: string, writes: Op -> bool, gives: Op -> int, value: Option<int>)
    requires n <= |ops|
  {
    if forall i | 0 <= i < n && Wrote(ops, i, id) :: !writes(ops[i]) then value == None
    else exists i | 0 <= i < n ::
      && Wrote(ops, i, id) && writes(ops[i]) && value == Some(gives(ops[i]))
      && forall k | 0 <= k < i && Wrote(ops, k, id) :: !writes(ops[k])
  }

  lemma FirstGaveMore(ops: seq<Op>, n: nat, id: string, writes: Op -> bool, gives: Op -> int, value: Option<int>)
    requires n < |ops| && FirstGave(ops, n, id, writes, gives, value)
    ensures FirstGave(ops, n + 1, id, writes, gives,
                      if value == None && Wrote(ops, n, id) && writes(ops[n]) then Some(gives(ops[n])) else value)
  {
    if value.Some? {
      var i :| 0 <= i < n && Wrote(ops, i, id) && writes(ops[i]) && value == Some(gives(ops[i]))
               && forall k | 0 <= k < i && Wrote(ops, k, id) :: !writes(ops[k]);
    }
  }

  predicate IsClaim(op: Op) {
    op.Claim?
  }

  function StartGiven(op: Op): int {
    if op.Claim? then op.startedAt else 0
  }

  predicate IsFinalize(op: Op) {
    op.Finalize?
  }

  function FinishGiven(op: Op): int {
    op.now
  }

  lemma NothingWrote(ops: seq<Op>, n: nat, id: string)
    requires n <= |ops| && id !in At(ops, n)
    ensures forall i | 0 <= i < n :: !Wrote(ops, i, id)
  {
    forall i | 0 <= i < n
      ensures !Wrote(ops, i, id)
    {
      if Wrote(ops, i, id) {
        AtNext(ops, i);
        StampsAreWrittenOnce(ops, i + 1, n, id);
        assert false;
      }
    }
  }

  lemma FirstGaveNone(ops: seq<Op>, n: nat, id: string, writes: Op -> bool, gives: Op -> int)
    requires n < |ops| && id !in At(ops, n) && !writes(ops[n])
    ensures FirstGave(ops, n + 1, id, writes, gives, None)
  {
    NothingWrote(ops, n, id);
  }

  /** A stamp through one step: kept once set, else set by a statement that writes it. */
  ghost predicate StampFollows(ops: seq<Op>, n: nat, id: string, writes: Op -> bool, gives: Op -> int,
                               before: Option<int>, after: Option<int>)
    requires n < |ops|
  {
    after == if before == None && Wrote(ops, n, id) && writes(ops[n]) then Some(gives(ops[n])) else before
  }

  lemma StampMore(ops: seq<Op>, n: nat, id: string, writes: Op -> bool, gives: Op -> int,
                  before: Option<int>, after: Option<int>)
    requires n < |ops| && FirstGave(ops, n, id, writes, gives, before)
    requires StampFollows(ops, n, id, writes, gives, before, after)
    ensures FirstGave(ops, n + 1, id, writes, gives, after)
  {
    FirstGaveMore(ops, n, id, writes, gives, before);
  }

  lemma StampsFollow(ops: seq<Op>, n: nat, id: string)
    requires n < |ops| && id in At(ops, n)
    ensures id in At(ops, n + 1)
    ensures StampFollows(ops, n, id, IsClaim, StartGiven, At(ops, n)[id].startedAt, At(ops, n + 1)[id].startedAt)
    ensures StampFollows(ops, n, id, IsFinalize, FinishGiven, At(ops, n)[id].finishedAt, At(ops, n + 1)[id].finishedAt)
  {
    RowNext(ops, n, id);
  }

  lemma FreshStamps(ops: seq<Op>, n: nat, id: string)
    requires n < |ops| && id !in At(ops, n) && id in At(ops, n + 1)
    ensures ops[n].Insert? && At(ops, n + 1)[id].startedAt == None && At(ops, n + 1)[id].finishedAt == None
  {
    AtNext(ops, n);
  }

  /** The start is the one given by the first claim that was won. */
  lemma {:induction false} StartIsFirstGiven(ops: seq<Op>, n: nat, id: string)
    requires n <= |ops| && id in At(ops, n)
    ensures FirstGave(ops, n, id, IsClaim, StartGiven, At(ops, n)[id].startedAt)
  {
    if n == 0 {
      assert false;
    } else if id in At(ops, n - 1) {
      StartIsFirstGiven(ops, n - 1, id);
      StampsFollow(ops, n - 1, id);
      StampMore(ops, n - 1, id, IsClaim, StartGiven, At(ops, n - 1)[id].startedAt, At(ops, n)[id].startedAt);
    } else {
      FreshStamps(ops, n - 1, id);
      FirstGaveNone(ops, n - 1, id, IsClaim, StartGiven);
    }
  }

  /** The finish is the time of the first finalize. */
  lemma {:induction false} FinishIsFirstGiven(ops: seq<Op>, n: nat, id: string)
    requires n <= |ops| && id in At(ops, n)
    ensures FirstGave(ops, n, id, IsFinalize, FinishGiven, At(ops, n)[id].finishedAt)
  {
    if n == 0 {
      assert false;
    } else if id in At(ops, n - 1) {
      FinishIsFirstGiven(ops, n - 1, id);
      StampsFollow(ops, n - 1, id);
      StampMore(ops, n - 1, id, IsFinalize, FinishGiven, At(ops, n - 1)[id].finishedAt, At(ops, n)[id].finishedAt);
    } else {
      FreshStamps(ops, n - 1, id);
      FirstGaveNone(ops, n - 1, id, IsFinalize, FinishGiven);
    }
  }

  // ---------- a repeated insert ----------

  lemma KeyStays(ops: seq<Op>, n: nat, m: nat, id: string, creator: string, kind: string, key: string)
    requires n <= m <= |ops| && id in At(ops, n) && SameKey(At(ops, n)[id], creator, kind, key)
    ensures id in At(ops, m) && SameKey(At(ops, m)[id], creator, kind, key)
  {
    StampsAreWrittenOnce(ops, n, m, id);
  }

  /** Once an insert went in, every later insert with its creator, kind and key is refused and changes nothing. */
  lemma RepeatedInsertRefused(ops: seq<Op>, i: nat, k: nat)
    requires i < k < |ops| && ops[i].Insert? && Inserted(ops, i, ops[i].id)
    requires ops[k].Insert? && (ops[k].creator, ops[k].kind, ops[k].key) == (ops[i].creator, ops[i].kind, ops[i].key)
    ensures !Inserted(ops, k, ops[k].id) && At(ops, k + 1) == At(ops, k)
  {
    AtNext(ops, i);
    KeyStays(ops, i + 1, k, ops[i].id, ops[i].creator, ops[i].kind, ops[i].key);
    InsertedIff(ops, k);
  }
}
