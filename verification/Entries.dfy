/**
  Memory entries under optimistic concurrency: the entry table, its full-text
  table and its revision log, written by several processes that read a row
  outside the transaction and then update it with a guard on the revision.
 */
module MemoryEntries {
  import opened Common

  /** Columns of `memory_entries` besides `id` (the key) and `revision` (kept apart). */
  datatype Column =
    | Scope | ProjectId | ProjectPath | Type | Topic | Title | Body | Tags | Source | Importance | Confidence
    | Status | CreatedAt | UpdatedAt | LastAccessedAt | LastAccessedBy | AccessCount | ExpiresAt | ReviewAfter
    | Supersedes | SupersededBy | TokenEstimate | CharCount | WriterActorId | ContentHash | Pinned | TrustLevel
    | Sensitivity | ValidFrom | ValidUntil | DeletedAt | Tier | Metadata

  datatype Value = Number(n: int) | Text(text: string) | Texts(texts: seq<string>)

  /** A column without a cell holds NULL; a patch without a cell leaves the column alone. */
  type Cells = map<Column, Value>

  datatype Row = Row(revision: int, cells: Cells)

  const ACCESS: set<Column> := {LastAccessedAt, LastAccessedBy, AccessCount}

  const PATCH_FIELDS: set<Column> := {Topic, Title, Body, Tags, Importance, Confidence, Status, ExpiresAt, ReviewAfter,
    Supersedes, SupersededBy, TokenEstimate, CharCount, WriterActorId, Tier, Pinned, ValidFrom, ValidUntil, Sensitivity,
    TrustLevel, UpdatedAt}

  /** `{ ...current, ...sanitizeEntryPatch(patch) }` */
  function Merge(cells: Cells, patch: Cells): Cells {
    cells + map c | c in patch && c in PATCH_FIELDS :: patch[c]
  }

  /** What a reader of the entry sees apart from the tier and the access counters. */
  function Content(cells: Cells): Cells {
    cells - (ACCESS + {Tier})
  }

  datatype FtsRow = FtsRow(id: string, scope: Option<Value>, project: Option<Value>, topic: Option<Value>,
                           title: Option<Value>, body: Option<Value>, tags: string)

  function Cell(cells: Cells, c: Column): Option<Value> {
    if c in cells then Some(cells[c]) else None
  }

  function FtsOf(id: string, cells: Cells): FtsRow {
    FtsRow(id, Cell(cells, Scope), Cell(cells, ProjectId), Cell(cells, Topic), Cell(cells, Title), Cell(cells, Body),
           if Tags in cells && cells[Tags].Texts? then Join(cells[Tags].texts, " ") else "")
  }

  /** A `memory_revisions` row; the key is (memory_id, revision). */
  datatype LogRow = LogRow(snapshot: Cells, changedBy: string)

  datatype Db = Db(rows: map<string, Row>, fts: seq<FtsRow>, log: map<(string, int), LogRow>)

  // ---------- single statements ----------

  /** DELETE FROM memory_fts WHERE id = ? */
  function WithoutId(fts: seq<FtsRow>, id: string): (rest: seq<FtsRow>)
    ensures forall r :: r in rest <==> r in fts && r.id != id
    ensures |rest| <= |fts|
  {
    if fts == [] then []
    else if fts[0].id == id then WithoutId(fts[1..], id)
    else [fts[0]] + WithoutId(fts[1..], id)
  }

  function UpsertedFts(fts: seq<FtsRow>, id: string, cells: Cells): seq<FtsRow> {
    WithoutId(fts, id) + [FtsOf(id, cells)]
  }

  /** The guarded UPDATE lists every column but `tier`, which therefore keeps the stored value. */
  function CasCells(stored: Cells, next: Cells): Cells {
    (next - {Tier}) + (map c | c in stored && c == Tier :: stored[c])
  }

  /** The statements every writing transaction ends with: the row, its full-text row, and a log row if asked for. */
  function Written(db: Db, id: string, row: Row, shown: Cells, changedBy: Option<string>): Db {
    Db(db.rows[id := row], UpsertedFts(db.fts, id, shown),
       if changedBy.Some? then db.log[(id, row.revision) := LogRow(shown, changedBy.value)] else db.log)
  }

  // ---------- transactions ----------

  /** An update between its read and its guarded write. */
  datatype Pending = Pending(id: string, snapshot: Row, patch: Cells, now: int, changedBy: Option<string>)

  function Next(p: Pending): Cells {
    Merge(p.snapshot.cells, p.patch)[UpdatedAt := Number(p.now)]
  }

  datatype Outcome = Applied | Stale | LogCollision

  /** The transaction of `updateEntryWithRevision` after its read. */
  function CasOutcome(db: Db, p: Pending): Outcome {
    if p.id !in db.rows || db.rows[p.id].revision != p.snapshot.revision then Stale
    else if p.changedBy.Some? && (p.id, p.snapshot.revision + 1) in db.log then LogCollision
    else Applied
  }

  function CasResult(db: Db, p: Pending): Db {
    if CasOutcome(db, p) != Applied then db
    else Written(db, p.id, Row(p.snapshot.revision + 1, CasCells(db.rows[p.id].cells, Next(p))), Next(p), p.changedBy)
  }

  /** `updateEntry` run inside one transaction together with its read. */
  function UpdateOutcome(db: Db, id: string, changedBy: Option<string>): Outcome {
    if id !in db.rows then Stale
    else if changedBy.Some? && (id, db.rows[id].revision + 1) in db.log then LogCollision
    else Applied
  }

  function UpdateResult(db: Db, id: string, patch: Cells, changedBy: Option<string>): Db {
    if UpdateOutcome(db, id, changedBy) != Applied then db
    else
      var row := db.rows[id];
      var next := Merge(row.cells, patch);
      Written(db, id, Row(row.revision + 1, next), next, changedBy)
  }

  predicate CreateAllowed(db: Db, id: string, changedBy: Option<string>) {
    id !in db.rows && (changedBy.Some? ==> (id, 1) !in db.log)
  }

  /** `insertEntry` followed by `recordRevisionForCreate` in the same transaction. */
  function CreateResult(db: Db, id: string, cells: Cells, changedBy: Option<string>): Db {
    if !CreateAllowed(db, id, changedBy) then db
    else Written(db, id, Row(1, cells), cells, changedBy)
  }

  /** `insertEntry` alone: an imported entry keeps its revision and gets no log row. */
  function ImportResult(db: Db, id: string, row: Row): Db {
    if id in db.rows then db else Written(db, id, row, row.cells, None)
  }

  /** `insertRevisionRow`, INSERT OR IGNORE: a row of the source's history, whatever the entry's revision here. */
  function HistoryResult(db: Db, id: string, revision: int, row: LogRow): Db {
    if (id, revision) in db.log then db else db.(log := db.log[(id, revision) := row])
  }

  // ---------- interleaved runs ----------

  datatype Op =
    | Create(id: string, cells: Cells, changedBy: Option<string>)
    | Update(id: string, patch: Cells, changedBy: Option<string>)
      // the three parts of a guarded update by one client
    | Begin(client: nat, id: string, patch: Cells, expected: int, now: int, changedBy: Option<string>)
    | Busy(client: nat)
    | Attempt(client: nat)
      // a read that counts the access
    | Touch(id: string, access: Cells)
      // the parts of an import that no other statement has
    | Import(id: string, row: Row)
    | History(id: string, revision: int, logged: LogRow)

  datatype Sys = Sys(db: Db, pending: map<nat, Pending>)

  const EMPTY := Sys(Db(map[], [], map[]), map[])

  function Step(s: Sys, op: Op): Sys {
    match op
    case Create(id, cells, who) => s.(db := CreateResult(s.db, id, cells, who))
    case Update(id, patch, who) => s.(db := UpdateResult(s.db, id, patch, who))
    case Begin(client, id, patch, expected, now, who) =>
      if id in s.db.rows && s.db.rows[id].revision == expected
      then s.(pending := s.pending[client := Pending(id, s.db.rows[id], patch, now, who)])
      else s.(pending := s.pending - {client})
    case Busy(_) => s
    case Attempt(client) =>
      if client in s.pending
      then Sys(CasResult(s.db, s.pending[client]), s.pending - {client})
      else s
    case Touch(id, access) => s.(db := TouchResult(s.db, id, access))
    case Import(id, row) => s.(db := ImportResult(s.db, id, row))
    case History(id, revision, row) => s.(db := HistoryResult(s.db, id, revision, row))
  }

  function TouchedCells(cells: Cells, access: Cells): Cells {
    cells + map c | c in access && c in ACCESS :: access[c]
  }

  function TouchResult(db: Db, id: string, access: Cells): Db {
    if id !in db.rows then db
    else db.(rows := db.rows[id := db.rows[id].(cells := TouchedCells(db.rows[id].cells, access))])
  }

  function Replay(ops: seq<Op>): Sys {
    if ops == [] then EMPTY else Step(Replay(ops[..|ops| - 1]), ops[|ops| - 1])
  }

  function At(ops: seq<Op>, n: nat): Sys
    requires n <= |ops|
  {
    Replay(ops[..n])
  }

  lemma AtNext(ops: seq<Op>, n: nat)
    requires n < |ops|
    ensures At(ops, n + 1) == Step(At(ops, n), ops[n])
  {
    assert ops[..n + 1][..n] == ops[..n];
  }

  /** Step `op` commits an update of entry `id`. */
  predicate Commits(s: Sys, op: Op, id: string) {
    match op
    case Update(target, _, who) => target == id && UpdateOutcome(s.db, id, who) == Applied
    case Attempt(client) => client in s.pending && s.pending[client].id == id
        && CasOutcome(s.db, s.pending[client]) == Applied
    case _ => false
  }

  function CommitCount(ops: seq<Op>, id: string): nat {
    if ops == [] then 0
    else CommitCount(ops[..|ops| - 1], id) + (if Commits(Replay(ops[..|ops| - 1]), ops[|ops| - 1], id) then 1 else 0)
  }

  // ---------- revisions ----------

  /** What one step does to the revision of an existing entry. */
  lemma RevisionStep(s: Sys, op: Op, id: string)
    requires id in s.db.rows
    ensures id in Step(s, op).db.rows
    ensures Step(s, op).db.rows[id].revision == s.db.rows[id].revision + (if Commits(s, op, id) then 1 else 0)
  {
  }

  /** The revision an entry starts at: 1, or that of the imported row. */
  function StartOf(op: Op): int {
    if op.Import? then op.row.revision else 1
  }

  function StartRevision(ops: seq<Op>, id: string): int {
    if ops == [] then 1
    else if id !in Replay(ops[..|ops| - 1]).db.rows && id in Replay(ops).db.rows then StartOf(ops[|ops| - 1])
    else StartRevision(ops[..|ops| - 1], id)
  }

  lemma StartStep(s: Sys, op: Op, id: string)
    requires id !in s.db.rows
    ensures !Commits(s, op, id) || (op.Attempt? && op.client in s.pending && s.pending[op.client].id == id)
    ensures id in Step(s, op).db.rows ==> (op.Create? || op.Import?) && Step(s, op).db.rows[id].revision == StartOf(op)
  {
  }

  /** Revision = the revision the entry started at + number of committed updates. */
  lemma {:induction false} RevisionCountsCommits(ops: seq<Op>, id: string)
    ensures id in Replay(ops).db.rows ==>
              Replay(ops).db.rows[id].revision == StartRevision(ops, id) + CommitCount(ops, id)
    ensures id !in Replay(ops).db.rows ==> CommitCount(ops, id) == 0
  {
    if ops != [] {
      var before, op := ops[..|ops| - 1], ops[|ops| - 1];
      RevisionCountsCommits(before, id);
      if id in Replay(before).db.rows {
        RevisionStep(Replay(before), op, id);
      } else {
        StartStep(Replay(before), op, id);
      }
    }
  }

  lemma {:induction false} RevisionsGrow(ops: seq<Op>, n: nat, m: nat, id: string)
    requires n <= m <= |ops| && id in At(ops, n).db.rows
    ensures id in At(ops, m).db.rows
    ensures At(ops, n).db.rows[id].revision <= At(ops, m).db.rows[id].revision
    decreases m
  {
    if n < m {
      RevisionsGrow(ops, n, m - 1, id);
      AtNext(ops, m - 1);
      RevisionStep(At(ops, m - 1), ops[m - 1], id);
    }
  }

  /** At most one writer succeeds per revision value. */
  lemma OneWinnerPerRevision(ops: seq<Op>, i: nat, k: nat, id: string)
    requires i < k < |ops| && Commits(At(ops, i), ops[i], id) && Commits(At(ops, k), ops[k], id)
    ensures id in At(ops, i).db.rows && id in At(ops, k).db.rows
    ensures At(ops, i).db.rows[id].revision < At(ops, k).db.rows[id].revision
  {
    AtNext(ops, i);
    RevisionStep(At(ops, i), ops[i], id);
    RevisionsGrow(ops, i + 1, k, id);
  }

  // ---------- no lost update ----------

  /** While the revision is the one it read, a pending update still holds the stored row up to access columns. */
  ghost predicate PendingFresh(s: Sys) {
    forall c | c in s.pending ::
      var p := s.pending[c];
      && p.id in s.db.rows
      && p.snapshot.revision <= s.db.rows[p.id].revision
      && (p.snapshot.revision == s.db.rows[p.id].revision ==>
          s.db.rows[p.id].cells - ACCESS == p.snapshot.cells - ACCESS)
  }

  lemma PendingFreshKept(s: Sys, op: Op)
    requires PendingFresh(s)
    ensures PendingFresh(Step(s, op))
  {
    var s' := Step(s, op);
    forall c | c in s'.pending
      ensures var p := s'.pending[c];
        && p.id in s'.db.rows
        && p.snapshot.revision <= s'.db.rows[p.id].revision
        && (p.snapshot.revision == s'.db.rows[p.id].revision ==>
            s'.db.rows[p.id].cells - ACCESS == p.snapshot.cells - ACCESS)
    {
      var p := s'.pending[c];
      if c in s.pending && s.pending[c] == p {
        RevisionStep(s, op, p.id);
        if op.Touch? && op.id == p.id {
          assert s'.db.rows[p.id].cells - ACCESS == s.db.rows[p.id].cells - ACCESS;
        }
      }
    }
  }

  lemma {:induction false} PendingIsFresh(ops: seq<Op>)
    ensures PendingFresh(Replay(ops))
  {
    if ops != [] {
      PendingIsFresh(ops[..|ops| - 1]);
      PendingFreshKept(Replay(ops[..|ops| - 1]), ops[|ops| - 1]);
    }
  }

  lemma CellsApart(a: Cells, b: Cells, c: Column)
    requires a - ACCESS == b - ACCESS && c !in ACCESS
    ensures Cell(a, c) == Cell(b, c)
  {
    assert c in a <==> c in a - ACCESS;
    assert c in b <==> c in b - ACCESS;
    if c in a {
      assert a[c] == (a - ACCESS)[c] == (b - ACCESS)[c] == b[c];
    }
  }

  /** Patching a snapshot that differs in access columns only gives the content of patching the row itself. */
  lemma StaleAccessOnly(stored: Cells, snapshot: Cells, patch: Cells, now: int)
    requires stored - ACCESS == snapshot - ACCESS
    ensures Content(CasCells(stored, Merge(snapshot, patch)[UpdatedAt := Number(now)]))
            == Content(Merge(stored, patch)[UpdatedAt := Number(now)])
  {
    var left := Content(CasCells(stored, Merge(snapshot, patch)[UpdatedAt := Number(now)]));
    var right := Content(Merge(stored, patch)[UpdatedAt := Number(now)]);
    forall c: Column
      ensures Cell(left, c) == Cell(right, c)
    {
      if c !in ACCESS {
        CellsApart(stored, snapshot, c);
      }
    }
    SameCells(left, right);
  }

  lemma SameCells(a: Cells, b: Cells)
    requires forall c: Column :: Cell(a, c) == Cell(b, c)
    ensures a == b
  {
    forall c: Column
      ensures c in a <==> c in b
      ensures c in a ==> a[c] == b[c]
    {
      assert Cell(a, c) == Cell(b, c);
    }
  }

  /** A successful guarded update applies its patch to the content committed just before it. */
  lemma NoLostUpdate(ops: seq<Op>, n: nat)
    requires n < |ops| && ops[n].Attempt? && ops[n].client in At(ops, n).pending
    requires CasOutcome(At(ops, n).db, At(ops, n).pending[ops[n].client]) == Applied
    ensures var p := At(ops, n).pending[ops[n].client];
      && p.id in At(ops, n).db.rows && p.id in At(ops, n + 1).db.rows
      && Content(At(ops, n + 1).db.rows[p.id].cells)
         == Content(Merge(At(ops, n).db.rows[p.id].cells, p.patch)[UpdatedAt := Number(p.now)])
      && At(ops, n + 1).db.rows[p.id].revision == At(ops, n).db.rows[p.id].revision + 1
  {
    PendingIsFresh(ops[..n]);
    AtNext(ops, n);
    var p := At(ops, n).pending[ops[n].client];
    StaleAccessOnly(At(ops, n).db.rows[p.id].cells, p.snapshot.cells, p.patch, p.now);
  }

  /** Once applied, an attempt can never apply again, however often it is retried. */
  lemma AppliedAttemptNeverReapplies(ops: seq<Op>, i: nat, m: nat, client: nat)
    requires i < m <= |ops| && ops[i] == Attempt(client) && client in At(ops, i).pending
    requires CasOutcome(At(ops, i).db, At(ops, i).pending[client]) == Applied
    ensures CasOutcome(At(ops, m).db, At(ops, i).pending[client]) == Stale
  {
    var p := At(ops, i).pending[client];
    AtNext(ops, i);
    RevisionStep(At(ops, i), ops[i], p.id);
    RevisionsGrow(ops, i + 1, m, p.id);
  }

  // ---------- what the guarded update does not keep ----------

  /**
    The guarded UPDATE never writes the tier, while the logged snapshot carries the
    patched one: the two agree exactly when the patch leaves the stored tier as it is.
   */
  lemma SnapshotTierAgreesIff(ops: seq<Op>, n: nat)
    requires n < |ops| && ops[n].Attempt? && ops[n].client in At(ops, n).pending
    requires CasOutcome(At(ops, n).db, At(ops, n).pending[ops[n].client]) == Applied
    requires At(ops, n).pending[ops[n].client].changedBy.Some?
    ensures var p := At(ops, n).pending[ops[n].client];
      var db, db' := At(ops, n).db, At(ops, n + 1).db;
      && p.id in db.rows && p.id in db'.rows && (p.id, db'.rows[p.id].revision) in db'.log
      && Cell(db'.rows[p.id].cells, Tier) == Cell(db.rows[p.id].cells, Tier)
      && (Cell(db'.log[(p.id, db'.rows[p.id].revision)].snapshot, Tier) == Cell(db'.rows[p.id].cells, Tier)
          <==> (Tier in p.patch ==> Some(p.patch[Tier]) == Cell(db.rows[p.id].cells, Tier)))
  {
    PendingIsFresh(ops[..n]);
    AtNext(ops, n);
    var p := At(ops, n).pending[ops[n].client];
    CellsApart(At(ops, n).db.rows[p.id].cells, p.snapshot.cells, Tier);
  }

  /**
    It does write the access columns back as they were read, so accesses counted in
    between survive only if there were none.
   */
  lemma AccessSurvivesIff(ops: seq<Op>, n: nat, c: Column)
    requires n < |ops| && ops[n].Attempt? && ops[n].client in At(ops, n).pending && c in ACCESS
    requires CasOutcome(At(ops, n).db, At(ops, n).pending[ops[n].client]) == Applied
    ensures var p := At(ops, n).pending[ops[n].client];
      && p.id in At(ops, n + 1).db.rows
      && (Cell(At(ops, n + 1).db.rows[p.id].cells, c) == Cell(At(ops, n).db.rows[p.id].cells, c)
          <==> Cell(At(ops, n).db.rows[p.id].cells, c) == Cell(p.snapshot.cells, c))
  {
    AtNext(ops, n);
    var p := At(ops, n).pending[ops[n].client];
    NextKeepsAccess(p, At(ops, n).db.rows[p.id].cells, c);
  }

  lemma NextKeepsAccess(p: Pending, stored: Cells, c: Column)
    requires c in ACCESS
    ensures Cell(CasCells(stored, Next(p)), c) == Cell(p.snapshot.cells, c)
  {
    assert c !in PATCH_FIELDS;
  }

  // ---------- the full-text table ----------

  ghost predicate DistinctIds(fts: seq<FtsRow>) {
    forall i, j | 0 <= i < j < |fts| :: fts[i].id != fts[j].id
  }

  /** Exactly one full-text row per entry, and it shows the entry's current fields. */
  ghost predicate FtsAgrees(db: Db) {
    && DistinctIds(db.fts)
    && (forall r | r in db.fts :: r.id in db.rows && r == FtsOf(r.id, db.rows[r.id].cells))
    && (forall id | id in db.rows :: FtsOf(id, db.rows[id].cells) in db.fts)
  }

  lemma {:induction false} DeleteKeepsDistinct(fts: seq<FtsRow>, id: string)
    requires DistinctIds(fts)
    ensures DistinctIds(WithoutId(fts, id))
  {
    if fts != [] {
      DeleteKeepsDistinct(fts[1..], id);
      forall r | r in WithoutId(fts[1..], id)
        ensures r.id != fts[0].id
      {
        assert r in fts[1..];
      }
    }
  }

  lemma UpsertKeepsDistinct(fts: seq<FtsRow>, id: string, cells: Cells)
    requires DistinctIds(fts)
    ensures DistinctIds(UpsertedFts(fts, id, cells))
  {
    DeleteKeepsDistinct(fts, id);
    var all, rest := UpsertedFts(fts, id, cells), WithoutId(fts, id);
    forall i, j | 0 <= i < j < |all|
      ensures all[i].id != all[j].id
    {
      assert rest[i] in rest;
    }
  }

  /** Writing a row together with its full-text row keeps the tables in agreement. */
  lemma WrittenFtsAgrees(db: Db, id: string, row: Row, shown: Cells, changedBy: Option<string>)
    requires FtsAgrees(db) && FtsOf(id, row.cells) == FtsOf(id, shown)
    ensures FtsAgrees(Written(db, id, row, shown, changedBy))
  {
    var fts, rest := UpsertedFts(db.fts, id, shown), WithoutId(db.fts, id);
    UpsertKeepsDistinct(db.fts, id, shown);
    assert fts[|rest|] == FtsOf(id, shown);
    forall k: string | k in db.rows && k != id
      ensures FtsOf(k, db.rows[k].cells) in fts
    {
      assert FtsOf(k, db.rows[k].cells) in rest;
    }
  }

  lemma SameFtsAgrees(db: Db, db': Db)
    requires FtsAgrees(db) && db'.rows == db.rows && db'.fts == db.fts
    ensures FtsAgrees(db')
  {
  }

  lemma CasShowsNext(id: string, stored: Cells, next: Cells)
    ensures FtsOf(id, CasCells(stored, next)) == FtsOf(id, next)
    ensures Content(CasCells(stored, next)) == Content(next)
  {
  }

  lemma TouchShowsNothing(id: string, cells: Cells, access: Cells)
    ensures FtsOf(id, TouchedCells(cells, access)) == FtsOf(id, cells)
    ensures Content(TouchedCells(cells, access)) == Content(cells)
  {
  }

  lemma CasFtsAgrees(db: Db, p: Pending)
    requires FtsAgrees(db)
    ensures FtsAgrees(CasResult(db, p))
  {
    if CasOutcome(db, p) == Applied {
      var stored := db.rows[p.id].cells;
      CasShowsNext(p.id, stored, Next(p));
      WrittenFtsAgrees(db, p.id, Row(p.snapshot.revision + 1, CasCells(stored, Next(p))), Next(p), p.changedBy);
    }
  }

  lemma UpdateFtsAgrees(db: Db, id: string, patch: Cells, who: Option<string>)
    requires FtsAgrees(db)
    ensures FtsAgrees(UpdateResult(db, id, patch, who))
  {
    if UpdateOutcome(db, id, who) == Applied {
      var next := Merge(db.rows[id].cells, patch);
      WrittenFtsAgrees(db, id, Row(db.rows[id].revision + 1, next), next, who);
    }
  }

  lemma TouchFtsAgrees(db: Db, id: string, access: Cells)
    requires FtsAgrees(db)
    ensures FtsAgrees(TouchResult(db, id, access))
  {
    if id in db.rows {
      TouchShowsNothing(id, db.rows[id].cells, access);
    }
  }

  lemma CreateFtsAgrees(db: Db, id: string, cells: Cells, who: Option<string>)
    requires FtsAgrees(db)
    ensures FtsAgrees(CreateResult(db, id, cells, who))
  {
    WrittenFtsAgrees(db, id, Row(1, cells), cells, who);
  }

  lemma ImportFtsAgrees(db: Db, id: string, row: Row)
    requires FtsAgrees(db)
    ensures FtsAgrees(ImportResult(db, id, row))
  {
    WrittenFtsAgrees(db, id, row, row.cells, None);
  }

  lemma FtsAgreesKept(s: Sys, op: Op)
    requires FtsAgrees(s.db)
    ensures FtsAgrees(Step(s, op).db)
  {
    match op
    case Create(id, cells, who) => CreateFtsAgrees(s.db, id, cells, who);
    case Update(id, patch, who) => UpdateFtsAgrees(s.db, id, patch, who);
    case Attempt(client) => if client in s.pending { CasFtsAgrees(s.db, s.pending[client]); }
    case Touch(id, access) => TouchFtsAgrees(s.db, id, access);
    case Import(id, row) => ImportFtsAgrees(s.db, id, row);
    case History(id, revision, row) => SameFtsAgrees(s.db, HistoryResult(s.db, id, revision, row));
    case Busy(_) =>
    case Begin(_, _, _, _, _, _) =>
  }

  lemma {:induction false} FtsAlwaysAgrees(ops: seq<Op>)
    ensures FtsAgrees(Replay(ops).db)
  {
    if ops != [] {
      FtsAlwaysAgrees(ops[..|ops| - 1]);
      FtsAgreesKept(Replay(ops[..|ops| - 1]), ops[|ops| - 1]);
    }
  }

  // ---------- the revision log ----------

  /** The log rows that came in with an import; a row the log already had is left in place. */
  function Imported(ops: seq<Op>): set<(string, int)> {
    if ops == [] then {}
    else
      var before, op := ops[..|ops| - 1], ops[|ops| - 1];
      Imported(before)
      + if op.History? && (op.id, op.revision) !in Replay(before).db.log then {(op.id, op.revision)} else {}
  }

  /** A log row of the program's own is at or below the entry's revision, and at the revision it shows the content. */
  ghost predicate RowAgrees(db: Db, k: (string, int))
    requires k in db.log
  {
    && k.0 in db.rows && k.1 <= db.rows[k.0].revision
    && (k.1 == db.rows[k.0].revision ==> Content(db.log[k].snapshot) == Content(db.rows[k.0].cells))
  }

  ghost predicate LogAgrees(db: Db, imported: set<(string, int)>) {
    && (forall k | k in imported :: k in db.log)
    && (forall k | k in db.log && k !in imported :: RowAgrees(db, k))
  }

  lemma WrittenLogAgrees(db: Db, id: string, row: Row, shown: Cells, changedBy: Option<string>,
                         imported: set<(string, int)>)
    requires LogAgrees(db, imported) && Content(row.cells) == Content(shown)
    requires id in db.rows ==> row.revision == db.rows[id].revision + 1
    requires changedBy.Some? ==> (id, row.revision) !in db.log
    ensures LogAgrees(Written(db, id, row, shown, changedBy), imported)
  {
    var db' := Written(db, id, row, shown, changedBy);
    forall k | k in db'.log && k !in imported
      ensures RowAgrees(db', k)
    {
      if k in db.log {
        assert RowAgrees(db, k);
      }
    }
  }

  lemma CasLogAgrees(db: Db, p: Pending, imported: set<(string, int)>)
    requires LogAgrees(db, imported)
    ensures LogAgrees(CasResult(db, p), imported)
  {
    if CasOutcome(db, p) == Applied {
      var stored := db.rows[p.id].cells;
      CasShowsNext(p.id, stored, Next(p));
      WrittenLogAgrees(db, p.id, Row(p.snapshot.revision + 1, CasCells(stored, Next(p))), Next(p), p.changedBy,
                       imported);
    }
  }

  lemma UpdateLogAgrees(db: Db, id: string, patch: Cells, who: Option<string>, imported: set<(string, int)>)
    requires LogAgrees(db, imported)
    ensures LogAgrees(UpdateResult(db, id, patch, who), imported)
  {
    if UpdateOutcome(db, id, who) == Applied {
      var next := Merge(db.rows[id].cells, patch);
      WrittenLogAgrees(db, id, Row(db.rows[id].revision + 1, next), next, who, imported);
    }
  }

  lemma CreateLogAgrees(db: Db, id: string, cells: Cells, who: Option<string>, imported: set<(string, int)>)
    requires LogAgrees(db, imported)
    ensures LogAgrees(CreateResult(db, id, cells, who), imported)
  {
    if CreateAllowed(db, id, who) {
      WrittenLogAgrees(db, id, Row(1, cells), cells, who, imported);
    }
  }

  lemma TouchLogAgrees(db: Db, id: string, access: Cells, imported: set<(string, int)>)
    requires LogAgrees(db, imported) && id in db.rows
    ensures LogAgrees(TouchResult(db, id, access), imported)
  {
    TouchShowsNothing(id, db.rows[id].cells, access);
    forall k | k in db.log && k !in imported
      ensures RowAgrees(TouchResult(db, id, access), k)
    {
      assert RowAgrees(db, k);
    }
  }

  lemma HistoryLogAgrees(db: Db, id: string, revision: int, row: LogRow, imported: set<(string, int)>)
    requires LogAgrees(db, imported)
    ensures LogAgrees(HistoryResult(db, id, revision, row),
                      imported + if (id, revision) !in db.log then {(id, revision)} else {})
  {
    var db' := HistoryResult(db, id, revision, row);
    forall k | k in db.log && k !in imported
      ensures RowAgrees(db', k)
    {
      assert RowAgrees(db, k);
    }
  }

  lemma LogAgreesKept(s: Sys, op: Op, imported: set<(string, int)>)
    requires LogAgrees(s.db, imported)
    ensures LogAgrees(Step(s, op).db, imported + if op.History? && (op.id, op.revision) !in s.db.log
                                                then {(op.id, op.revision)} else {})
  {
    assert imported + {} == imported;
    match op
    case Create(id, cells, who) => CreateLogAgrees(s.db, id, cells, who, imported);
    case Update(id, patch, who) => UpdateLogAgrees(s.db, id, patch, who, imported);
    case Attempt(client) => if client in s.pending { CasLogAgrees(s.db, s.pending[client], imported); }
    case Touch(id, access) => if id in s.db.rows { TouchLogAgrees(s.db, id, access, imported); }
    case Import(id, row) => if id !in s.db.rows { WrittenLogAgrees(s.db, id, row, row.cells, None, imported); }
    case History(id, revision, row) => HistoryLogAgrees(s.db, id, revision, row, imported);
    case Busy(_) =>
    case Begin(_, _, _, _, _, _) =>
  }

  /**
    In every run, imports included: a log row that no import brought is at or
    below its entry's revision, and the one at the revision shows the content.
   */
  lemma {:induction false} LogAlwaysAgrees(ops: seq<Op>)
    ensures LogAgrees(Replay(ops).db, Imported(ops))
  {
    if ops != [] {
      LogAlwaysAgrees(ops[..|ops| - 1]);
      LogAgreesKept(Replay(ops[..|ops| - 1]), ops[|ops| - 1], Imported(ops[..|ops| - 1]));
    }
  }

  // ---------- when the log's key collides ----------

  /** The entry is here and an import has brought a log row for the revision after its own. */
  ghost predicate Ahead(ops: seq<Op>, id: string) {
    id in Replay(ops).db.rows && (id, Replay(ops).db.rows[id].revision + 1) in Imported(ops)
  }

  /**
    The log's primary key collides exactly when an import brought the row for the
    revision to be written; apart from that an attempt fails only because the
    row moved on.
   */
  lemma CollidesIff(ops: seq<Op>, p: Pending, id: string, who: Option<string>)
    ensures var s := Replay(ops).db;
      && (CasOutcome(s, p) == LogCollision <==>
            p.id in s.rows && s.rows[p.id].revision == p.snapshot.revision && p.changedBy.Some? && Ahead(ops, p.id))
      && (UpdateOutcome(s, id, who) == LogCollision <==> who.Some? && Ahead(ops, id))
      && (CreateAllowed(s, id, who) <==> id !in s.rows && (who.Some? ==> (id, 1) !in Imported(ops)))
  {
    LogAlwaysAgrees(ops);
    BeyondIsImported(Replay(ops).db, p.id, Imported(ops));
    BeyondIsImported(Replay(ops).db, id, Imported(ops));
  }

  predicate NoHistory(ops: seq<Op>) {
    forall i | 0 <= i < |ops| :: !ops[i].History?
  }

  lemma {:induction false} NothingImported(ops: seq<Op>)
    requires NoHistory(ops)
    ensures Imported(ops) == {}
  {
    if ops != [] {
      NothingImported(ops[..|ops| - 1]);
    }
  }

  /** So without imported history the key never collides. */
  lemma NoLogCollision(ops: seq<Op>, p: Pending, id: string, who: Option<string>)
    requires NoHistory(ops)
    ensures CasOutcome(Replay(ops).db, p) != LogCollision
    ensures UpdateOutcome(Replay(ops).db, id, who) != LogCollision
    ensures CreateAllowed(Replay(ops).db, id, who) <==> id !in Replay(ops).db.rows
  {
    NothingImported(ops);
    CollidesIff(ops, p, id, who);
  }

  /** The step commits an update of the entry that passes no revision context. */
  predicate CommitsUnlogged(s: Sys, op: Op, id: string) {
    Commits(s, op, id) && if op.Attempt? then s.pending[op.client].changedBy.None? else op.changedBy.None?
  }

  /** The entry is at this revision and the log already holds the next one. */
  predicate BlockedAt(db: Db, id: string, revision: int) {
    id in db.rows && db.rows[id].revision == revision && (id, revision + 1) in db.log
  }

  lemma BlockedStep(s: Sys, op: Op, id: string, revision: int)
    requires BlockedAt(s.db, id, revision) && !CommitsUnlogged(s, op, id)
    ensures BlockedAt(Step(s, op).db, id, revision)
  {
    RevisionStep(s, op, id);
  }

  /**
    Once the log is ahead of an entry, every update that passes a revision
    context fails, until one that passes none commits.
   */
  lemma {:induction false} AheadBlocksUpdates(ops: seq<Op>, n: nat, m: nat, id: string, revision: int)
    requires n <= m <= |ops| && BlockedAt(At(ops, n).db, id, revision)
    requires forall i | n <= i < m :: !CommitsUnlogged(At(ops, i), ops[i], id)
    ensures BlockedAt(At(ops, m).db, id, revision)
    decreases m
  {
    if n < m {
      AheadBlocksUpdates(ops, n, m - 1, id, revision);
      AtNext(ops, m - 1);
      BlockedStep(At(ops, m - 1), ops[m - 1], id, revision);
    }
  }

  /** A live entry at revision 1, and a bundle that holds the source's history of it up to revision 3. */
  function SkippedImport(id: string, cells: Cells, who: string, row: LogRow): seq<Op> {
    [Create(id, cells, Some(who)), History(id, 1, row), History(id, 2, row), History(id, 3, row)]
  }

  lemma ReplayMore(ops: seq<Op>, op: Op)
    ensures Replay(ops + [op]) == Step(Replay(ops), op)
  {
    assert (ops + [op])[..|ops|] == ops;
  }

  /** The import leaves the entry alone and its first log row in place, and then the next update collides. */
  lemma SkippedImportCollides(id: string, cells: Cells, who: string, row: LogRow)
    ensures var s := Replay(SkippedImport(id, cells, who, row)).db;
      && id in s.rows && s.rows[id] == Row(1, cells) && (id, 1) in s.log && s.log[(id, 1)] == LogRow(cells, who)
      && UpdateOutcome(s, id, Some(who)) == LogCollision && UpdateOutcome(s, id, None) == Applied
  {
    var created := [Create(id, cells, Some(who))];
    ReplayMore([], created[0]);
    assert [] + created == created;
    ReplayMore(created, History(id, 1, row));
    ReplayMore(created + [History(id, 1, row)], History(id, 2, row));
    ReplayMore(created + [History(id, 1, row)] + [History(id, 2, row)], History(id, 3, row));
    assert SkippedImport(id, cells, who, row)
        == created + [History(id, 1, row)] + [History(id, 2, row)] + [History(id, 3, row)];
  }

  // ---------- gaps ----------

  function UpTo(n: int): (r: set<int>)
    ensures forall k :: k in r <==> 1 <= k <= n
    decreases n
  {
    if n < 1 then {} else UpTo(n - 1) + {n}
  }

  /** The revisions that a step takes the entry through without a log row of its own. */
  function StepSkips(s: Sys, op: Op, id: string): set<int> {
    match op
    case Create(target, _, who) => if target == id && CreateAllowed(s.db, id, who) && who.None? then {1} else {}
    case Import(target, row) => if target == id && id !in s.db.rows then UpTo(row.revision) else {}
    case _ =>
      if CommitsUnlogged(s, op, id) && id in s.db.rows && s.db.rows[id].revision >= 0 then {s.db.rows[id].revision + 1}
      else {}
  }

  function Skipped(ops: seq<Op>, id: string): set<int> {
    if ops == [] then {}
    else Skipped(ops[..|ops| - 1], id) + StepSkips(Replay(ops[..|ops| - 1]), ops[|ops| - 1], id)
  }

  /** Revisions 1..revision of the entry are all in the log. */
  ghost predicate Gapless(db: Db, id: string)
    requires id in db.rows
  {
    forall r: int | 1 <= r <= db.rows[id].revision :: (id, r) in db.log
  }

  /**
    Each revision from 1 to the entry's is logged exactly when it was not skipped,
    or an import brought its row; the other rows begin where the entry did.
   */
  ghost predicate LogExplained(db: Db, id: string, start: int, skipped: set<int>, imported: set<(string, int)>) {
    if id in db.rows then
      && start <= db.rows[id].revision
      && (forall r: int | (id, r) in db.log && (id, r) !in imported :: start <= r)
      && (forall r: int | 1 <= r <= db.rows[id].revision :: (id, r) in db.log <==> r !in skipped || (id, r) in imported)
      && (forall r | r in skipped :: 1 <= r <= db.rows[id].revision)
    else skipped == {}
  }

  function NowImported(s: Sys, op: Op): set<(string, int)> {
    if op.History? && (op.id, op.revision) !in s.db.log then {(op.id, op.revision)} else {}
  }

  lemma BeyondIsImported(db: Db, id: string, imported: set<(string, int)>)
    requires LogAgrees(db, imported)
    ensures forall r: int | (id, r) in db.log && (id, r) !in imported :: id in db.rows && r <= db.rows[id].revision
  {
    forall r: int | (id, r) in db.log && (id, r) !in imported
      ensures id in db.rows && r <= db.rows[id].revision
    {
      assert RowAgrees(db, (id, r));
    }
  }

  lemma StartExplained(s: Sys, op: Op, id: string, imported: set<(string, int)>)
    requires LogAgrees(s.db, imported) && id !in s.db.rows
    ensures LogExplained(Step(s, op).db, id, StartOf(op), StepSkips(s, op, id), imported + NowImported(s, op))
  {
    StartStep(s, op, id);
    BeyondIsImported(s.db, id, imported);
  }

  lemma CommitExplained(s: Sys, op: Op, id: string, start: int, skipped: set<int>,
                         imported: set<(string, int)>)
    requires LogAgrees(s.db, imported) && id in s.db.rows && Commits(s, op, id)
    requires LogExplained(s.db, id, start, skipped, imported)
    ensures LogExplained(Step(s, op).db, id, start, skipped + StepSkips(s, op, id), imported)
  {
    var top := s.db.rows[id].revision + 1;
    RevisionStep(s, op, id);
    BeyondIsImported(s.db, id, imported);
  }

  lemma OtherExplained(s: Sys, op: Op, id: string, start: int, skipped: set<int>,
                         imported: set<(string, int)>)
    requires LogAgrees(s.db, imported) && id in s.db.rows && !Commits(s, op, id)
    requires LogExplained(s.db, id, start, skipped, imported)
    ensures LogExplained(Step(s, op).db, id, start, skipped + StepSkips(s, op, id), imported + NowImported(s, op))
  {
    RevisionStep(s, op, id);
    assert StepSkips(s, op, id) == {};
  }

  lemma {:induction false} AlwaysExplained(ops: seq<Op>, id: string)
    ensures LogExplained(Replay(ops).db, id, StartRevision(ops, id), Skipped(ops, id), Imported(ops))
  {
    if ops != [] {
      var before, op := ops[..|ops| - 1], ops[|ops| - 1];
      var s := Replay(before);
      AlwaysExplained(before, id);
      LogAlwaysAgrees(before);
      if id !in s.db.rows {
        StartExplained(s, op, id, Imported(before));
        assert {} + StepSkips(s, op, id) == StepSkips(s, op, id);
      } else if Commits(s, op, id) {
        CommitExplained(s, op, id, StartRevision(before, id), Skipped(before, id), Imported(before));
        assert Imported(before) + {} == Imported(before);
      } else {
        OtherExplained(s, op, id, StartRevision(before, id), Skipped(before, id), Imported(before));
      }
    }
  }

  /**
    The logged revisions 1..revision have no gap if and only if every revision
    that the entry went through without a log row came in with an import; and a
    logged revision beyond the entry's own did too.
   */
  lemma GaplessIff(ops: seq<Op>, id: string)
    requires id in Replay(ops).db.rows
    ensures Gapless(Replay(ops).db, id) <==> forall r | r in Skipped(ops, id) :: (id, r) in Imported(ops)
    ensures forall r: int | r > Replay(ops).db.rows[id].revision ::
              (id, r) in Replay(ops).db.log <==> (id, r) in Imported(ops)
    ensures forall r: int | (id, r) in Replay(ops).db.log && (id, r) !in Imported(ops) ::
              StartRevision(ops, id) <= r <= Replay(ops).db.rows[id].revision
  {
    var db := Replay(ops).db;
    AlwaysExplained(ops, id);
    LogAlwaysAgrees(ops);
    BeyondIsImported(db, id, Imported(ops));
  }

  /** Without imports: if and only if every write of the entry passed a revision context. */
  lemma GaplessIffEveryWriteLogged(ops: seq<Op>, id: string)
    requires NoHistory(ops) && id in Replay(ops).db.rows
    ensures Gapless(Replay(ops).db, id) <==> Skipped(ops, id) == {}
    ensures forall r: int | (id, r) in Replay(ops).db.log ::
              StartRevision(ops, id) <= r <= Replay(ops).db.rows[id].revision
  {
    NothingImported(ops);
    GaplessIff(ops, id);
    NoneFilled(Skipped(ops, id), Imported(ops), id);
  }

  lemma NoneFilled(skipped: set<int>, imported: set<(string, int)>, id: string)
    requires imported == {}
    ensures (forall r | r in skipped :: (id, r) in imported) <==> skipped == {}
  {
    if forall r | r in skipped :: (id, r) in imported {
      forall r: int
        ensures r !in skipped
      {
      }
    }
  }

  // ---------- the store object ----------

  /** What the connection runs into during one attempt of a guarded update. */
  datatype Fault = NoFault | BusyAtBegin | BusyAtCommit

  datatype RetryResult = Done(outcome: Outcome) | GaveUpBusy

  lemma UpdateIs(db: Db, id: string, patch: Cells, who: Option<string>, row: Row)
    requires id in db.rows && row == Row(db.rows[id].revision + 1, Merge(db.rows[id].cells, patch))
    ensures UpdateOutcome(db, id, who) == if who.None? || (id, row.revision) !in db.log then Applied else LogCollision
    ensures UpdateResult(db, id, patch, who)
         == if who.None? || (id, row.revision) !in db.log then Written(db, id, row, row.cells, who) else db
  {
  }

  /** The entry half of `SQLiteMemoryStore` on one connection. */
  class EntryStore {
    var rows: map<string, Row>
    var fts: seq<FtsRow>
    var log: map<(string, int), LogRow>
    var transactionDepth: nat
    /** The image that ROLLBACK restores. */
    var begun: Db

    function Tables(): Db
      reads this
    {
      Db(rows, fts, log)
    }

    /**
      What every sequence of committed calls keeps; see `FtsAlwaysAgrees` for all
      clients together, and `LogAlwaysAgrees` for the log.
     */
    ghost predicate Valid()
      reads this
    {
      FtsAgrees(Tables())
    }

    constructor ()
      ensures Valid() && transactionDepth == 0 && Tables() == EMPTY.db
    {
      rows, fts, log := map[], [], map[];
      transactionDepth := 0;
      begun := EMPTY.db;
    }

    /** The opening half of `transaction`: only the outermost call begins one. */
    method Enter() returns (outermost: bool)
      modifies this`transactionDepth, this`begun
      ensures outermost <==> old(transactionDepth) == 0
      ensures outermost ==> transactionDepth == 1 && begun == Tables()
      ensures !outermost ==> transactionDepth == old(transactionDepth) && begun == old(begun)
    {
      outermost := transactionDepth == 0;
      if outermost {
        begun := Tables();
        transactionDepth := 1;
      }
    }

    /** The closing half: the outermost call commits, or rolls everything back after a throw. */
    method Leave(outermost: bool, threw: bool)
      modifies this
      ensures outermost ==> transactionDepth == 0 && Tables() == if threw then old(begun) else old(Tables())
      ensures !outermost ==>
          transactionDepth == old(transactionDepth) && begun == old(begun) && Tables() == old(Tables())
    {
      if outermost {
        if threw {
          rows, fts, log := begun.rows, begun.fts, begun.log;
        }
        transactionDepth := 0;
      }
    }

    method UpsertFts(id: string, cells: Cells)
      modifies this`fts
      ensures fts == UpsertedFts(old(fts), id, cells)
    {
      var kept: seq<FtsRow> := [];
      var i := |fts|;
      while i > 0
        invariant 0 <= i <= |fts| && fts == old(fts)
        invariant kept == WithoutId(fts[i..], id)
      {
        i := i - 1;
        if fts[i].id != id {
          kept := [fts[i]] + kept;
        }
        assert fts[i..][1..] == fts[i + 1..];
      }
      assert fts[0..] == fts;
      fts := kept + [FtsOf(id, cells)];
    }

    /** INSERT INTO memory_revisions; a false result stands for the primary-key error. */
    method RecordRevision(id: string, revision: int, snapshot: Cells, changedBy: string) returns (inserted: bool)
      modifies this`log
      ensures inserted <==> (id, revision) !in old(log)
      ensures log == if inserted then old(log)[(id, revision) := LogRow(snapshot, changedBy)] else old(log)
    {
      inserted := (id, revision) !in log;
      if inserted {
        log := log[(id, revision) := LogRow(snapshot, changedBy)];
      }
    }

    /** The statements of a writing transaction; a false result is a throw that leaves them half done. */
    method WriteRow(id: string, row: Row, shown: Cells, changedBy: Option<string>) returns (done: bool)
      modifies this`rows, this`fts, this`log
      ensures done <==> changedBy.None? || (id, row.revision) !in old(log)
      ensures done ==> Tables() == Written(old(Tables()), id, row, shown, changedBy)
      ensures !done ==> Tables() == Written(old(Tables()), id, row, shown, None)
    {
      rows := rows[id := row];
      UpsertFts(id, shown);
      done := true;
      if changedBy.Some? {
        done := RecordRevision(id, row.revision, shown, changedBy.value);
      }
    }

    /** `transaction(() => { ... })` around the statements; `commitFails` stands for a busy COMMIT. */
    method Transact(id: string, row: Row, shown: Cells, changedBy: Option<string>, commitFails: bool)
        returns (done: bool)
      modifies this
      ensures transactionDepth == old(transactionDepth)
      ensures done <==> changedBy.None? || (id, row.revision) !in old(log)
      ensures done && !commitFails ==> Tables() == Written(old(Tables()), id, row, shown, changedBy)
      ensures !done || commitFails ==> old(transactionDepth) == 0 ==> Tables() == old(Tables())
      ensures !done && old(transactionDepth) > 0 ==> Tables() == Written(old(Tables()), id, row, shown, None)
    {
      var outermost := Enter();
      done := WriteRow(id, row, shown, changedBy);
      Leave(outermost, !done || commitFails);
    }

    /** A transaction that writes a row with what it shows; the full-text table goes along even if it throws. */
    method Put(id: string, row: Row, changedBy: Option<string>) returns (done: bool)
      requires Valid()
      modifies this
      ensures Valid() && transactionDepth == old(transactionDepth)
      ensures done <==> changedBy.None? || (id, row.revision) !in old(log)
      ensures done ==> Tables() == Written(old(Tables()), id, row, row.cells, changedBy)
      ensures !done && old(transactionDepth) == 0 ==> Tables() == old(Tables())
    {
      WrittenFtsAgrees(Tables(), id, row, row.cells, changedBy);
      SameFtsAgrees(Written(Tables(), id, row, row.cells, changedBy), Written(Tables(), id, row, row.cells, None));
      done := Transact(id, row, row.cells, changedBy, false);
    }

    /** A new entry with its first revision row, in one transaction of its own or nested in a caller's. */
    method CreateEntry(id: string, cells: Cells, changedBy: Option<string>) returns (created: bool)
      requires Valid()
      modifies this
      ensures Valid() && transactionDepth == old(transactionDepth)
      ensures created <==> CreateAllowed(old(Tables()), id, changedBy)
      ensures created || id in old(rows) || old(transactionDepth) == 0 ==>
                Tables() == CreateResult(old(Tables()), id, cells, changedBy)
    {
      created := id !in rows;
      if created {
        created := Put(id, Row(1, cells), changedBy);
      }
    }

    /** `insertEntry` of an imported entry, which throws on the primary key of an entry that is here. */
    method InsertImported(id: string, row: Row) returns (inserted: bool)
      requires Valid()
      modifies this
      ensures Valid() && transactionDepth == old(transactionDepth)
      ensures inserted <==> id !in old(rows)
      ensures Tables() == ImportResult(old(Tables()), id, row)
    {
      inserted := id !in rows;
      if inserted {
        inserted := Put(id, row, None);
      }
    }

    /** INSERT OR IGNORE of one row of the source's history. */
    method InsertRevisionRow(id: string, revision: int, row: LogRow)
      requires Valid()
      modifies this`log
      ensures Valid() && Tables() == HistoryResult(old(Tables()), id, revision, row)
    {
      if (id, revision) !in log {
        log := log[(id, revision) := row];
      }
    }

    /**
      `updateEntry`, alone or nested in a caller's transaction. It throws exactly
      when the log key is taken; alone it then leaves nothing behind.
     */
    method UpdateEntry(id: string, patch: Cells, changedBy: Option<string>) returns (threw: bool)
      requires Valid()
      modifies this
      ensures Valid() && transactionDepth == old(transactionDepth)
      ensures threw <==> UpdateOutcome(old(Tables()), id, changedBy) == LogCollision
      ensures !threw || old(transactionDepth) == 0 ==> Tables() == UpdateResult(old(Tables()), id, patch, changedBy)
    {
      if id !in rows {
        return false;
      }
      var row := Row(rows[id].revision + 1, Merge(rows[id].cells, patch));
      UpdateIs(Tables(), id, patch, changedBy, row);
      var done := Put(id, row, changedBy);
      threw := !done;
    }

    /** The read that opens a guarded update; `None` stands for the early `false` result. */
    method ReadForUpdate(id: string, patch: Cells, expected: int, now: int, changedBy: Option<string>)
        returns (p: Option<Pending>)
      ensures p.Some? <==> id in rows && rows[id].revision == expected
      ensures p.Some? ==> p.value == Pending(id, rows[id], patch, now, changedBy)
    {
      if id !in rows || rows[id].revision != expected {
        return None;
      }
      return Some(Pending(id, rows[id], patch, now, changedBy));
    }

    /**
      One attempt of the guarded update. `p` may be stale: other clients may have
      committed since its read. A throw rolls back whatever the attempt wrote.
     */
    method Attempt(p: Pending, commitFails: bool) returns (outcome: Outcome)
      requires transactionDepth == 0
      modifies this
      ensures transactionDepth == 0
      ensures outcome == CasOutcome(old(Tables()), p)
      ensures Tables() == if commitFails then old(Tables()) else CasResult(old(Tables()), p)
    {
      if p.id !in rows || rows[p.id].revision != p.snapshot.revision {
        return Stale;
      }
      var next := Merge(p.snapshot.cells, p.patch)[UpdatedAt := Number(p.now)];
      var cells := CasCells(rows[p.id].cells, next);
      var done := Transact(p.id, Row(p.snapshot.revision + 1, cells), next, p.changedBy, commitFails);
      outcome := if done then Applied else LogCollision;
    }

    /**
      `runWithBusyRetry`: a busy connection is tried again up to `maxRetries` times,
      a lost race is not. Whatever the faults, the patch is applied at most once.
     */
    method RunWithBusyRetry(p: Pending, faults: seq<Fault>, maxRetries: nat) returns (r: RetryResult)
      requires transactionDepth == 0
      modifies this
      ensures transactionDepth == 0
      ensures r.Done? ==> r.outcome == CasOutcome(old(Tables()), p) && Tables() == CasResult(old(Tables()), p)
      ensures r.GaveUpBusy? ==> Tables() == old(Tables())
      ensures r.GaveUpBusy? <==>
        |faults| > maxRetries && forall k | 0 <= k <= maxRetries ::
          faults[k].BusyAtBegin? || (faults[k].BusyAtCommit? && CasOutcome(old(Tables()), p) == Applied)
    {
      var attempt := 0;
      while attempt <= maxRetries
        invariant 0 <= attempt <= maxRetries + 1
        invariant transactionDepth == 0 && Tables() == old(Tables())
        invariant attempt <= |faults| && forall k | 0 <= k < attempt ::
          faults[k].BusyAtBegin? || (faults[k].BusyAtCommit? && CasOutcome(old(Tables()), p) == Applied)
      {
        var fault := if attempt < |faults| then faults[attempt] else NoFault;
        if !fault.BusyAtBegin? {
          var outcome := Attempt(p, fault.BusyAtCommit?);
          if outcome != Applied || fault.NoFault? {
            return Done(outcome);
          }
        }
        attempt := attempt + 1;
      }
      return GaveUpBusy;
    }
  }
}
