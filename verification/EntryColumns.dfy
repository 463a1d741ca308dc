/**
  The columns of a memory entry, one by one: which of them an update writes and
  with what, which no update of any run ever writes, and what the full-text
  table and the revision log show of them.
 */
module MemoryEntryColumns {
  import opened Common
  import opened MemoryEntries

  /** The column holds the patch's value if the patch has one, else the value it had. */
  predicate Takes(after: Cells, before: Cells, patch: Cells, c: Column) {
    Cell(after, c) == if c in patch then Some(patch[c]) else Cell(before, c)
  }

  predicate Same(after: Cells, before: Cells, c: Column) {
    Cell(after, c) == Cell(before, c)
  }

  /** Which statement decides what a column holds. */
  datatype Writer = ByPatch | ByInsert | ByAccess | ByEither | ByTime

  function WrittenBy(c: Column): Writer {
    match c
    case Topic | Title | Body | Tags | Importance | Confidence | Status | ExpiresAt | ReviewAfter | Supersedes
      | SupersededBy | TokenEstimate | CharCount | WriterActorId | Pinned | ValidFrom | ValidUntil | Sensitivity
      | TrustLevel => ByPatch
    case Scope | ProjectId | ProjectPath | Type | Source | CreatedAt | ContentHash | DeletedAt | Metadata => ByInsert
    case LastAccessedAt | LastAccessedBy | AccessCount => ByAccess
    case Tier => ByEither
    case UpdatedAt => ByTime
  }

  ghost predicate TakesPatch(after: Cells, before: Cells, patch: Cells) {
    forall c: Column | WrittenBy(c).ByPatch? :: Takes(after, before, patch, c)
  }

  ghost predicate SameOrigin(after: Cells, before: Cells) {
    forall c: Column | WrittenBy(c).ByInsert? :: Same(after, before, c)
  }

  ghost predicate SameAccess(after: Cells, before: Cells) {
    forall c: Column | WrittenBy(c).ByAccess? :: Same(after, before, c)
  }

  // ---------- one column at a time ----------

  lemma Listed(c: Column)
    ensures c in PATCH_FIELDS <==> !WrittenBy(c).ByInsert? && !WrittenBy(c).ByAccess?
    ensures c in ACCESS <==> WrittenBy(c).ByAccess?
  {
  }

  lemma MergeTakes(cells: Cells, patch: Cells, c: Column)
    requires c in PATCH_FIELDS
    ensures Takes(Merge(cells, patch), cells, patch, c)
  {
  }

  lemma MergeLeaves(cells: Cells, patch: Cells, c: Column)
    requires c !in PATCH_FIELDS
    ensures Same(Merge(cells, patch), cells, c)
  {
  }

  lemma NextColumn(p: Pending, c: Column)
    ensures c == UpdatedAt ==> Cell(Next(p), c) == Some(Number(p.now))
    ensures c != UpdatedAt ==> Cell(Next(p), c) == Cell(Merge(p.snapshot.cells, p.patch), c)
  {
  }

  lemma CasColumn(stored: Cells, next: Cells, c: Column)
    ensures Cell(CasCells(stored, next), c) == Cell(if c == Tier then stored else next, c)
  {
  }

  lemma MergeColumns(cells: Cells, patch: Cells)
    ensures var after := Merge(cells, patch);
            && TakesPatch(after, cells, patch) && Takes(after, cells, patch, Tier)
            && Takes(after, cells, patch, UpdatedAt)
            && SameOrigin(after, cells) && SameAccess(after, cells)
  {
    var after := Merge(cells, patch);
    forall c: Column
      ensures !WrittenBy(c).ByInsert? && !WrittenBy(c).ByAccess? ==> Takes(after, cells, patch, c)
      ensures WrittenBy(c).ByInsert? || WrittenBy(c).ByAccess? ==> Same(after, cells, c)
    {
      Listed(c);
      if c in PATCH_FIELDS {
        MergeTakes(cells, patch, c);
      } else {
        MergeLeaves(cells, patch, c);
      }
    }
  }

  /** The columns of a patch by name: what the entry says, */
  lemma ContentColumns(after: Cells, before: Cells, patch: Cells)
    requires TakesPatch(after, before, patch)
    ensures
      && Takes(after, before, patch, Topic) && Takes(after, before, patch, Title) && Takes(after, before, patch, Body)
      && Takes(after, before, patch, Tags) && Takes(after, before, patch, Importance)
      && Takes(after, before, patch, Confidence) && Takes(after, before, patch, Sensitivity)
      && Takes(after, before, patch, TrustLevel) && Takes(after, before, patch, Pinned)
  {
  }

  /** and what becomes of it. */
  lemma LifecycleColumns(after: Cells, before: Cells, patch: Cells)
    requires TakesPatch(after, before, patch)
    ensures
      && Takes(after, before, patch, Status) && Takes(after, before, patch, ExpiresAt)
      && Takes(after, before, patch, ReviewAfter) && Takes(after, before, patch, Supersedes)
      && Takes(after, before, patch, SupersededBy) && Takes(after, before, patch, TokenEstimate)
      && Takes(after, before, patch, CharCount) && Takes(after, before, patch, WriterActorId)
      && Takes(after, before, patch, ValidFrom) && Takes(after, before, patch, ValidUntil)
  {
  }

  /** The columns that are written once. */
  lemma OriginColumns(after: Cells, before: Cells)
    requires SameOrigin(after, before)
    ensures
      && Same(after, before, Scope) && Same(after, before, ProjectId) && Same(after, before, ProjectPath)
      && Same(after, before, Type) && Same(after, before, Source) && Same(after, before, CreatedAt)
      && Same(after, before, ContentHash) && Same(after, before, DeletedAt) && Same(after, before, Metadata)
  {
  }

  lemma SameOriginTwice(a: Cells, b: Cells, c: Cells)
    requires SameOrigin(a, b) && SameOrigin(b, c)
    ensures SameOrigin(a, c)
  {
    forall k: Column | WrittenBy(k).ByInsert?
      ensures Same(a, c, k)
    {
      assert Same(a, b, k) && Same(b, c, k);
    }
  }

  // ---------- the plain update ----------

  /** `updateEntry`: what the row holds afterwards, column by column. */
  lemma UpdateColumns(db: Db, id: string, patch: Cells, who: Option<string>)
    requires id in db.rows && (who.Some? ==> (id, db.rows[id].revision + 1) !in db.log)
    ensures id in UpdateResult(db, id, patch, who).rows
    ensures var was, row := db.rows[id], UpdateResult(db, id, patch, who).rows[id];
            && row.revision == was.revision + 1
            && TakesPatch(row.cells, was.cells, patch) && Takes(row.cells, was.cells, patch, Tier)
            && Takes(row.cells, was.cells, patch, UpdatedAt)
            && SameOrigin(row.cells, was.cells) && SameAccess(row.cells, was.cells)
  {
    var cells := db.rows[id].cells;
    MergeColumns(cells, patch);
  }

  /** It writes no row when the entry is unknown or the log has the next revision. */
  lemma UpdateRefusedIff(db: Db, id: string, patch: Cells, who: Option<string>)
    ensures id in db.rows && who.Some? && (id, db.rows[id].revision + 1) in db.log ==>
              UpdateOutcome(db, id, who) == LogCollision && UpdateResult(db, id, patch, who) == db
    ensures id !in db.rows ==> UpdateOutcome(db, id, who) == Stale && UpdateResult(db, id, patch, who) == db
    ensures id in db.rows && (who.Some? ==> (id, db.rows[id].revision + 1) !in db.log) ==>
              UpdateOutcome(db, id, who) == Applied
  {
  }

  // ---------- the guarded update ----------

  /** A guarded update applies exactly when the row is at the revision it read and the log has no row for the next. */
  lemma CasAppliesIff(db: Db, p: Pending)
    ensures CasOutcome(db, p) == Applied <==>
              && p.id in db.rows && db.rows[p.id].revision == p.snapshot.revision
              && (p.changedBy.Some? ==> (p.id, p.snapshot.revision + 1) !in db.log)
    ensures CasOutcome(db, p) == Stale <==> p.id !in db.rows || db.rows[p.id].revision != p.snapshot.revision
    ensures CasOutcome(db, p) != Applied ==> CasResult(db, p) == db
  {
  }

  /**
    In any run, a guarded update that applies leaves in each column the patch's
    value if it has one, else the value committed just before; the tier stays
    whatever the patch says, and the time is the update's own.
   */
  lemma GuardedColumns(ops: seq<Op>, n: nat)
    requires n < |ops| && ops[n].Attempt? && ops[n].client in At(ops, n).pending
    requires CasOutcome(At(ops, n).db, At(ops, n).pending[ops[n].client]) == Applied
    ensures var p := At(ops, n).pending[ops[n].client];
            && p.id in At(ops, n).db.rows && p.id in At(ops, n + 1).db.rows
            && var was, row := At(ops, n).db.rows[p.id], At(ops, n + 1).db.rows[p.id];
            && row.revision == was.revision + 1
            && TakesPatch(row.cells, was.cells, p.patch) && Same(row.cells, was.cells, Tier)
            && Cell(row.cells, UpdatedAt) == Some(Number(p.now))
            && SameOrigin(row.cells, was.cells) && SameAccess(row.cells, p.snapshot.cells)
  {
    PendingIsFresh(ops[..n]);
    AtNext(ops, n);
    var p := At(ops, n).pending[ops[n].client];
    CasColumns(At(ops, n).db.rows[p.id].cells, p);
  }

  /** What is logged of a guarded update. */
  lemma NextColumns(p: Pending)
    ensures var before := p.snapshot.cells;
            && TakesPatch(Next(p), before, p.patch) && Takes(Next(p), before, p.patch, Tier)
            && Cell(Next(p), UpdatedAt) == Some(Number(p.now))
            && SameOrigin(Next(p), before) && SameAccess(Next(p), before)
  {
    var before, merged := p.snapshot.cells, Merge(p.snapshot.cells, p.patch);
    MergeColumns(before, p.patch);
    forall c: Column
      ensures c != UpdatedAt ==> Cell(Next(p), c) == Cell(merged, c)
      ensures c == UpdatedAt ==> Cell(Next(p), c) == Some(Number(p.now))
    {
      NextColumn(p, c);
    }
    forall c: Column | WrittenBy(c).ByPatch?
      ensures Takes(Next(p), before, p.patch, c)
    {
      assert Takes(merged, before, p.patch, c);
    }
    forall c: Column | WrittenBy(c).ByInsert? || WrittenBy(c).ByAccess?
      ensures Same(Next(p), before, c)
    {
      assert Same(merged, before, c);
    }
  }

  lemma CasColumnOf(stored: Cells, p: Pending, c: Column)
    requires stored - ACCESS == p.snapshot.cells - ACCESS
    ensures c == Tier ==> Same(CasCells(stored, Next(p)), stored, c)
    ensures c != Tier ==> Cell(CasCells(stored, Next(p)), c) == Cell(Next(p), c)
    ensures !WrittenBy(c).ByAccess? ==> Cell(stored, c) == Cell(p.snapshot.cells, c)
  {
    CasColumn(stored, Next(p), c);
    Listed(c);
    if c !in ACCESS {
      CellsApart(stored, p.snapshot.cells, c);
    }
  }

  /** And what is written. */
  lemma CasColumns(stored: Cells, p: Pending)
    requires stored - ACCESS == p.snapshot.cells - ACCESS
    ensures var cells := CasCells(stored, Next(p));
            && TakesPatch(cells, stored, p.patch) && Same(cells, stored, Tier)
            && Cell(cells, UpdatedAt) == Some(Number(p.now))
            && SameOrigin(cells, stored) && SameAccess(cells, p.snapshot.cells)
  {
    NextColumns(p);
    CasColumnOf(stored, p, Tier);
    CasColumnOf(stored, p, UpdatedAt);
    forall c: Column
      ensures WrittenBy(c).ByPatch? ==> Takes(CasCells(stored, Next(p)), stored, p.patch, c)
      ensures WrittenBy(c).ByInsert? ==> Same(CasCells(stored, Next(p)), stored, c)
      ensures WrittenBy(c).ByAccess? ==> Same(CasCells(stored, Next(p)), p.snapshot.cells, c)
    {
      CasFollowsNext(stored, p, c);
    }
  }

  lemma CasFollowsNext(stored: Cells, p: Pending, c: Column)
    requires stored - ACCESS == p.snapshot.cells - ACCESS
    ensures WrittenBy(c).ByPatch? ==> Takes(CasCells(stored, Next(p)), stored, p.patch, c)
    ensures WrittenBy(c).ByInsert? ==> Same(CasCells(stored, Next(p)), stored, c)
    ensures WrittenBy(c).ByAccess? ==> Same(CasCells(stored, Next(p)), p.snapshot.cells, c)
  {
    CasColumnOf(stored, p, c);
    NextColumns(p);
    Follows(CasCells(stored, Next(p)), Next(p), stored, p.snapshot.cells, p.patch, c);
  }

  lemma Follows(cells: Cells, next: Cells, stored: Cells, before: Cells, patch: Cells, c: Column)
    requires c != Tier ==> Cell(cells, c) == Cell(next, c)
    requires !WrittenBy(c).ByAccess? ==> Cell(stored, c) == Cell(before, c)
    requires TakesPatch(next, before, patch) && SameOrigin(next, before) && SameAccess(next, before)
    ensures WrittenBy(c).ByPatch? ==> Takes(cells, stored, patch, c)
    ensures WrittenBy(c).ByInsert? ==> Same(cells, stored, c)
    ensures WrittenBy(c).ByAccess? ==> Same(cells, before, c)
  {
    assert WrittenBy(c).ByPatch? ==> Takes(next, before, patch, c);
    assert WrittenBy(c).ByInsert? || WrittenBy(c).ByAccess? ==> Same(next, before, c);
  }

  /** A guarded update starts from the row it reads, if that is at the expected revision. */
  lemma BeginReads(s: Sys, op: Op)
    requires op.Begin?
    ensures Step(s, op).db == s.db
    ensures op.client in Step(s, op).pending <==> op.id in s.db.rows && s.db.rows[op.id].revision == op.expected
    ensures op.id in s.db.rows && s.db.rows[op.id].revision == op.expected ==>
              Step(s, op).pending[op.client] == Pending(op.id, s.db.rows[op.id], op.patch, op.now, op.changedBy)
  {
  }

  // ---------- what never changes ----------

  lemma OriginStep(s: Sys, op: Op, id: string)
    requires PendingFresh(s) && id in s.db.rows
    ensures id in Step(s, op).db.rows
    ensures SameOrigin(Step(s, op).db.rows[id].cells, s.db.rows[id].cells)
  {
    match op
    case Update(target, patch, who) =>
      if target == id && UpdateOutcome(s.db, id, who) == Applied {
        UpdateColumns(s.db, id, patch, who);
      }
    case Attempt(client) =>
      if client in s.pending && s.pending[client].id == id {
        AttemptKeepsOrigin(s, client);
      }
    case Touch(target, access) =>
      TouchKeepsOrigin(s, op, id);
    case _ => OthersUntouched(s, op, id);
  }

  lemma TouchKeepsOrigin(s: Sys, op: Op, id: string)
    requires op.Touch? && id in s.db.rows
    ensures id in Step(s, op).db.rows && SameOrigin(Step(s, op).db.rows[id].cells, s.db.rows[id].cells)
  {
    if op.id == id {
      TouchColumns(s, id, op.access);
      forall c: Column | WrittenBy(c).ByInsert?
        ensures Same(Step(s, op).db.rows[id].cells, s.db.rows[id].cells, c)
      {
      }
    }
  }

  lemma OthersUntouched(s: Sys, op: Op, id: string)
    requires !op.Update? && !op.Attempt? && !op.Touch? && id in s.db.rows
    ensures id in Step(s, op).db.rows && Step(s, op).db.rows[id] == s.db.rows[id]
  {
  }

  lemma AttemptKeepsOrigin(s: Sys, client: nat)
    requires PendingFresh(s) && client in s.pending && s.pending[client].id in s.db.rows
    ensures var id := s.pending[client].id;
            var after := CasResult(s.db, s.pending[client]);
            id in after.rows && SameOrigin(after.rows[id].cells, s.db.rows[id].cells)
  {
    var p := s.pending[client];
    if CasOutcome(s.db, p) == Applied {
      CasColumns(s.db.rows[p.id].cells, p);
    }
  }

  /**
    No write of any run moves an entry to another scope or project, or changes
    its type, source, creation time, content hash, deletion time or metadata.
   */
  lemma {:induction false} OriginNeverChanges(ops: seq<Op>, n: nat, m: nat, id: string)
    requires n <= m <= |ops| && id in At(ops, n).db.rows
    ensures id in At(ops, m).db.rows
    ensures SameOrigin(At(ops, m).db.rows[id].cells, At(ops, n).db.rows[id].cells)
    decreases m
  {
    if n < m {
      OriginNeverChanges(ops, n, m - 1, id);
      PendingIsFresh(ops[..m - 1]);
      AtNext(ops, m - 1);
      OriginStep(At(ops, m - 1), ops[m - 1], id);
      SameOriginTwice(At(ops, m).db.rows[id].cells, At(ops, m - 1).db.rows[id].cells, At(ops, n).db.rows[id].cells);
    }
  }

  /** The entry that a step may write. */
  function TargetOf(s: Sys, op: Op): Option<string> {
    match op
    case Create(id, _, _) => Some(id)
    case Update(id, _, _) => Some(id)
    case Touch(id, _) => Some(id)
    case Import(id, _) => Some(id)
    case Attempt(client) => if client in s.pending then Some(s.pending[client].id) else None
    case Begin(_, _, _, _, _, _) => None
    case Busy(_) => None
    case History(_, _, _) => None
  }

  /** Entries that a step does not name stay exactly as they are. */
  lemma OthersStay(s: Sys, op: Op, id: string)
    requires TargetOf(s, op) != Some(id)
    ensures id in Step(s, op).db.rows <==> id in s.db.rows
    ensures id in s.db.rows ==> Step(s, op).db.rows[id] == s.db.rows[id]
  {
  }

  /** A new entry is stored as given at revision 1, an imported one at its own; one that exists is not replaced. */
  lemma InsertedAsGiven(s: Sys, op: Op)
    requires (op.Create? && (op.changedBy.Some? ==> (op.id, 1) !in s.db.log)) || op.Import?
    ensures op.id in Step(s, op).db.rows
    ensures Step(s, op).db.rows[op.id]
         == if op.id in s.db.rows then s.db.rows[op.id] else if op.Create? then Row(1, op.cells) else op.row
  {
  }

  /** A read that counts the access writes the three access columns and nothing else. */
  lemma TouchColumns(s: Sys, id: string, access: Cells)
    requires id in s.db.rows
    ensures var after := Step(s, Touch(id, access)).db;
            && id in after.rows && after.rows[id].revision == s.db.rows[id].revision
            && after.fts == s.db.fts && after.log == s.db.log
            && forall c: Column ::
                 if WrittenBy(c).ByAccess? then Takes(after.rows[id].cells, s.db.rows[id].cells, access, c)
                 else Same(after.rows[id].cells, s.db.rows[id].cells, c)
  {
  }

  // ---------- what is shown elsewhere ----------

  /** In every run the full-text table has exactly one row for an entry, and it shows these columns of it. */
  lemma SearchShows(ops: seq<Op>, id: string)
    requires id in Replay(ops).db.rows
    ensures var cells, fts := Replay(ops).db.rows[id].cells, Replay(ops).db.fts;
            exists i | 0 <= i < |fts| ::
              && fts[i].id == id && (forall j | 0 <= j < |fts| && fts[j].id == id :: j == i)
              && fts[i].title == Cell(cells, Title) && fts[i].body == Cell(cells, Body)
              && fts[i].topic == Cell(cells, Topic) && fts[i].scope == Cell(cells, Scope)
              && fts[i].project == Cell(cells, ProjectId)
              && (Tags in cells && cells[Tags].Texts? ==> fts[i].tags == Join(cells[Tags].texts, " "))
  {
    FtsAlwaysAgrees(ops);
    var cells, fts := Replay(ops).db.rows[id].cells, Replay(ops).db.fts;
    assert FtsOf(id, cells) in fts;
    var i :| 0 <= i < |fts| && fts[i] == FtsOf(id, cells);
  }

  /** A guarded update with a revision context logs the next revision: who made it, and the columns it was made with. */
  lemma GuardedLogRow(ops: seq<Op>, n: nat, who: string)
    requires n < |ops| && ops[n].Attempt? && ops[n].client in At(ops, n).pending
    requires CasOutcome(At(ops, n).db, At(ops, n).pending[ops[n].client]) == Applied
    requires At(ops, n).pending[ops[n].client].changedBy == Some(who)
    ensures var p := At(ops, n).pending[ops[n].client];
            var k := (p.id, p.snapshot.revision + 1);
            var log := At(ops, n + 1).db.log;
            && k !in At(ops, n).db.log && k in log && log[k].changedBy == who
            && TakesPatch(log[k].snapshot, p.snapshot.cells, p.patch)
            && Takes(log[k].snapshot, p.snapshot.cells, p.patch, Tier)
            && Cell(log[k].snapshot, UpdatedAt) == Some(Number(p.now))
            && SameOrigin(log[k].snapshot, p.snapshot.cells)
            && forall other | other in At(ops, n).db.log :: other in log && log[other] == At(ops, n).db.log[other]
  {
    AtNext(ops, n);
    NextColumns(At(ops, n).pending[ops[n].client]);
  }

  /** Creating and the plain update log the row they write. */
  lemma PlainLogRow(s: Sys, op: Op, who: string)
    requires (op.Create? && op.id !in s.db.rows) || (op.Update? && op.id in s.db.rows)
    requires op.changedBy == Some(who)
    ensures var k := (op.id, if op.Create? then 1 else s.db.rows[op.id].revision + 1);
            k !in s.db.log ==>
              var after := Step(s, op).db;
              && op.id in after.rows && after.log == s.db.log[k := LogRow(after.rows[op.id].cells, who)]
  {
  }

  /** A row of the source's history goes in as given unless the log has its revision. */
  lemma HistoryLogged(s: Sys, id: string, revision: int, row: LogRow)
    ensures var after := Step(s, History(id, revision, row)).db;
            && (id, revision) in after.log && after.rows == s.db.rows && after.fts == s.db.fts
            && after.log[(id, revision)] == (if (id, revision) in s.db.log then s.db.log[(id, revision)] else row)
            && forall k | k in s.db.log :: k in after.log && after.log[k] == s.db.log[k]
  {
  }

  /** Who a step writes a log row for: nobody unless it passes a revision context. */
  predicate Logs(s: Sys, op: Op) {
    match op
    case Create(_, _, who) => who.Some?
    case Update(_, _, who) => who.Some?
    case Attempt(client) => client in s.pending && s.pending[client].changedBy.Some?
    case History(_, _, _) => true
    case _ => false
  }

  /** Without a context, and by any other step, nothing is logged. */
  lemma OtherwiseNothingLogged(s: Sys, op: Op)
    requires !Logs(s, op)
    ensures Step(s, op).db.log == s.db.log
  {
  }
}
