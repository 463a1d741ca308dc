/**
  The asset registry: an envelope row whose `current_version` points at the
  newest row of an append-only version table. Clients read the envelope first
  and append later, so other clients' appends can fall in between.
 */
module AssetRegistry {
  import opened Common

  datatype AssetType = MemoryRef | Skill | ContextPack | ExternalReference

  datatype Lifecycle = Draft | Active | Deprecated | Archived

  datatype Asset = Asset(assetType: AssetType, state: Lifecycle, currentVersion: nat, archivedAt: Option<string>,
                         updatedAt: string)

  datatype Version = Version(contentHash: string, createdBy: string, createdAt: string)

  datatype Tables = Tables(assets: map<string, Asset>, versions: map<(string, nat), Version>)

  datatype AppendOutcome =
    | Appended
    | KeyCollision       // PRIMARY KEY (asset_id, version): the statement throws and the transaction rolls back
    | NoSuchAsset        // FOREIGN KEY (asset_id): likewise
    | CasMiss            // the guarded UPDATE matched no row; the insert before it is committed all the same

  /** What `appendAssetVersion` reports for the given arguments. */
  function OutcomeOf(t: Tables, id: string, expected: nat, newVersion: nat): AppendOutcome {
    if (id, newVersion) in t.versions then KeyCollision
    else if id !in t.assets then NoSuchAsset
    else if t.assets[id].currentVersion == expected then Appended
    else CasMiss
  }

  function AppendResult(t: Tables, id: string, expected: nat, newVersion: nat, row: Version): Tables {
    match OutcomeOf(t, id, expected, newVersion)
    case Appended =>
      Tables(t.assets[id := t.assets[id].(currentVersion := newVersion, updatedAt := row.createdAt)],
             t.versions[(id, newVersion) := row])
    case CasMiss => t.(versions := t.versions[(id, newVersion) := row])
    case _ => t
  }

  function LifecycleResult(t: Tables, id: string, expected: Lifecycle, newState: Lifecycle, now: string): Tables {
    if id in t.assets && t.assets[id].state == expected then
      t.(assets := t.assets[id := t.assets[id].(state := newState, updatedAt := now,
                                               archivedAt := if newState.Archived? then Some(now) else None)])
    else t
  }

  // ---------- interleaved clients ----------

  /** What a client has read and is about to write. */
  datatype Pending =
    | PendingAppend(id: string, expected: nat, row: Version)
    | PendingLifecycle(id: string, seen: Lifecycle, newState: Lifecycle)

  datatype Sys = Sys(tables: Tables, pending: map<nat, Pending>)

  datatype Op =
      // insertAsset, after which the creator goes on to append version 1
    | BeginCreate(client: nat, id: string, assetType: AssetType, row: Version)
      // appendSkillVersion up to its write
    | BeginAppend(client: nat, id: string, expected: nat, row: Version)
      // setLifecycle up to its write
    | BeginLifecycle(client: nat, id: string, newState: Lifecycle)
    | Write(client: nat, now: string)

  function Step(s: Sys, op: Op): Sys {
    match op
    case BeginCreate(client, id, assetType, row) =>
      if id in s.tables.assets then s.(pending := s.pending - {client})
      else Sys(s.tables.(assets := s.tables.assets[id := Asset(assetType, Draft, 0, None, row.createdAt)]),
               s.pending[client := PendingAppend(id, 0, row)])
    case BeginAppend(client, id, expected, row) =>
      if id in s.tables.assets && s.tables.assets[id].assetType.Skill? && s.tables.assets[id].currentVersion == expected
      then s.(pending := s.pending[client := PendingAppend(id, expected, row)])
      else s.(pending := s.pending - {client})
    case BeginLifecycle(client, id, newState) =>
      if id in s.tables.assets && !(s.tables.assets[id].state.Archived? && !newState.Archived?)
      then s.(pending := s.pending[client := PendingLifecycle(id, s.tables.assets[id].state, newState)])
      else s.(pending := s.pending - {client})
    case Write(client, now) =>
      if client !in s.pending then s
      else Sys(WriteResult(s.tables, s.pending[client], now), s.pending - {client})
  }

  function WriteResult(t: Tables, p: Pending, now: string): Tables {
    match p
    case PendingAppend(id, expected, row) => AppendResult(t, id, expected, expected + 1, row)
    case PendingLifecycle(id, seen, newState) => LifecycleResult(t, id, seen, newState, now)
  }

  const EMPTY := Sys(Tables(map[], map[]), map[])

  function Replay(ops: seq<Op>): Sys {
    if ops == [] then EMPTY else Step(Replay(ops[..|ops| - 1]), ops[|ops| - 1])
  }

  function At(ops: seq<Op>, n: nat): Sys
    requires n <= |ops|
  {
    Replay(ops[..n])
  }

  lemma AtNext(ops: seq<Op>, n: nat)
    requires n < |ops|
    ensures At(ops, n + 1) == Step(At(ops, n), ops[n])
  {
    assert ops[..n + 1][..n] == ops[..n];
  }

  // ---------- the version log ----------

  /** The version rows of an asset are exactly 1..current_version. */
  ghost predicate LogExact(t: Tables) {
    forall id: string, v: nat :: (id, v) in t.versions <==> id in t.assets && 1 <= v <= t.assets[id].currentVersion
  }

  /** `archived_at` is set exactly when archived. */
  ghost predicate StampExact(t: Tables) {
    forall id | id in t.assets :: t.assets[id].archivedAt.Some? <==> t.assets[id].state.Archived?
  }

  /** What a client holds was true of the envelope when it read it, and heads only grow. */
  ghost predicate PendingSound(s: Sys) {
    forall c | c in s.pending ::
      && s.pending[c].id in s.tables.assets
      && (s.pending[c].PendingAppend? ==> s.pending[c].expected <= s.tables.assets[s.pending[c].id].currentVersion)
      && (s.pending[c].PendingLifecycle? && s.pending[c].seen.Archived? ==> s.pending[c].newState.Archived?)
  }

  ghost predicate Invariant(s: Sys) {
    LogExact(s.tables) && StampExact(s.tables) && PendingSound(s)
  }

  /** Under the invariant an append of the next version goes through exactly when the head did not move. */
  lemma AppendDecidedByHead(t: Tables, id: string, expected: nat)
    requires LogExact(t) && id in t.assets && expected <= t.assets[id].currentVersion
    ensures OutcomeOf(t, id, expected, expected + 1) ==
      if t.assets[id].currentVersion == expected then Appended else KeyCollision
  {
    assert (id, expected + 1) in t.versions <==> expected + 1 <= t.assets[id].currentVersion;
  }

  lemma InvariantKept(s: Sys, op: Op)
    requires Invariant(s)
    ensures Invariant(Step(s, op))
  {
    if op.Write? && op.client in s.pending {
      var p := s.pending[op.client];
      if p.PendingAppend? {
        AppendDecidedByHead(s.tables, p.id, p.expected);
        AppendKeepsLog(s.tables, p.id, p.expected, p.row);
      }
    }
  }

  lemma AppendKeepsLog(t: Tables, id: string, expected: nat, row: Version)
    requires LogExact(t) && id in t.assets && expected <= t.assets[id].currentVersion
    ensures LogExact(AppendResult(t, id, expected, expected + 1, row))
  {
    AppendDecidedByHead(t, id, expected);
    var t' := AppendResult(t, id, expected, expected + 1, row);
    forall k: string, v: nat
      ensures (k, v) in t'.versions <==> k in t'.assets && 1 <= v <= t'.assets[k].currentVersion
    {
      assert (k, v) in t.versions <==> k in t.assets && 1 <= v <= t.assets[k].currentVersion;
    }
  }

  lemma {:induction false} AlwaysInvariant(ops: seq<Op>)
    ensures Invariant(Replay(ops))
  {
    if ops != [] {
      AlwaysInvariant(ops[..|ops| - 1]);
      InvariantKept(Replay(ops[..|ops| - 1]), ops[|ops| - 1]);
    }
  }

  /** The loser of a race fails on the primary key; the branch that commits without moving the head is never taken. */
  lemma LoserFailsOnTheKey(ops: seq<Op>, client: nat)
    requires client in Replay(ops).pending && Replay(ops).pending[client].PendingAppend?
    ensures var t, p := Replay(ops).tables, Replay(ops).pending[client];
      && p.id in t.assets
      && OutcomeOf(t, p.id, p.expected, p.expected + 1)
         == if t.assets[p.id].currentVersion == p.expected then Appended else KeyCollision
  {
    AlwaysInvariant(ops);
    var t, p := Replay(ops).tables, Replay(ops).pending[client];
    AppendDecidedByHead(t, p.id, p.expected);
  }

  /**
    A store call that did not read the envelope can take it: exactly when it expects a
    version beyond the head, and then it leaves an orphan.
   */
  lemma UnreadAppendOrphansIff(ops: seq<Op>, id: string, expected: nat, row: Version)
    requires id in Replay(ops).tables.assets
    ensures var t := Replay(ops).tables;
      var t' := AppendResult(t, id, expected, expected + 1, row);
      && (OutcomeOf(t, id, expected, expected + 1) == CasMiss <==> expected > t.assets[id].currentVersion)
      && (LogExact(t') <==> expected <= t.assets[id].currentVersion)
  {
    AlwaysInvariant(ops);
    var t := Replay(ops).tables;
    if expected <= t.assets[id].currentVersion {
      AppendDecidedByHead(t, id, expected);
      AppendKeepsLog(t, id, expected, row);
    } else {
      assert (id, expected + 1) !in t.versions;
      var t' := AppendResult(t, id, expected, expected + 1, row);
      assert (id, expected + 1) in t'.versions;
    }
  }

  lemma StepKeepsRows(s: Sys, op: Op, id: string, v: nat)
    requires Invariant(s)
    ensures id in s.tables.assets ==> id in Step(s, op).tables.assets
    ensures id in s.tables.assets ==>
      s.tables.assets[id].currentVersion <= Step(s, op).tables.assets[id].currentVersion
    ensures (id, v) in s.tables.versions ==>
      (id, v) in Step(s, op).tables.versions && Step(s, op).tables.versions[(id, v)] == s.tables.versions[(id, v)]
    ensures id in s.tables.assets && s.tables.assets[id].state.Archived? ==>
        Step(s, op).tables.assets[id].state.Archived?
  {
    if op.Write? && op.client in s.pending && s.pending[op.client].PendingAppend? {
      AppendDecidedByHead(s.tables, s.pending[op.client].id, s.pending[op.client].expected);
    }
  }

  /** Over any run the head never decreases, no version row changes, and archived stays archived. */
  lemma {:induction false} HistoryIsAppendOnly(ops: seq<Op>, n: nat, m: nat, id: string, v: nat)
    requires n <= m <= |ops| && id in At(ops, n).tables.assets
    ensures id in At(ops, m).tables.assets
    ensures At(ops, n).tables.assets[id].currentVersion <= At(ops, m).tables.assets[id].currentVersion
    ensures (id, v) in At(ops, n).tables.versions ==>
      (id, v) in At(ops, m).tables.versions
          && At(ops, m).tables.versions[(id, v)] == At(ops, n).tables.versions[(id, v)]
    ensures At(ops, n).tables.assets[id].state.Archived? ==> At(ops, m).tables.assets[id].state.Archived?
    decreases m
  {
    if n < m {
      HistoryIsAppendOnly(ops, n, m - 1, id, v);
      AlwaysInvariant(ops[..m - 1]);
      AtNext(ops, m - 1);
      StepKeepsRows(At(ops, m - 1), ops[m - 1], id, v);
    }
  }

  predicate AppendWon(s: Sys, op: Op, id: string, v: nat) {
    && op.Write? && op.client in s.pending
    && s.pending[op.client].PendingAppend? && s.pending[op.client].id == id && s.pending[op.client].expected + 1 == v
    && OutcomeOf(s.tables, id, s.pending[op.client].expected, v) == Appended
  }

  /** Each version of an asset is written by one append of the run. */
  lemma OneWinnerPerVersion(ops: seq<Op>, i: nat, k: nat, id: string, v: nat)
    requires i < k < |ops| && AppendWon(At(ops, i), ops[i], id, v)
    ensures !AppendWon(At(ops, k), ops[k], id, v)
  {
    AtNext(ops, i);
    HistoryIsAppendOnly(ops, i + 1, k, id, v);
  }

  // ---------- the store and service objects ----------

  datatype ServiceError = AssetNotFound | AlreadyTerminal | CasMismatch | BindingInvalid | KeyViolation

  datatype ServiceResult<T> = Success(value: T) | Failure(error: ServiceError)

  predicate ValidBodyHash(h: string) {
    && |h| == 71 && h[..7] == "sha256:"
    && forall i | 7 <= i < 71 :: '0' <= h[i] <= '9' || 'a' <= h[i] <= 'f'
  }

  class AssetStore {
    var assets: map<string, Asset>
    var versions: map<(string, nat), Version>

    function Current(): Tables
      reads this
    {
      Tables(assets, versions)
    }

    ghost predicate Valid()
      reads this
    {
      LogExact(Current()) && StampExact(Current())
    }

    constructor ()
      ensures Valid() && Current() == EMPTY.tables
    {
      assets, versions := map[], map[];
    }

    method InsertAsset(id: string, row: Asset) returns (inserted: bool)
      modifies this`assets
      ensures inserted <==> id !in old(assets)
      ensures assets == if inserted then old(assets)[id := row] else old(assets)
    {
      inserted := id !in assets;
      if inserted {
        assets := assets[id := row];
      }
    }

    /** BEGIN; INSERT version; guarded UPDATE of the head; COMMIT, or ROLLBACK on a constraint error. */
    method AppendAssetVersion(id: string, expected: nat, newVersion: nat, row: Version) returns (outcome: AppendOutcome)
      modifies this
      ensures outcome == OutcomeOf(old(Current()), id, expected, newVersion)
      ensures Current() == AppendResult(old(Current()), id, expected, newVersion, row)
    {
      if (id, newVersion) in versions {
        return KeyCollision;
      }
      if id !in assets {
        return NoSuchAsset;
      }
      versions := versions[(id, newVersion) := row];
      if assets[id].currentVersion != expected {
        return CasMiss;
      }
      assets := assets[id := assets[id].(currentVersion := newVersion, updatedAt := row.createdAt)];
      return Appended;
    }

    method SetAssetLifecycle(id: string, expected: Lifecycle, newState: Lifecycle, now: string) returns (changed: bool)
      modifies this`assets
      ensures changed <==> id in old(assets) && old(assets)[id].state == expected
      ensures Current() == LifecycleResult(old(Current()), id, expected, newState, now)
    {
      changed := id in assets && assets[id].state == expected;
      if changed {
        var archivedAt := if newState == Archived then Some(now) else None;
        assets := assets[id := assets[id].(state := newState, archivedAt := archivedAt, updatedAt := now)];
      }
    }

    /** `appendSkillVersion` without interference between its read and its write. */
    method AppendSkillVersion(id: string, expected: int, bodyHash: string, actor: string, now: string)
      returns (r: ServiceResult<nat>)
      requires Valid()
      modifies this
      ensures Valid()
      ensures r.Success? <==> ValidBodyHash(bodyHash) && id in old(assets) && old(assets)[id].assetType.Skill?
                              && expected == old(assets)[id].currentVersion
      ensures r.Success? ==> r.value == expected + 1 && id in assets && assets[id].currentVersion == r.value
                             && versions == old(versions)[(id, r.value) := Version(bodyHash, actor, now)]
      ensures r.Failure? ==> Current() == old(Current())
      ensures r == Failure(CasMismatch) <==>
        ValidBodyHash(bodyHash) && expected >= 0 && id in old(assets) && old(assets)[id].assetType.Skill?
        && expected != old(assets)[id].currentVersion
    {
      if !ValidBodyHash(bodyHash) || expected < 0 {
        return Failure(BindingInvalid);
      }
      if id !in assets {
        return Failure(AssetNotFound);
      }
      if assets[id].assetType != Skill {
        return Failure(BindingInvalid);
      }
      if assets[id].currentVersion != expected {
        return Failure(CasMismatch);
      }
      AppendKeepsLog(Current(), id, expected, Version(bodyHash, actor, now));
      AppendDecidedByHead(Current(), id, expected);
      var outcome := AppendAssetVersion(id, expected, expected + 1, Version(bodyHash, actor, now));
      if outcome != Appended {
        return Failure(if outcome == CasMiss then CasMismatch else KeyViolation);
      }
      return Success(expected + 1);
    }

    /** `createSkillVersion`: envelope at version 0, then version 1. */
    method CreateSkillVersion(id: string, bodyHash: string, actor: string, now: string) returns (r: ServiceResult<nat>)
      requires Valid() && id !in assets
      modifies this
      ensures Valid()
      ensures r.Success? <==> ValidBodyHash(bodyHash)
      ensures r.Success? ==> r.value == 1 && assets == old(assets)[id := Asset(Skill, Draft, 1, None, now)]
                             && versions == old(versions)[(id, 1) := Version(bodyHash, actor, now)]
      ensures r.Failure? ==> Current() == old(Current())
    {
      if !ValidBodyHash(bodyHash) {
        return Failure(BindingInvalid);
      }
      assert forall v: nat :: (id, v) !in versions;
      var inserted := InsertAsset(id, Asset(Skill, Draft, 0, None, now));
      AppendKeepsLog(Current(), id, 0, Version(bodyHash, actor, now));
      var outcome := AppendAssetVersion(id, 0, 1, Version(bodyHash, actor, now));
      return Success(1);
    }

    method SetLifecycle(id: string, newState: Lifecycle, now: string) returns (r: ServiceResult<Asset>)
      requires Valid()
      modifies this
      ensures Valid()
      ensures r.Success? <==> id in old(assets) && (old(assets)[id].state.Archived? ==> newState.Archived?)
      ensures r.Success? ==> assets == old(assets)[id := r.value] && versions == old(versions)
                             && r.value.state == newState && r.value.currentVersion == old(assets)[id].currentVersion
                             && r.value.archivedAt == (if newState.Archived? then Some(now) else None)
      ensures r.Failure? ==> Current() == old(Current())
                             && r.error == if id in old(assets) then AlreadyTerminal else AssetNotFound
    {
      if id !in assets {
        return Failure(AssetNotFound);
      }
      if assets[id].state == Archived && newState != Archived {
        return Failure(AlreadyTerminal);
      }
      var changed := SetAssetLifecycle(id, assets[id].state, newState, now);
      return Success(assets[id]);
    }
  }
}
