/** The columns of an asset and of its versions: which statement writes which, and what never changes. */
module AssetColumns {
  import opened Common
  import opened AssetRegistry

  /**
    What `appendAssetVersion` does: nothing when the version is there or the
    asset is not; the version row alone when the head is elsewhere; else the
    row, the head and the time of the update. Type, state and archive stamp stay.
   */
  lemma AppendColumns(t: Tables, id: string, expected: nat, newVersion: nat, row: Version)
    ensures var after := AppendResult(t, id, expected, newVersion, row);
            if (id, newVersion) in t.versions || id !in t.assets then
              && after == t
              && OutcomeOf(t, id, expected, newVersion) == if id in t.assets || (id, newVersion) in t.versions
                                                           then KeyCollision else NoSuchAsset
            else
              && after.versions == t.versions[(id, newVersion) := row] && id in after.assets
              && after.assets[id].assetType == t.assets[id].assetType && after.assets[id].state == t.assets[id].state
              && after.assets[id].archivedAt == t.assets[id].archivedAt
              && (t.assets[id].currentVersion == expected ==>
                    && OutcomeOf(t, id, expected, newVersion) == Appended
                    && after.assets[id].currentVersion == newVersion && after.assets[id].updatedAt == row.createdAt)
              && (t.assets[id].currentVersion != expected ==>
                    OutcomeOf(t, id, expected, newVersion) == CasMiss && after.assets[id] == t.assets[id])
    ensures forall other | other in t.assets && other != id ::
              && other in AppendResult(t, id, expected, newVersion, row).assets
              && AppendResult(t, id, expected, newVersion, row).assets[other] == t.assets[other]
  {
  }

  /** What the guarded lifecycle update does: state, archive stamp and time, or nothing when the state moved on. */
  lemma LifecycleColumns(t: Tables, id: string, expected: Lifecycle, newState: Lifecycle, now: string)
    ensures var after := LifecycleResult(t, id, expected, newState, now);
            && after.versions == t.versions && after.assets.Keys == t.assets.Keys
            && (id in t.assets && t.assets[id].state == expected ==>
                  && after.assets[id].state == newState && after.assets[id].updatedAt == now
                  && after.assets[id].archivedAt == (if newState == Archived then Some(now) else None)
                  && after.assets[id].assetType == t.assets[id].assetType
                  && after.assets[id].currentVersion == t.assets[id].currentVersion)
            && (id in t.assets && t.assets[id].state != expected ==> after.assets[id] == t.assets[id])
            && (forall other | other in t.assets && other != id :: after.assets[other] == t.assets[other])
  {
  }

  // ---------- over runs ----------

  /** The step is a write of the lifecycle that client holds for this asset. */
  predicate WritesLifecycle(s: Sys, op: Op, id: string) {
    op.Write? && op.client in s.pending && s.pending[op.client].PendingLifecycle? && s.pending[op.client].id == id
  }

  predicate WritesVersion(s: Sys, op: Op, id: string) {
    op.Write? && op.client in s.pending && s.pending[op.client].PendingAppend? && s.pending[op.client].id == id
  }

  /** The head and the state of an asset move apart: by an append the one, by a lifecycle write the other. */
  lemma OneWriterPerColumn(s: Sys, op: Op, id: string)
    requires id in s.tables.assets
    ensures id in Step(s, op).tables.assets
    ensures var was, asset := s.tables.assets[id], Step(s, op).tables.assets[id];
            && asset.assetType == was.assetType
            && (!WritesLifecycle(s, op, id) ==> asset.state == was.state && asset.archivedAt == was.archivedAt)
            && (!WritesVersion(s, op, id) ==> asset.currentVersion == was.currentVersion)
            && (!WritesLifecycle(s, op, id) && !WritesVersion(s, op, id) ==> asset == was)
  {
    if op.Write? && op.client in s.pending {
      var p := s.pending[op.client];
      if p.PendingAppend? {
        AppendColumns(s.tables, p.id, p.expected, p.expected + 1, p.row);
      } else {
        LifecycleColumns(s.tables, p.id, p.seen, p.newState, op.now);
      }
    }
  }

  /** Over any run an asset keeps its type. */
  lemma {:induction false} TypeNeverChanges(ops: seq<Op>, n: nat, m: nat, id: string)
    requires n <= m <= |ops| && id in At(ops, n).tables.assets
    ensures id in At(ops, m).tables.assets
    ensures At(ops, m).tables.assets[id].assetType == At(ops, n).tables.assets[id].assetType
    decreases m
  {
    if n < m {
      TypeNeverChanges(ops, n, m - 1, id);
      AtNext(ops, m - 1);
      OneWriterPerColumn(At(ops, m - 1), ops[m - 1], id);
    }
  }

  /** Without a lifecycle write of it, an asset also keeps its state and archive stamp, whatever is appended. */
  lemma {:induction false} StateMovesOnlyByLifecycle(ops: seq<Op>, n: nat, m: nat, id: string)
    requires n <= m <= |ops| && id in At(ops, n).tables.assets
    requires forall i | n <= i < m :: !WritesLifecycle(At(ops, i), ops[i], id)
    ensures id in At(ops, m).tables.assets
    ensures At(ops, m).tables.assets[id].state == At(ops, n).tables.assets[id].state
    ensures At(ops, m).tables.assets[id].archivedAt == At(ops, n).tables.assets[id].archivedAt
    decreases m
  {
    if n < m {
      StateMovesOnlyByLifecycle(ops, n, m - 1, id);
      AtNext(ops, m - 1);
      OneWriterPerColumn(At(ops, m - 1), ops[m - 1], id);
    }
  }

  /** A new asset is a draft at version 0, of the type asked for, and its creator holds the append of version 1. */
  lemma CreatedAs(s: Sys, client: nat, id: string, assetType: AssetType, row: Version)
    ensures var after := Step(s, BeginCreate(client, id, assetType, row));
            && after.tables.versions == s.tables.versions
            && (id !in s.tables.assets ==>
                  && after.tables.assets == s.tables.assets[id := Asset(assetType, Draft, 0, None, row.createdAt)]
                  && client in after.pending && after.pending[client] == PendingAppend(id, 0, row))
            && (id in s.tables.assets ==> after.tables == s.tables && client !in after.pending)
  {
  }

  /** What a client goes on with after its read. */
  lemma ReadsDecide(s: Sys, client: nat, id: string, expected: nat, row: Version, newState: Lifecycle)
    ensures client in Step(s, BeginAppend(client, id, expected, row)).pending <==>
              id in s.tables.assets && s.tables.assets[id].assetType == Skill
              && s.tables.assets[id].currentVersion == expected
    ensures client in Step(s, BeginLifecycle(client, id, newState)).pending <==>
              id in s.tables.assets && (s.tables.assets[id].state == Archived ==> newState == Archived)
    ensures Step(s, BeginAppend(client, id, expected, row)).tables == s.tables
    ensures Step(s, BeginLifecycle(client, id, newState)).tables == s.tables
  {
  }

  /** A write that goes through gives the version row its author, time and hash for good. */
  lemma WonVersionStays(ops: seq<Op>, i: nat, m: nat, id: string, v: nat)
    requires i < m <= |ops| && AppendWon(At(ops, i), ops[i], id, v)
    ensures var row := At(ops, i).pending[ops[i].client].row;
            && (id, v) in At(ops, m).tables.versions && At(ops, m).tables.versions[(id, v)] == row
  {
    AtNext(ops, i);
    HistoryIsAppendOnly(ops, i + 1, m, id, v);
  }

  // ---------- body hashes ----------

  predicate IsHex(c: char) {
    c in "0123456789abcdef"
  }

  /** A body hash is "sha256:" and 64 lower-case hexadecimal digits. */
  lemma BodyHashIff(h: string)
    ensures ValidBodyHash(h) <==>
              exists digits: string :: h == "sha256:" + digits && |digits| == 64 && forall c | c in digits :: IsHex(c)
  {
    if ValidBodyHash(h) {
      var digits := h[7..];
      assert h == "sha256:" + digits;
      forall c | c in digits
        ensures IsHex(c)
      {
        var i :| 0 <= i < |digits| && digits[i] == c;
        assert h[i + 7] == c;
        HexIff(c);
      }
    }
    if digits: string :| h == "sha256:" + digits && |digits| == 64 && forall c | c in digits :: IsHex(c) {
      assert h[..7] == "sha256:";
      forall i | 7 <= i < 71
        ensures '0' <= h[i] <= '9' || 'a' <= h[i] <= 'f'
      {
        assert h[i] == digits[i - 7];
        HexIff(h[i]);
      }
    }
  }

  lemma HexIff(c: char)
    ensures IsHex(c) <==> '0' <= c <= '9' || 'a' <= c <= 'f'
  {
    assert "0123456789abcdef" == ['0', '1', '2', '3', '4', '5', '6', '7', '8', '9', 'a', 'b', 'c', 'd', 'e', 'f'];
    if '0' <= c <= '9' {
      assert "0123456789abcdef"[c as int - '0' as int] == c;
    }
    if 'a' <= c <= 'f' {
      assert "0123456789abcdef"[10 + c as int - 'a' as int] == c;
    }
  }
}
