/**
 * The remote transaction table and the reconciliation rules of the data
 * service, stated on values: what a remote insert does, when the local and
 * remote tables agree, the effect of `syncPending`'s loop, and what
 * `pullUserData` stores.
 */
module SyncSpec {
  import opened Wrappers
  import opened FinanceDb

  /** A row of the remote `transactions` table; `id` and `synced` are never sent. */
  datatype RemoteRow = RemoteRow(
    uuid: string,
    amount: int,
    kind: TxType,
    category: string,
    description: string,
    date: string,
    fileUrl: Option<string>)

  /** The remote table, keyed by the sync id. */
  type RemoteTable = map<string, RemoteRow>

  /** What one remote insert reports: no error, an error object, or a thrown exception. */
  datatype InsertOutcome = InsertOk | InsertError | NetworkThrow

  /** The sync id `clearAllData`'s bulk delete spares (`neq('uuid', ...)`). */
  const NIL_UUID: string := "00000000-0000-0000-0000-000000000000"

  /** What `syncPending` sends for a stored row: the ledger entry and its `file_url`. */
  function SyncRow(t: Transaction): (row: RemoteRow)
    ensures Mirrors(t, row) && row.fileUrl == t.fileUrl
  {
    RemoteRow(t.uuid, t.amount, t.kind, t.category, t.description, t.date, t.fileUrl)
  }

  /** What `addTransaction` sends: the same ledger entry, but never a `file_url`. */
  function AddRow(t: Transaction): (row: RemoteRow)
    ensures Mirrors(t, row) && row.fileUrl == None
    ensures t.fileUrl == None <==> row == SyncRow(t)
  {
    SyncRow(t).(fileUrl := None)
  }

  /**
   * The remote table stores an insert that reports no error; a sync id already
   * present is refused, so an accepted insert never overwrites a row.
   */
  predicate Accepts(remote: RemoteTable, row: RemoteRow, outcome: InsertOutcome): (b: bool)
    ensures b ==> outcome == InsertOk
    ensures outcome == InsertOk && !b ==> row.uuid in remote
    ensures b ==> forall u :: u in remote ==> u in remote[row.uuid := row] && remote[row.uuid := row][u] == remote[u]
  {
    outcome == InsertOk && row.uuid !in remote
  }

  /** Every remote row sits under its own sync id. */
  ghost predicate RemoteKeyed(remote: RemoteTable)
  {
    forall u :: u in remote ==> remote[u].uuid == u
  }

  /** A remote row carries the same ledger entry as a local one (`file_url` aside). */
  predicate Mirrors(t: Transaction, row: RemoteRow)
  {
    && row.uuid == t.uuid && row.amount == t.amount && row.kind == t.kind
    && row.category == t.category && row.description == t.description && row.date == t.date
  }

  /**
   * The local and remote transaction tables agree: the local table is well
   * formed, a local row is flagged synced exactly when the remote table holds
   * its sync id, and then the remote row carries the same ledger entry.
   */
  ghost predicate TablesValid(txs: seq<Transaction>, next: nat, remote: RemoteTable)
  {
    && ValidTxTable(txs, next)
    && RemoteKeyed(remote)
    && (forall i :: 0 <= i < |txs| ==> (txs[i].synced == SYNCED <==> txs[i].uuid in remote))
    && (forall i :: 0 <= i < |txs| && txs[i].uuid in remote ==> Mirrors(txs[i], remote[txs[i].uuid]))
  }

  /** The tables and what the loop of `syncPending` leaves of them. */
  datatype SyncResult = SyncResult(txs: seq<Transaction>, remote: RemoteTable, thrown: bool)

  /**
   * The loop of `syncPending` over the still-unsent rows `pending`, the k-th
   * remote insert reporting `outcomes[k]`: an accepted insert flips that row
   * to synced, a reported error leaves it, a thrown error ends the loop.
   */
  function SyncLoop(txs: seq<Transaction>, remote: RemoteTable,
                    pending: seq<Transaction>, outcomes: seq<InsertOutcome>): (r: SyncResult)
    requires |outcomes| == |pending|
    ensures |r.txs| == |txs|
    ensures forall j :: 0 <= j < |txs| ==> r.txs[j].(synced := txs[j].synced) == txs[j]
    decreases |pending|
  {
    if |pending| == 0 then SyncResult(txs, remote, false)
    else if outcomes[0] == NetworkThrow then SyncResult(txs, remote, true)
    else if Accepts(remote, SyncRow(pending[0]), outcomes[0]) then
      SyncLoop(MarkSynced(txs, pending[0].id), remote[pending[0].uuid := SyncRow(pending[0])],
               pending[1..], outcomes[1..])
    else SyncLoop(txs, remote, pending[1..], outcomes[1..])
  }

  /** Keys of the rows whose insert reported no error, up to the first thrown error. */
  function SentOk(pending: seq<Transaction>, outcomes: seq<InsertOutcome>): set<nat>
    requires |outcomes| == |pending|
    decreases |pending|
  {
    if |pending| == 0 || outcomes[0] == NetworkThrow then {}
    else (if outcomes[0] == InsertOk then {pending[0].id} else {}) + SentOk(pending[1..], outcomes[1..])
  }

  /** A row is never flipped back: each row either stays as it was or goes from pending to synced. */
  lemma {:induction false} SyncLoopNeverReverts(txs: seq<Transaction>, remote: RemoteTable,
                                                pending: seq<Transaction>, outcomes: seq<InsertOutcome>)
    requires |outcomes| == |pending|
    requires FlagsBinary(txs)
    ensures var r := SyncLoop(txs, remote, pending, outcomes);
      && |r.txs| == |txs|
      && forall j :: 0 <= j < |txs| ==>
           r.txs[j] == txs[j] || (txs[j].synced == PENDING && r.txs[j] == txs[j].(synced := SYNCED))
    decreases |pending|
  {
    if |pending| > 0 && outcomes[0] != NetworkThrow {
      if Accepts(remote, SyncRow(pending[0]), outcomes[0]) {
        var t1 := MarkSynced(txs, pending[0].id);
        var r1 := remote[pending[0].uuid := SyncRow(pending[0])];
        SyncLoopNeverReverts(t1, r1, pending[1..], outcomes[1..]);
        var r := SyncLoop(t1, r1, pending[1..], outcomes[1..]);
        forall j | 0 <= j < |txs|
          ensures r.txs[j] == txs[j] || (txs[j].synced == PENDING && r.txs[j] == txs[j].(synced := SYNCED))
        {
          if txs[j].synced == SYNCED {
            assert t1[j] == txs[j];
          } else if t1[j] != txs[j] {
            assert t1[j] == txs[j].(synced := SYNCED);
          }
        }
      } else {
        SyncLoopNeverReverts(txs, remote, pending[1..], outcomes[1..]);
      }
    }
  }

  /** Remote rows are only added: every row the remote table held is still there unchanged. */
  lemma {:induction false} SyncLoopRemoteGrows(txs: seq<Transaction>, remote: RemoteTable,
                                               pending: seq<Transaction>, outcomes: seq<InsertOutcome>)
    requires |outcomes| == |pending|
    ensures var r := SyncLoop(txs, remote, pending, outcomes);
      forall u :: u in remote ==> u in r.remote && r.remote[u] == remote[u]
    decreases |pending|
  {
    if |pending| > 0 && outcomes[0] != NetworkThrow {
      if Accepts(remote, SyncRow(pending[0]), outcomes[0]) {
        SyncLoopRemoteGrows(MarkSynced(txs, pending[0].id), remote[pending[0].uuid := SyncRow(pending[0])],
                            pending[1..], outcomes[1..]);
      } else {
        SyncLoopRemoteGrows(txs, remote, pending[1..], outcomes[1..]);
      }
    }
  }

  /** The loop reports a thrown error exactly when one of the inserts throws. */
  lemma {:induction false} SyncLoopThrows(txs: seq<Transaction>, remote: RemoteTable,
                                          pending: seq<Transaction>, outcomes: seq<InsertOutcome>)
    requires |outcomes| == |pending|
    ensures SyncLoop(txs, remote, pending, outcomes).thrown <==> NetworkThrow in outcomes
    decreases |pending|
  {
    if |pending| > 0 {
      assert outcomes == [outcomes[0]] + outcomes[1..];
      if outcomes[0] != NetworkThrow {
        if Accepts(remote, SyncRow(pending[0]), outcomes[0]) {
          SyncLoopThrows(MarkSynced(txs, pending[0].id), remote[pending[0].uuid := SyncRow(pending[0])],
                         pending[1..], outcomes[1..]);
        } else {
          SyncLoopThrows(txs, remote, pending[1..], outcomes[1..]);
        }
      }
    }
  }

  /** Only a row whose insert reported no error, before any thrown error, is flipped. */
  lemma {:induction false} SyncLoopFlipsOnlySentOk(txs: seq<Transaction>, remote: RemoteTable,
                                                   pending: seq<Transaction>, outcomes: seq<InsertOutcome>)
    requires |outcomes| == |pending|
    ensures var r := SyncLoop(txs, remote, pending, outcomes);
      && |r.txs| == |txs|
      && forall j :: 0 <= j < |txs| && txs[j].id !in SentOk(pending, outcomes) ==> r.txs[j] == txs[j]
    decreases |pending|
  {
    if |pending| > 0 && outcomes[0] != NetworkThrow {
      if Accepts(remote, SyncRow(pending[0]), outcomes[0]) {
        var t1 := MarkSynced(txs, pending[0].id);
        SyncLoopFlipsOnlySentOk(t1, remote[pending[0].uuid := SyncRow(pending[0])], pending[1..], outcomes[1..]);
      } else {
        SyncLoopFlipsOnlySentOk(txs, remote, pending[1..], outcomes[1..]);
      }
    }
  }

  /** `pending` lists, in key order, rows of `txs` still flagged pending, over consistent tables. */
  ghost predicate LoopReady(txs: seq<Transaction>, next: nat, remote: RemoteTable, pending: seq<Transaction>)
  {
    && TablesValid(txs, next, remote)
    && TxKeysAscending(pending)
    && forall k :: 0 <= k < |pending| ==> pending[k] in txs && pending[k].synced == PENDING
  }

  /** What `where('synced').equals(0)` reads is a list the loop can run on. */
  lemma PendingReady(txs: seq<Transaction>, next: nat, remote: RemoteTable)
    requires TablesValid(txs, next, remote)
    ensures LoopReady(txs, next, remote, WherePending(txs))
  {
    WherePendingAscending(txs);
  }

  /** Flipping one key leaves every row with another key where it was. */
  lemma MarkSyncedKeeps(txs: seq<Transaction>, id: nat, x: Transaction)
    requires x in txs && x.id != id
    ensures x in MarkSynced(txs, id)
  {
    var m :| 0 <= m < |txs| && txs[m] == x;
    assert MarkSynced(txs, id)[m] == x;
  }

  /** One accepted insert keeps the tables consistent and the rest of the list ready. */
  lemma StepReady(txs: seq<Transaction>, next: nat, remote: RemoteTable, pending: seq<Transaction>)
    requires LoopReady(txs, next, remote, pending) && |pending| > 0
    ensures pending[0].uuid !in remote
    ensures LoopReady(MarkSynced(txs, pending[0].id), next,
                      remote[pending[0].uuid := SyncRow(pending[0])], pending[1..])
  {
    var x := pending[0];
    assert x in txs;
    var m :| 0 <= m < |txs| && txs[m] == x;
    FlipValid(txs, next, remote, m, SyncRow(x));
    var t1 := MarkSynced(txs, x.id);
    forall k | 1 <= k < |pending| ensures pending[k] in t1 {
      MarkSyncedKeeps(txs, x.id, pending[k]);
    }
  }

  /** Flipping a pending row while inserting a remote row that mirrors it keeps the tables consistent. */
  lemma FlipValid(txs: seq<Transaction>, next: nat, remote: RemoteTable, m: nat, row: RemoteRow)
    requires TablesValid(txs, next, remote)
    requires m < |txs| && txs[m].synced == PENDING && Mirrors(txs[m], row)
    ensures txs[m].uuid !in remote
    ensures TablesValid(MarkSynced(txs, txs[m].id), next, remote[txs[m].uuid := row])
  {
    var x := txs[m];
    var t1 := MarkSynced(txs, x.id);
    var r1 := remote[x.uuid := row];
    assert t1[m] == x.(synced := SYNCED);
    forall j | 0 <= j < |txs| && j != m ensures t1[j] == txs[j] && txs[j].uuid != x.uuid {
      assert txs[j].id != x.id;
    }
    assert ValidTxTable(t1, next);
    assert RemoteKeyed(r1);
    forall i | 0 <= i < |t1|
      ensures (t1[i].synced == SYNCED <==> t1[i].uuid in r1)
      ensures t1[i].uuid in r1 ==> Mirrors(t1[i], r1[t1[i].uuid])
    {
    }
  }

  /** Appending a pending row under the next key with an unused sync id keeps the tables consistent. */
  lemma AppendPendingValid(txs: seq<Transaction>, next: nat, remote: RemoteTable, t: Transaction)
    requires TablesValid(txs, next, remote)
    requires t.id == next && t.synced == PENDING && t.uuid !in remote
    requires forall i :: 0 <= i < |txs| ==> txs[i].uuid != t.uuid
    ensures TablesValid(txs + [t], next + 1, remote)
  {
    var r := txs + [t];
    assert forall i :: 0 <= i < |txs| ==> r[i] == txs[i];
    assert r[|txs|] == t;
    assert TxKeysBelow(r, next + 1);
    assert UuidsDistinct(r);
  }

  /** `syncPending`'s loop keeps the local and remote tables consistent. */
  lemma {:induction false} SyncLoopValid(txs: seq<Transaction>, next: nat, remote: RemoteTable,
                                         pending: seq<Transaction>, outcomes: seq<InsertOutcome>)
    requires |outcomes| == |pending|
    requires LoopReady(txs, next, remote, pending)
    ensures var r := SyncLoop(txs, remote, pending, outcomes); TablesValid(r.txs, next, r.remote)
    decreases |pending|
  {
    if |pending| > 0 && outcomes[0] != NetworkThrow {
      if Accepts(remote, SyncRow(pending[0]), outcomes[0]) {
        StepReady(txs, next, remote, pending);
        SyncLoopValid(MarkSynced(txs, pending[0].id), next, remote[pending[0].uuid := SyncRow(pending[0])],
                      pending[1..], outcomes[1..]);
      } else {
        SyncLoopValid(txs, next, remote, pending[1..], outcomes[1..]);
      }
    }
  }

  /** On consistent tables every insert that reported no error, before any thrown one, flips its row. */
  lemma {:induction false} SyncLoopFlipsSentOk(txs: seq<Transaction>, next: nat, remote: RemoteTable,
                                               pending: seq<Transaction>, outcomes: seq<InsertOutcome>)
    requires |outcomes| == |pending|
    requires LoopReady(txs, next, remote, pending)
    ensures var r := SyncLoop(txs, remote, pending, outcomes);
      && |r.txs| == |txs|
      && forall j :: 0 <= j < |txs| && txs[j].id in SentOk(pending, outcomes) ==> r.txs[j].synced == SYNCED
    decreases |pending|
  {
    SyncLoopNeverReverts(txs, remote, pending, outcomes);
    if |pending| > 0 && outcomes[0] != NetworkThrow {
      var rest := SentOk(pending[1..], outcomes[1..]);
      if outcomes[0] == InsertOk {
        StepReady(txs, next, remote, pending);
        var t1 := MarkSynced(txs, pending[0].id);
        var r1 := remote[pending[0].uuid := SyncRow(pending[0])];
        SyncLoopFlipsSentOk(t1, next, r1, pending[1..], outcomes[1..]);
        SyncLoopNeverReverts(t1, r1, pending[1..], outcomes[1..]);
        var r := SyncLoop(t1, r1, pending[1..], outcomes[1..]);
        forall j | 0 <= j < |txs| && txs[j].id in SentOk(pending, outcomes) ensures r.txs[j].synced == SYNCED {
          if txs[j].id == pending[0].id {
            assert t1[j].synced == SYNCED;
          } else {
            assert t1[j].id == txs[j].id && txs[j].id in rest;
          }
        }
      } else {
        SyncLoopFlipsSentOk(txs, next, remote, pending[1..], outcomes[1..]);
      }
    }
  }

  /** Every listed row counts as sent when every insert reports no error. */
  lemma {:induction false} SentOkAll(pending: seq<Transaction>, outcomes: seq<InsertOutcome>)
    requires |outcomes| == |pending|
    requires forall k :: 0 <= k < |outcomes| ==> outcomes[k] == InsertOk
    ensures forall k :: 0 <= k < |pending| ==> pending[k].id in SentOk(pending, outcomes)
    decreases |pending|
  {
    if |pending| > 0 {
      SentOkAll(pending[1..], outcomes[1..]);
      assert forall k :: 1 <= k < |pending| ==> pending[k] == pending[1..][k - 1];
    }
  }

  /** A table with no row flagged pending has nothing to send. */
  lemma {:induction false} NoPendingRows(txs: seq<Transaction>)
    requires forall j :: 0 <= j < |txs| ==> txs[j].synced != PENDING
    ensures WherePending(txs) == []
  {
    if txs != [] { NoPendingRows(txs[1..]); }
  }

  /**
   * After a run in which every insert reports no error, no row is pending any
   * more, so a second `syncPending` sends nothing and changes nothing.
   */
  lemma SyncAllOkThenNothingPending(txs: seq<Transaction>, next: nat, remote: RemoteTable,
                                    outcomes: seq<InsertOutcome>)
    requires TablesValid(txs, next, remote)
    requires |outcomes| == |WherePending(txs)|
    requires forall k :: 0 <= k < |outcomes| ==> outcomes[k] == InsertOk
    ensures var r := SyncLoop(txs, remote, WherePending(txs), outcomes);
      && !r.thrown
      && WherePending(r.txs) == []
      && SyncLoop(r.txs, r.remote, WherePending(r.txs), []) == SyncResult(r.txs, r.remote, false)
  {
    var p := WherePending(txs);
    var r := SyncLoop(txs, remote, p, outcomes);
    PendingReady(txs, next, remote);
    SyncLoopThrows(txs, remote, p, outcomes);
    SentOkAll(p, outcomes);
    SyncLoopFlipsSentOk(txs, next, remote, p, outcomes);
    SyncLoopNeverReverts(txs, remote, p, outcomes);
    forall j | 0 <= j < |r.txs| ensures r.txs[j].synced != PENDING {
      if txs[j].synced == PENDING {
        assert txs[j] in p;
        var k :| 0 <= k < |p| && p[k] == txs[j];
      }
    }
    NoPendingRows(r.txs);
  }

  /** The failure-free part of what `syncPending` leaves: reported errors keep rows pending. */
  lemma SyncLoopErrorKeepsPending(txs: seq<Transaction>, remote: RemoteTable,
                                  pending: seq<Transaction>, outcomes: seq<InsertOutcome>, j: nat)
    requires |outcomes| == |pending|
    requires j < |txs| && txs[j].synced == PENDING
    requires forall k :: 0 <= k < |pending| && pending[k].id == txs[j].id ==> outcomes[k] != InsertOk
    ensures var r := SyncLoop(txs, remote, pending, outcomes); |r.txs| == |txs| && r.txs[j] == txs[j]
  {
    SentOkExcludes(pending, outcomes, txs[j].id);
    SyncLoopFlipsOnlySentOk(txs, remote, pending, outcomes);
  }

  /** A key none of whose listed inserts reported no error is not counted as sent. */
  lemma {:induction false} SentOkExcludes(pending: seq<Transaction>, outcomes: seq<InsertOutcome>, id: nat)
    requires |outcomes| == |pending|
    requires forall k :: 0 <= k < |pending| && pending[k].id == id ==> outcomes[k] != InsertOk
    ensures id !in SentOk(pending, outcomes)
    decreases |pending|
  {
    if |pending| > 0 {
      assert forall k :: 1 <= k < |pending| ==> pending[k] == pending[1..][k - 1] && outcomes[k] == outcomes[1..][k - 1];
      SentOkExcludes(pending[1..], outcomes[1..], id);
    }
  }

  /**
   * The row `pullUserData` stores for a fetched remote row: the same ledger
   * entry under the given key, flagged synced, `file_url` not copied; sending
   * it back gives the fetched row without its `file_url`.
   */
  function FromRemote(row: RemoteRow, id: nat): (t: Transaction)
    ensures t.id == id && t.synced == SYNCED && t.fileUrl == None
    ensures Mirrors(t, row)
    ensures SyncRow(t) == AddRow(t) == row.(fileUrl := None)
  {
    Transaction(id, row.uuid, row.amount, row.kind, row.category, row.description, row.date, SYNCED, None)
  }

  /** The local table `pullUserData` rebuilds from `rows`, keys counting up from `base`. */
  function Imported(rows: seq<RemoteRow>, base: nat): (r: seq<Transaction>)
    ensures |r| == |rows|
  {
    seq(|rows|, i requires 0 <= i < |rows| => FromRemote(rows[i], base + i))
  }

  /** Importing one more row appends it under the next key. */
  lemma ImportedStep(rows: seq<RemoteRow>, i: nat, base: nat)
    requires i < |rows|
    ensures Imported(rows[..i + 1], base) == Imported(rows[..i], base) + [FromRemote(rows[i], base + i)]
  {
    assert rows[..i + 1][..i] == rows[..i];
  }

  /** `rows` is the whole remote table, each row once (what `select('*')` returns). */
  ghost predicate IsListing(rows: seq<RemoteRow>, remote: RemoteTable)
  {
    && (forall i :: 0 <= i < |rows| ==> rows[i].uuid in remote && remote[rows[i].uuid] == rows[i])
    && (forall i, j :: 0 <= i < j < |rows| ==> rows[i].uuid != rows[j].uuid)
    && (forall u :: u in remote ==> exists i :: 0 <= i < |rows| && rows[i].uuid == u)
  }

  /**
   * After a pull the local table is the remote table: one local row per
   * remote row, under the same sync id, flagged synced, with the same ledger
   * entry and without `file_url`; whatever was local before is gone.
   */
  lemma ImportedIsSnapshot(rows: seq<RemoteRow>, base: nat, remote: RemoteTable)
    requires IsListing(rows, remote)
    ensures var t := Imported(rows, base);
      && (forall u :: u in remote <==> exists i :: 0 <= i < |t| && t[i].uuid == u)
      && (forall i :: 0 <= i < |t| ==>
            t[i].synced == SYNCED && t[i].fileUrl == None && Mirrors(t[i], remote[t[i].uuid]))
  {
    var t := Imported(rows, base);
    forall i | 0 <= i < |t|
      ensures t[i].uuid == rows[i].uuid && t[i].synced == SYNCED && t[i].fileUrl == None
      ensures Mirrors(t[i], remote[t[i].uuid])
    {
      assert t[i] == FromRemote(rows[i], base + i);
    }
    forall u | u in remote ensures exists i :: 0 <= i < |t| && t[i].uuid == u {
      var i :| 0 <= i < |rows| && rows[i].uuid == u;
      assert t[i].uuid == u;
    }
  }

  /** A pull leaves consistent tables, with the key counter advanced past the imported rows. */
  lemma ImportedValid(rows: seq<RemoteRow>, base: nat, remote: RemoteTable)
    requires IsListing(rows, remote) && RemoteKeyed(remote)
    ensures TablesValid(Imported(rows, base), base + |rows|, remote)
  {
    var txs := Imported(rows, base);
    assert forall i :: 0 <= i < |txs| ==> txs[i] == FromRemote(rows[i], base + i);
    assert TxKeysBelow(txs, base + |rows|);
    assert FlagsBinary(txs);
    assert UuidsDistinct(txs);
    forall i | 0 <= i < |txs|
      ensures txs[i].uuid in remote && Mirrors(txs[i], remote[txs[i].uuid])
    {
      assert txs[i].uuid == rows[i].uuid;
    }
  }
}
