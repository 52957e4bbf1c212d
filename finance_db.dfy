/**
 * The local store: the `Transaction` and `FileRecord` records and the
 * `FinanceDatabase` schema (two tables, each keyed by an auto-incremented
 * `id`), with the table primitives the data service uses on them.
 */
module FinanceDb {
  import opened Wrappers

  /** `type: 'income' | 'expense'`: no other kind can be stored. */
  datatype TxType = Income | Expense

  /** Values of the `synced` flag: 0 = not yet mirrored remotely, 1 = mirrored. */
  const PENDING: int := 0
  const SYNCED: int := 1

  /**
   * A stored row of the `transactions` table. `id` is the local key the
   * table assigned on insert; `uuid` is the sync id, the only identifier
   * the remote table knows. `fileUrl` is optional.
   */
  datatype Transaction = Transaction(
    id: nat,
    uuid: string,
    amount: int,
    kind: TxType,
    category: string,
    description: string,
    date: string,
    synced: int,
    fileUrl: Option<string>)

  /** What a caller supplies to `addTransaction`: a transaction without `id`, `uuid` and `synced`. */
  datatype TxFields = TxFields(
    amount: int,
    kind: TxType,
    category: string,
    description: string,
    date: string,
    fileUrl: Option<string>)

  /** A stored row of the `files` table; every field but the key is mandatory. */
  datatype FileRecord = FileRecord(id: nat, name: string, url: string, mime: string, date: string)

  /**
   * The row `transactions.add` stores for `fields` under key `id`: the
   * `{ ...transaction, uuid, synced }` object `addTransaction` builds, with the
   * key the table assigns.
   */
  function Stored(id: nat, uuid: string, fields: TxFields, synced: int): Transaction
  {
    Transaction(id, uuid, fields.amount, fields.kind, fields.category,
                fields.description, fields.date, synced, fields.fileUrl)
  }

  /** Keys strictly increasing in scan order. */
  predicate TxKeysAscending(txs: seq<Transaction>)
  {
    forall i, j :: 0 <= i < j < |txs| ==> txs[i].id < txs[j].id
  }

  /** `++id` on `transactions`: keys strictly increase in scan order and stay below the next key. */
  predicate TxKeysBelow(txs: seq<Transaction>, next: nat)
  {
    && TxKeysAscending(txs)
    && (forall i :: 0 <= i < |txs| ==> txs[i].id < next)
  }

  /** `++id` on `files`. */
  predicate FileKeysBelow(files: seq<FileRecord>, next: nat)
  {
    && (forall i, j :: 0 <= i < j < |files| ==> files[i].id < files[j].id)
    && (forall i :: 0 <= i < |files| ==> files[i].id < next)
  }

  /** Every `synced` flag is 0 or 1. */
  predicate FlagsBinary(txs: seq<Transaction>)
  {
    forall i :: 0 <= i < |txs| ==> txs[i].synced == PENDING || txs[i].synced == SYNCED
  }

  /** No two stored transactions share a sync id. */
  predicate UuidsDistinct(txs: seq<Transaction>)
  {
    forall i, j :: 0 <= i < j < |txs| ==> txs[i].uuid != txs[j].uuid
  }

  /** Well-formedness of the `transactions` table whose next auto-increment key is `next`. */
  predicate ValidTxTable(txs: seq<Transaction>, next: nat)
  {
    TxKeysBelow(txs, next) && FlagsBinary(txs) && UuidsDistinct(txs)
  }

  /**
   * `transactions.update(id, { synced: 1 })`: the row keyed `id` is flagged
   * synced; no other row, and no other field, changes.
   */
  function MarkSynced(txs: seq<Transaction>, id: nat): (r: seq<Transaction>)
    ensures |r| == |txs|
    ensures forall i :: 0 <= i < |txs| ==> r[i].(synced := txs[i].synced) == txs[i]
    ensures forall i :: 0 <= i < |txs| && txs[i].id == id ==> r[i].synced == SYNCED
    ensures forall i :: 0 <= i < |txs| && txs[i].id != id ==> r[i] == txs[i]
  {
    seq(|txs|, i requires 0 <= i < |txs| => if txs[i].id == id then txs[i].(synced := SYNCED) else txs[i])
  }

  /** `transactions.where('synced').equals(0).toArray()`, in key order. */
  function WherePending(txs: seq<Transaction>): (r: seq<Transaction>)
    ensures forall t :: t in r <==> t in txs && t.synced == PENDING
    ensures |r| <= |txs|
  {
    if txs == [] then []
    else if txs[0].synced == PENDING then [txs[0]] + WherePending(txs[1..])
    else WherePending(txs[1..])
  }

  /** `files.delete(id)`: every row but the one keyed `id`, in key order. */
  function DeleteById(files: seq<FileRecord>, id: nat): (r: seq<FileRecord>)
    ensures forall f :: f in r <==> f in files && f.id != id
  {
    if files == [] then []
    else if files[0].id == id then DeleteById(files[1..], id)
    else [files[0]] + DeleteById(files[1..], id)
  }

  /** Marking a row synced keeps the table well formed under the same key generator. */
  lemma MarkSyncedKeepsTable(txs: seq<Transaction>, id: nat, next: nat)
    requires ValidTxTable(txs, next)
    ensures ValidTxTable(MarkSynced(txs, id), next)
  {
    var r := MarkSynced(txs, id);
    assert forall i :: 0 <= i < |txs| ==> r[i].id == txs[i].id && r[i].uuid == txs[i].uuid;
  }

  /**
   * After the update, the pending rows are the pending rows of before except
   * the one keyed `id`: it leaves the pending set, and no row joins it.
   */
  lemma MarkSyncedPending(txs: seq<Transaction>, id: nat)
    ensures forall t :: t in WherePending(MarkSynced(txs, id)) <==> t in WherePending(txs) && t.id != id
  {
    var r := MarkSynced(txs, id);
    forall t ensures t in WherePending(r) <==> t in WherePending(txs) && t.id != id {
      if t in WherePending(r) {
        var i :| 0 <= i < |r| && r[i] == t;
        assert txs[i].id != id;
      }
      if t in WherePending(txs) && t.id != id {
        var i :| 0 <= i < |txs| && txs[i] == t;
        assert r[i] == t;
      }
    }
  }

  /** The pending rows come out in key order, so no key is listed twice. */
  lemma {:induction false} WherePendingAscending(txs: seq<Transaction>)
    requires TxKeysAscending(txs)
    ensures TxKeysAscending(WherePending(txs))
  {
    if txs != [] {
      var t := txs[0];
      var tail := txs[1..];
      assert TxKeysAscending(tail) by {
        forall i, j | 0 <= i < j < |tail| ensures tail[i].id < tail[j].id {
          assert tail[i] == txs[i + 1] && tail[j] == txs[j + 1];
        }
      }
      WherePendingAscending(tail);
      var rest := WherePending(tail);
      if t.synced == PENDING {
        forall k | 0 <= k < |rest| ensures t.id < rest[k].id {
          assert rest[k] in tail;
          var m :| 0 <= m < |tail| && tail[m] == rest[k];
          assert txs[1 + m] == rest[k];
        }
        TxConsAscending(t, rest);
      }
    }
  }

  /** A row whose key is below every key of an ascending list can go in front of it. */
  lemma TxConsAscending(t: Transaction, rest: seq<Transaction>)
    requires TxKeysAscending(rest)
    requires forall k :: 0 <= k < |rest| ==> t.id < rest[k].id
    ensures TxKeysAscending([t] + rest)
  {
    var r := [t] + rest;
    forall i, j | 0 <= i < j < |r| ensures r[i].id < r[j].id {
      assert r[j] == rest[j - 1];
      if i > 0 { assert r[i] == rest[i - 1]; }
    }
  }

  /** A row whose key is below every key of a well-keyed table can go in front of it. */
  lemma FileConsKeys(f: FileRecord, rest: seq<FileRecord>, next: nat)
    requires FileKeysBelow(rest, next) && f.id < next
    requires forall k :: 0 <= k < |rest| ==> f.id < rest[k].id
    ensures FileKeysBelow([f] + rest, next)
  {
    var r := [f] + rest;
    forall i, j | 0 <= i < j < |r| ensures r[i].id < r[j].id {
      assert r[j] == rest[j - 1];
      if i > 0 { assert r[i] == rest[i - 1]; }
    }
  }

  /** Deleting one file row keeps the table well-keyed. */
  lemma {:induction false} DeleteKeepsKeys(files: seq<FileRecord>, id: nat, next: nat)
    requires FileKeysBelow(files, next)
    ensures FileKeysBelow(DeleteById(files, id), next)
  {
    if files != [] {
      var tail := files[1..];
      DeleteKeepsKeys(tail, id, next);
      var rest := DeleteById(tail, id);
      if files[0].id != id {
        forall k | 0 <= k < |rest| ensures files[0].id < rest[k].id {
          assert rest[k] in tail;
          var m :| 0 <= m < |tail| && tail[m] == rest[k];
          assert files[1 + m] == rest[k];
        }
        FileConsKeys(files[0], rest, next);
      }
    }
  }

  /** A row stored under the next key keeps the table well-keyed, with the counter moved on. */
  lemma FileAppendKeys(files: seq<FileRecord>, f: FileRecord, next: nat)
    requires FileKeysBelow(files, next) && f.id == next
    ensures FileKeysBelow(files + [f], next + 1)
  {
  }
}
