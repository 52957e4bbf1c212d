/**
 * The offline-first data service: one object owning the two local tables,
 * the remote transaction table, the remote file store and the connectivity
 * flag. Every remote call's outcome is an argument of the operation that
 * makes it; each operation runs to completion before the next one starts.
 */
module DataService {
  import opened Wrappers
  import opened FinanceDb
  import opened LocalOrder
  import opened StorageKeys
  import opened SyncSpec

  /** What `select('*')` on the remote table reports: an error, a null `data`, or the rows. */
  datatype FetchOutcome = FetchError | FetchNoData | FetchRows(rows: seq<RemoteRow>)

  class SyncEngine {
    /** Local `transactions` table in key order, and its next auto-increment key. */
    var transactions: seq<Transaction>
    var nextTxId: nat
    /** Local `files` table in key order, and its next auto-increment key. */
    var files: seq<FileRecord>
    var nextFileId: nat
    /** Remote `transactions` table, keyed by sync id. */
    var remoteRows: RemoteTable
    /** Keys of the objects in the remote `files` bucket. */
    var blobs: set<string>
    /** `navigator.onLine`, read once at the start of each operation. */
    var online: bool
    /** Base URL of the storage service, from which public URLs are built. */
    const storageUrl: string

    ghost predicate Valid()
      reads this
    {
      TablesValid(transactions, nextTxId, remoteRows) && FileKeysBelow(files, nextFileId)
    }

    /** A sync id that neither a local nor a remote row carries yet. */
    predicate FreshUuid(uuid: string)
      reads this
    {
      uuid !in remoteRows && forall i :: 0 <= i < |transactions| ==> transactions[i].uuid != uuid
    }

    /** A fresh database: empty tables whose key generators start at 1, and empty remote stores. */
    constructor (storageUrl: string, online: bool)
      ensures Valid()
      ensures this.storageUrl == storageUrl && this.online == online
      ensures transactions == [] && nextTxId == 1 && files == [] && nextFileId == 1
      ensures remoteRows == map[] && blobs == {}
    {
      this.storageUrl := storageUrl;
      this.online := online;
      transactions, nextTxId := [], 1;
      files, nextFileId := [], 1;
      remoteRows, blobs := map[], {};
    }

    /** The connectivity oracle changes, outside any operation. */
    method SetOnline(online: bool)
      modifies this`online
      ensures this.online == online
    {
      this.online := online;
    }

    /**
     * `addTransaction`: stores the row pending under the next key and returns
     * that key whatever happens remotely; when online, pushes it (without
     * `file_url`) and flags it synced only if the insert reports no error.
     */
    method AddTransaction(fields: TxFields, uuid: string, outcome: InsertOutcome) returns (id: nat)
      requires Valid() && FreshUuid(uuid)
      modifies this
      ensures Valid()
      ensures id == old(nextTxId) && nextTxId == old(nextTxId) + 1
      ensures var pushed := old(online) && outcome == InsertOk;
        var row := Stored(id, uuid, fields, if pushed then SYNCED else PENDING);
        && transactions == old(transactions) + [row]
        && remoteRows == if pushed then old(remoteRows)[uuid := AddRow(row)] else old(remoteRows)
      ensures files == old(files) && nextFileId == old(nextFileId)
      ensures blobs == old(blobs) && online == old(online)
    {
      var newTx := Stored(nextTxId, uuid, fields, PENDING);
      AppendPendingValid(transactions, nextTxId, remoteRows, newTx);
      id := nextTxId;
      transactions := transactions + [newTx];
      nextTxId := nextTxId + 1;
      if online {
        var row := AddRow(newTx);
        if Accepts(remoteRows, row, outcome) {
          FlipValid(transactions, nextTxId, remoteRows, |transactions| - 1, row);
          remoteRows := remoteRows[uuid := row];
          transactions := MarkSynced(transactions, id);
          assert transactions == old(transactions) + [newTx.(synced := SYNCED)];
        }
        // otherwise the error (reported or thrown) is only logged; the insert is
        // taken to have stored nothing
      }
    }

    /** `getTransactions`: every local row, by date descending, the newest key first among equal dates. */
    method GetTransactions() returns (r: seq<Transaction>)
      ensures multiset(r) == multiset(transactions)
      ensures SortedDesc(r, TxKey)
    {
      r := SortDesc(transactions, TxKey);
    }

    /**
     * `syncPending`: offline, nothing happens. Online, the rows flagged pending
     * are sent in key order, the k-th insert reporting `outcomes[k]`; the
     * result is the loop's specification, and `thrown` says whether a thrown
     * error ended the loop (and escapes to the caller).
     */
    method SyncPending(outcomes: seq<InsertOutcome>) returns (thrown: bool)
      requires Valid()
      requires online ==> |outcomes| == |WherePending(transactions)|
      modifies this
      ensures Valid()
      ensures !old(online) ==> !thrown && transactions == old(transactions) && remoteRows == old(remoteRows)
      ensures old(online) ==>
        SyncResult(transactions, remoteRows, thrown)
          == SyncLoop(old(transactions), old(remoteRows), WherePending(old(transactions)), outcomes)
      ensures nextTxId == old(nextTxId) && files == old(files) && nextFileId == old(nextFileId)
      ensures blobs == old(blobs) && online == old(online)
    {
      thrown := false;
      if !online { return; }
      var pending := WherePending(transactions);
      PendingReady(transactions, nextTxId, remoteRows);
      SyncLoopValid(transactions, nextTxId, remoteRows, pending, outcomes);
      ghost var final := SyncLoop(transactions, remoteRows, pending, outcomes);
      assert TablesValid(final.txs, nextTxId, final.remote);
      thrown := SendEach(pending, outcomes);
    }

    /**
     * The loop of `syncPending` over the rows read as pending: each row is
     * inserted remotely with its `file_url` and, when the insert is
     * accepted, flagged synced; a thrown error ends the loop.
     */
    method SendEach(pending: seq<Transaction>, outcomes: seq<InsertOutcome>) returns (thrown: bool)
      requires |outcomes| == |pending|
      modifies this
      ensures SyncResult(transactions, remoteRows, thrown)
           == SyncLoop(old(transactions), old(remoteRows), pending, outcomes)
      ensures nextTxId == old(nextTxId) && files == old(files) && nextFileId == old(nextFileId)
      ensures blobs == old(blobs) && online == old(online)
    {
      thrown := false;
      var i := 0;
      while i < |pending|
        invariant 0 <= i <= |pending|
        invariant SyncLoop(transactions, remoteRows, pending[i..], outcomes[i..])
               == SyncLoop(old(transactions), old(remoteRows), pending, outcomes)
        invariant !thrown
        invariant nextTxId == old(nextTxId) && files == old(files) && nextFileId == old(nextFileId)
        invariant blobs == old(blobs) && online == old(online)
      {
        if outcomes[i] == NetworkThrow {
          thrown := true;
          break;
        }
        var tx := pending[i];
        var row := SyncRow(tx);
        if Accepts(remoteRows, row, outcomes[i]) {
          remoteRows := remoteRows[tx.uuid := row];
          transactions := MarkSynced(transactions, tx.id);
        }
        assert pending[i..][1..] == pending[i + 1..] && outcomes[i..][1..] == outcomes[i + 1..];
        i := i + 1;
      }
    }

    /**
     * `uploadFile`: stores the object under `<uuid>.<extension>`; if the
     * storage reports an error (or already holds that key) the operation
     * fails (None) and nothing changes, otherwise one file row with the name,
     * the public URL and the type is added and the URL is returned.
     */
    method UploadFile(name: string, mime: string, uuid: string, now: string, uploadOk: bool)
      returns (url: Option<string>)
      requires Valid()
      modifies this
      ensures Valid()
      ensures var key := UploadKey(uuid, name);
        if uploadOk && key !in old(blobs) then
          && url == Some(PublicUrl(storageUrl, key))
          && blobs == old(blobs) + {key}
          && files == old(files) + [FileRecord(old(nextFileId), name, url.value, mime, now)]
          && nextFileId == old(nextFileId) + 1
        else
          url == None && blobs == old(blobs) && files == old(files) && nextFileId == old(nextFileId)
      ensures transactions == old(transactions) && nextTxId == old(nextTxId)
      ensures remoteRows == old(remoteRows) && online == old(online)
    {
      var key := UploadKey(uuid, name);
      if !uploadOk || key in blobs {
        url := None;
        return;
      }
      blobs := blobs + {key};
      var publicUrl := PublicUrl(storageUrl, key);
      var record := FileRecord(nextFileId, name, publicUrl, mime, now);
      FileAppendKeys(files, record, nextFileId);
      files := files + [record];
      nextFileId := nextFileId + 1;
      url := Some(publicUrl);
    }

    /** `getFiles`: every file row, by date descending, the newest key first among equal dates. */
    method GetFiles() returns (r: seq<FileRecord>)
      ensures multiset(r) == multiset(files)
      ensures SortedDesc(r, FileKey)
    {
      r := SortDesc(files, FileKey);
    }

    /**
     * `deleteFile`: asks the storage to remove the object named by the URL's
     * last segment (skipped when that is empty; an error is only logged), then
     * deletes the file row keyed `id` in any case.
     */
    method DeleteFile(id: nat, url: string, removeOk: bool)
      requires Valid()
      modifies this
      ensures Valid()
      ensures var key := RemoteKeyOf(url);
        blobs == if key != "" && removeOk then old(blobs) - {key} else old(blobs)
      ensures files == DeleteById(old(files), id) && nextFileId == old(nextFileId)
      ensures transactions == old(transactions) && nextTxId == old(nextTxId)
      ensures remoteRows == old(remoteRows) && online == old(online)
    {
      var key := RemoteKeyOf(url);
      if key != "" {
        if removeOk {
          blobs := blobs - {key};
        }
        // otherwise the error is only logged, and taken to have changed nothing remotely
      }
      DeleteKeepsKeys(files, id, nextFileId);
      files := DeleteById(files, id);
    }

    /**
     * `clearAllData`: empties both local tables; when online, asks the remote
     * table to delete every row whose sync id is not the nil UUID (an error is
     * only logged). The remote file store is left as it is.
     */
    method ClearAllData(deleteOk: bool)
      requires Valid()
      modifies this
      ensures Valid()
      ensures transactions == [] && files == []
      ensures nextTxId == old(nextTxId) && nextFileId == old(nextFileId)
      ensures old(online) && deleteOk ==>
        forall u :: u in remoteRows <==> u in old(remoteRows) && u == NIL_UUID
      ensures forall u :: u in remoteRows ==> u in old(remoteRows) && remoteRows[u] == old(remoteRows)[u]
      ensures !(old(online) && deleteOk) ==> remoteRows == old(remoteRows)
      ensures blobs == old(blobs) && online == old(online)
    {
      transactions := [];
      files := [];
      if online {
        if deleteOk {
          remoteRows := map u | u in remoteRows && u == NIL_UUID :: remoteRows[u];
        }
        // otherwise the error is only logged, and taken to have changed nothing remotely
      }
    }

    /** `clearLocalData`: empties both local tables and touches nothing remote. */
    method ClearLocalData()
      requires Valid()
      modifies this
      ensures Valid()
      ensures transactions == [] && files == []
      ensures nextTxId == old(nextTxId) && nextFileId == old(nextFileId)
      ensures remoteRows == old(remoteRows) && blobs == old(blobs) && online == old(online)
    {
      transactions := [];
      files := [];
    }

    /**
     * `pullUserData`: offline, or when the fetch reports an error or no data,
     * nothing changes. Otherwise the local transactions are replaced by the
     * fetched rows, each stored under a new key and flagged synced, without
     * `file_url`; the files table is not touched.
     */
    method PullUserData(fetched: FetchOutcome)
      requires Valid()
      requires fetched.FetchRows? ==> IsListing(fetched.rows, remoteRows)
      modifies this
      ensures Valid()
      ensures if old(online) && fetched.FetchRows? then
          && transactions == Imported(fetched.rows, old(nextTxId))
          && nextTxId == old(nextTxId) + |fetched.rows|
        else
          transactions == old(transactions) && nextTxId == old(nextTxId)
      ensures files == old(files) && nextFileId == old(nextFileId)
      ensures remoteRows == old(remoteRows) && blobs == old(blobs) && online == old(online)
    {
      if !online { return; }
      match fetched
      case FetchError =>
        return; // logged
      case FetchNoData =>
        return;
      case FetchRows(rows) =>
        var base := nextTxId;
        ImportedValid(rows, base, remoteRows);
        ImportRows(rows);
    }

    /**
     * The loop of `pullUserData` once the rows have arrived: clear the local
     * table, then add each row in turn under the next key, flagged synced.
     */
    method ImportRows(rows: seq<RemoteRow>)
      modifies this
      ensures transactions == Imported(rows, old(nextTxId)) && nextTxId == old(nextTxId) + |rows|
      ensures files == old(files) && nextFileId == old(nextFileId)
      ensures remoteRows == old(remoteRows) && blobs == old(blobs) && online == old(online)
    {
      transactions := [];
      var base := nextTxId;
      for i := 0 to |rows|
        invariant transactions == Imported(rows[..i], base)
        invariant nextTxId == base + i
        invariant files == old(files) && nextFileId == old(nextFileId)
        invariant remoteRows == old(remoteRows) && blobs == old(blobs) && online == old(online)
      {
        ImportedStep(rows, i, base);
        transactions := transactions + [FromRemote(rows[i], nextTxId)];
        nextTxId := nextTxId + 1;
      }
      assert rows[..|rows|] == rows;
    }
  }
}
