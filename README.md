# finance-pwa: the offline-first sync engine and the ledger arithmetic

A Dafny model of the core of finance-pwa, a personal finance progressive web app. The model covers two parts.

- **The data service.** It keeps the transactions and file metadata in a local IndexedDB database, accessed through Dexie. It mirrors the transactions to a remote Supabase table keyed by a sync id (`uuid`), and keeps uploaded files in a remote storage bucket.
  - Every write goes to the local table first.
  - A transaction carries `synced = 0` until a remote insert of it is accepted, and `synced = 1` from then on.
  - `syncPending` retries the rows still at 0.
  - `pullUserData` replaces the local table with the remote one.
- **The ledger arithmetic of two pages.** The dashboard's income and expense totals, balance, per-category distribution and recent-activity list. The transactions page's submit validator, which refuses an expense larger than the balance.

Modules, one per file:

- `Wrappers` (wrappers.dfy): `Option`.
- `FinanceDb` (finance_db.dfy): the `Transaction` and `FileRecord` records, the schema's auto-increment keys, and the table primitives `update`, `where('synced').equals(0)` and `delete`.
- `LocalOrder` (local_order.dfy): `orderBy('date').reverse()`, the `date` index walked backwards.
- `StorageKeys` (storage_keys.dfy): the storage key of an upload and the key named by a public URL.
- `SyncSpec` (sync_spec.dfy): the remote table, the consistency invariant between the local and remote tables, and specification functions for the loops of `syncPending` and `pullUserData` with their lemmas.
- `DataService` (data_service.dfy): class `SyncEngine`, one method per operation of `dataService`.
- `Ledger` (ledger.dfy): `incomeTotal`, `expenseTotal` and `balance`, shared by both pages.
- `Dashboard` (dashboard.dfy): `getDistribution` and the recent-activity excerpt.
- `TransactionsPage` (transactions_page.dfy): `handleSubmit`'s validation and the form reset.

## The engine's state

`SyncEngine` holds the following fields. Its methods update them in place.

- `transactions` and `files`: the two local tables, kept in primary-key order.
- `nextTxId` and `nextFileId`: their key generators. They start at 1 and are not reset by `clear()`, so a key is never reused.
- `remoteRows`: the remote table, a map from `uuid` to row.
- `blobs`: the set of object names in the `files` bucket.
- `online`: `navigator.onLine`.

The invariant `Valid()` requires the following.

- Keys strictly increase and stay below the generator.
- Every flag is 0 or 1, and sync ids are distinct.
- A local row is flagged 1 exactly when the remote table holds its `uuid`, and the remote row then carries the same ledger entry. `file_url` is exempt, since `addTransaction` does not send it.
- File keys strictly increase.

Every operation of `dataService` keeps `Valid()`. The loop helpers `SendEach` and `ImportRows` are instead specified by the specification functions `SyncLoop` and `Imported`; the operations that call them re-establish the invariant.

Three modelling choices:

- **Remote outcomes are parameters.** Each remote call's outcome is an argument of the method: an accepted insert, a reported error, or a thrown network error. The remote table refuses a second row with an existing `uuid`. A reported or thrown error is taken to have changed nothing remotely (see "## Left out"), and under that assumption the invariant above holds.
- **Fresh uuids are parameters.** `uuidv4()` is an argument with a freshness precondition.
- **Connectivity is a field.** `navigator.onLine` is read once per operation, and only `SetOnline` changes it.

## Model

| member | source | states |
|---|---|---|
| DataService.SyncEngine.constructor | finance-pwa/src/db.ts:23-33 | A new database has two empty tables whose generators start at 1, and empty remote stores; the invariant holds. |
| DataService.SyncEngine.SetOnline | finance-pwa/src/services/dataService.ts:17 | Connectivity changes only between operations; nothing else changes. |
| DataService.SyncEngine.AddTransaction | finance-pwa/src/services/dataService.ts:6-41 | Exactly one row is appended, under the returned key, which is the generator's next value. It carries the fresh uuid and the fields. Its flag is 1 only when online and the insert reported no error; offline, on a reported error or on a thrown one it stays 0. The remote table gains the row without `file_url` exactly in the accepted case. No other row, the files, or the blobs change. |
| DataService.SyncEngine.GetTransactions | finance-pwa/src/services/dataService.ts:43-45 | The result is a permutation of the table, sorted by date descending with ties by key descending. |
| DataService.SyncEngine.SyncPending | finance-pwa/src/services/dataService.ts:47-69 | Offline, nothing changes and nothing is thrown. Online, the new local and remote tables and the thrown flag are those of `SyncLoop` over the pending rows. Counters, files and blobs stay unchanged, and the invariant holds. |
| DataService.SyncEngine.SendEach | finance-pwa/src/services/dataService.ts:52-68 | The loop over the pending rows, with invariants, ends in the state `SyncLoop` specifies; a thrown insert stops it. |
| DataService.SyncEngine.UploadFile | finance-pwa/src/services/dataService.ts:71-93 | The object is stored under `UploadKey(uuid, name)`. On an error, or when the storage already holds that key, the result is None and nothing changes. Otherwise exactly one file row is appended under the next key, with the name, the public URL, the type and the timestamp, and that URL is returned. The transactions and the remote table are unchanged. |
| DataService.SyncEngine.GetFiles | finance-pwa/src/services/dataService.ts:95-97 | The result is a permutation of the files table, sorted by date descending with ties by key descending. |
| DataService.SyncEngine.DeleteFile | finance-pwa/src/services/dataService.ts:99-112 | The object named by the URL's last `/` segment is removed only when that segment is non-empty and the remove succeeds. The file row keyed `id` is deleted in every case, and no other row is. |
| DataService.SyncEngine.ClearAllData | finance-pwa/src/services/dataService.ts:114-121 | Both local tables become empty. When online and the delete succeeds, exactly the remote rows whose uuid is not the nil UUID are gone; otherwise the remote table is unchanged. Surviving rows are untouched, and blobs are never touched. |
| DataService.SyncEngine.ClearLocalData | finance-pwa/src/services/dataService.ts:123-126 | Both local tables become empty, the generators keep counting, and nothing remote changes. |
| DataService.SyncEngine.PullUserData | finance-pwa/src/services/dataService.ts:128-151 | Offline, on an error, or with no data, the local transactions are unchanged. With rows, the table becomes `Imported(rows, next)` and the generator moves past them. The files and the remote stores are untouched, and the invariant holds. |
| DataService.SyncEngine.ImportRows | finance-pwa/src/services/dataService.ts:137-149 | Clear, then the loop adding each row under the next key; the result is `Imported(rows, old next)`. |
| FinanceDb.MarkSynced | finance-pwa/src/services/dataService.ts:66 | `update(id, {synced: 1})`: the length is kept, no field but the flag changes on any row, the row keyed `id` ends at 1 and every other row is unchanged. |
| FinanceDb.MarkSyncedKeepsTable | finance-pwa/src/services/dataService.ts:66 | The update keeps the table well formed: keys, sync ids and binary flags, under the same key generator. |
| FinanceDb.MarkSyncedPending | finance-pwa/src/services/dataService.ts:66 | After the update a row is pending if and only if it was pending before and is not the row keyed `id`. |
| FinanceDb.WherePending | finance-pwa/src/services/dataService.ts:50 | Exactly the rows flagged 0, and no more rows than the table. |
| FinanceDb.WherePendingAscending | finance-pwa/src/services/dataService.ts:50 | The pending rows come out in ascending key order. |
| FinanceDb.DeleteById | finance-pwa/src/services/dataService.ts:111 | A row is kept if and only if it is in the table and its key is not `id`. |
| FinanceDb.DeleteKeepsKeys | finance-pwa/src/db.ts:31 | After a delete, the file keys still increase and stay below the generator. |
| FinanceDb.FileAppendKeys | finance-pwa/src/db.ts:31 | A file row added under the next key keeps the keys increasing, and the generator moves on. |
| LocalOrder.KeyLeTotal | finance-pwa/src/db.ts:30-31 | Any two index positions (date, then key) are comparable. |
| LocalOrder.KeyLeTrans | finance-pwa/src/db.ts:30-31 | The index order is transitive. |
| LocalOrder.KeyLeAntisym | finance-pwa/src/db.ts:30-31 | Two positions that are each at or before the other are equal. |
| LocalOrder.InsertDesc | finance-pwa/src/services/dataService.ts:44 | An insertion adds exactly the one row: the result is the list's multiset plus that row. |
| LocalOrder.InsertDescSorted | finance-pwa/src/services/dataService.ts:44 | Inserting into a descending list keeps it descending. |
| LocalOrder.SortDesc | finance-pwa/src/services/dataService.ts:44 | The result is descending in the index order and a permutation of its input. |
| LocalOrder.SortedDescUnique | finance-pwa/src/services/dataService.ts:44 | Two descending permutations of rows with distinct index positions are equal. |
| LocalOrder.SortDescDistinct | finance-pwa/src/services/dataService.ts:44 | Sorting keeps the positions distinct. |
| LocalOrder.TxReadOrderUnique | finance-pwa/src/services/dataService.ts:43-45 | For a well-keyed table, any descending permutation of it is the list `getTransactions` returns: the read order is fully determined. |
| LocalOrder.FileReadOrderUnique | finance-pwa/src/services/dataService.ts:95-97 | The same for `getFiles`. |
| StorageKeys.LastSegment | finance-pwa/src/services/dataService.ts:72 | `split(sep).pop()`: the result does not contain the separator and is no longer than the input. |
| StorageKeys.LastSegmentSuffix | finance-pwa/src/services/dataService.ts:101 | The result is a suffix of the input, with the separator just before it whenever it is shorter. |
| StorageKeys.LastSegmentWhole | finance-pwa/src/services/dataService.ts:72 | Without a separator the whole string is the result. |
| StorageKeys.LastSegmentAfter | finance-pwa/src/services/dataService.ts:72 | Whatever precedes the last separator, the text after it is the result. |
| StorageKeys.UploadKey | finance-pwa/src/services/dataService.ts:72-73 | The key starts with `uuid.`, the rest holds no `.`, and it is at most one character longer than the uuid and the name together. |
| StorageKeys.PublicUrl | finance-pwa/src/services/dataService.ts:82 | The URL starts with the storage URL, and a key without `/` is its last `/` segment. |
| StorageKeys.UploadKeyShape | finance-pwa/src/services/dataService.ts:72-73 | The key is `uuid.` followed by a dot-free extension: the text after the name's last `.`, or the whole name when it has no `.`. |
| StorageKeys.RemoteKeyOf | finance-pwa/src/services/dataService.ts:101 | The key named by a URL contains no `/`. |
| StorageKeys.UploadKeyRoundTrip | finance-pwa/src/services/dataService.ts:72-82 | When the uuid and name contain no `/` and every character of the key is one `encodeURI` leaves unchanged, the key `deleteFile` reads back from the public URL is the key `uploadFile` stored under, and it is non-empty. |
| SyncSpec.SyncRow | finance-pwa/src/services/dataService.ts:55-63 | The row `syncPending` sends mirrors the local ledger entry and carries its `file_url`. |
| SyncSpec.AddRow | finance-pwa/src/services/dataService.ts:21-28 | The row `addTransaction` sends mirrors the ledger entry but never carries a `file_url`; it equals what `syncPending` would send if and only if the row has no `file_url`. |
| SyncSpec.Accepts | finance-pwa/src/services/dataService.ts:19-31 | Only an insert reporting no error is stored; one reporting no error yet refused carries a sync id already present; an accepted insert never overwrites an existing remote row. |
| SyncSpec.SyncLoop | finance-pwa/src/services/dataService.ts:52-68 | The loop keeps the table's length and changes no field but the `synced` flag of any row. |
| SyncSpec.SyncLoopNeverReverts | finance-pwa/src/services/dataService.ts:52-68 | With binary flags, every row is either unchanged or goes from 0 to 1; no row is reverted. |
| SyncSpec.SyncLoopRemoteGrows | finance-pwa/src/services/dataService.ts:53-63 | Remote rows are only added, never changed or removed. |
| SyncSpec.SyncLoopThrows | finance-pwa/src/services/dataService.ts:52-68 | The loop throws if and only if one of the inserts throws. |
| SyncSpec.SyncLoopFlipsOnlySentOk | finance-pwa/src/services/dataService.ts:65-67 | A row whose insert did not report success before the first throw is unchanged. |
| SyncSpec.SyncLoopFlipsSentOk | finance-pwa/src/services/dataService.ts:65-67 | On consistent tables, every row whose insert succeeded before the first throw ends with flag 1. |
| SyncSpec.SyncLoopErrorKeepsPending | finance-pwa/src/services/dataService.ts:65-67 | A pending row none of whose inserts succeeded stays exactly as it was. |
| SyncSpec.SyncLoopValid | finance-pwa/src/services/dataService.ts:52-68 | The loop keeps the local and remote tables consistent. |
| SyncSpec.SyncAllOkThenNothingPending | finance-pwa/src/services/dataService.ts:47-69 | After a run in which every insert succeeds, there is no throw and no row is pending, so a second `syncPending` sends nothing and changes nothing. |
| SyncSpec.PendingReady | finance-pwa/src/services/dataService.ts:50 | The pending rows read from consistent tables are an ascending list of pending rows of the table. |
| SyncSpec.StepReady | finance-pwa/src/services/dataService.ts:53-66 | The first pending row's uuid is not yet remote, and sending it keeps the rest of the list ready. |
| SyncSpec.FlipValid | finance-pwa/src/services/dataService.ts:19-31 | Flipping a pending row while inserting a remote row that mirrors it keeps the tables consistent. |
| SyncSpec.AppendPendingValid | finance-pwa/src/services/dataService.ts:7-14 | A pending row added under the next key with an unused uuid keeps the tables consistent. |
| SyncSpec.FromRemote | finance-pwa/src/services/dataService.ts:140-148 | The stored row has the given key, flag 1 and no `file_url`, and mirrors the fetched row; sending it back gives the fetched row without its `file_url`. |
| SyncSpec.Imported | finance-pwa/src/services/dataService.ts:139-149 | The rebuilt table has one row per fetched row. |
| SyncSpec.ImportedStep | finance-pwa/src/services/dataService.ts:140-148 | Importing one more row appends it under the next key. |
| SyncSpec.ImportedIsSnapshot | finance-pwa/src/services/dataService.ts:137-149 | After a pull, a uuid is local if and only if it is remote. Every local row has flag 1 and no `file_url`, and mirrors its remote row. |
| SyncSpec.ImportedValid | finance-pwa/src/services/dataService.ts:137-149 | A pull leaves consistent tables with the generator past the new keys. |
| Ledger.KindTotal | finance-pwa/src/pages/Dashboard.tsx:11-12 | The `reduce` over one kind: 0 when no listed transaction has that kind, and non-negative when no amount is negative. |
| Ledger.IncomeTotal | finance-pwa/src/pages/Dashboard.tsx:11 | The sum of the income amounts, and 0 when the list is absent. |
| Ledger.ExpenseTotal | finance-pwa/src/pages/Dashboard.tsx:12 | The sum of the expense amounts, and 0 when the list is absent. |
| Ledger.Balance | finance-pwa/src/pages/Dashboard.tsx:13 | The balance is the sum of the signed amounts (income plus, expense minus), and 0 when the list is absent. |
| Ledger.OfKind | finance-pwa/src/pages/Dashboard.tsx:25 | A transaction is kept if and only if it is listed and of the given kind. |
| Ledger.KindTotalIsSumOfKind | finance-pwa/src/pages/Dashboard.tsx:11-12 | Each total is the sum of the amounts of its own kind, and no other. |
| Ledger.KindTotalAppend | finance-pwa/src/pages/Dashboard.tsx:11-12 | The fold over two consecutive parts is the sum of their folds. |
| Ledger.KindTotalPermutation | finance-pwa/src/pages/Transactions.tsx:26-27 | The totals do not depend on the listing order. |
| Ledger.NetIsSignedSum | finance-pwa/src/pages/Transactions.tsx:26-28 | Income less expense is the signed sum of the listed amounts. |
| Ledger.BalanceAfterAppend | finance-pwa/src/pages/Transactions.tsx:26-28 | Recording one more transaction moves the balance by its signed amount. |
| Ledger.BalancePermutation | finance-pwa/src/pages/Transactions.tsx:26-28 | Two listings of the same rows have the same balance. |
| Dashboard.GetDistribution | finance-pwa/src/pages/Dashboard.tsx:23-37 | The result is `[]` when the list is absent. Otherwise the accumulator loop yields `Distribution(OfKind(list, kind))`: each category in first-insertion order with its total. |
| Dashboard.FoldStep | finance-pwa/src/pages/Dashboard.tsx:26-29 | One reducer step, `acc[c] = (acc[c] or 0) + amount`, keeps the dictionary equal to the first-seen categories and their running totals. |
| Dashboard.EntriesAreDistribution | finance-pwa/src/pages/Dashboard.tsx:32-36 | Listing the finished dictionary's entries gives the distribution. |
| Dashboard.CategoriesExact | finance-pwa/src/pages/Dashboard.tsx:26-32 | Each category appears at most once, and a category appears if and only if a listed transaction carries it. |
| Dashboard.TotalOverCategories | finance-pwa/src/pages/Dashboard.tsx:26-29 | The per-category totals add up to the plain sum of the amounts. |
| Dashboard.DistributionOfKind | finance-pwa/src/pages/Dashboard.tsx:25-32 | A kind's distribution amounts sum to that kind's total, the divisor of the percentages. Categories are distinct, and a category appears if and only if a transaction of that kind has it. |
| Dashboard.RecentActivity | finance-pwa/src/pages/Dashboard.tsx:89-91 | The first min(5, n) entries of the list, and nothing when the list is absent. |
| Dashboard.RecentAreLatest | finance-pwa/src/pages/Dashboard.tsx:91 | On the date-descending list, no entry left out of the excerpt comes after an entry shown. |
| TransactionsPage.Validate | finance-pwa/src/pages/Transactions.tsx:21-34 | A submission is incomplete if and only if the amount is NaN or 0 or the description is empty. It is refused if and only if it is a complete expense above the balance. Otherwise it is accepted with the form's fields and no file; negative amounts pass. |
| TransactionsPage.IncomeNeverChecked | finance-pwa/src/pages/Transactions.tsx:25 | A complete income is accepted whatever the balance. |
| TransactionsPage.AcceptedExpenseWithinBalance | finance-pwa/src/pages/Transactions.tsx:24-33 | Once an accepted expense is recorded, every listing of the rows seen plus the new one has a non-negative balance. |
| TransactionsPage.NegativeIncomeLowersBalance | finance-pwa/src/pages/Transactions.tsx:21-25 | Any negative income with a description is accepted whatever the listed transactions, and recording it lowers the balance of any ledger. |
| TransactionsPage.TransactionForm.constructor | finance-pwa/src/pages/Transactions.tsx:11-17 | A new form has no amount, type expense, category "General", no description, and today's date. |
| TransactionsPage.TransactionForm.HandleSubmit | finance-pwa/src/pages/Transactions.tsx:19-45 | The verdict is `Validate` of the form. When accepted, `addTransaction` runs exactly once with the form's fields, and the amount and description reset while type, category and date are kept. Otherwise neither the form nor the engine's tables change. |

## Left out

- **Outside the core.** `app.py` (Flask routes, SSH, VirtualBox) and the rendering, routing and authentication pages are I/O and UI, not part of this model.
- **`AuthContext.tsx` is not part of this model.** It calls `pullUserData` on sign-in and `clearLocalData` on sign-out; those two methods are the entry points it would use.
- **Supabase and Dexie internals.** The remote table, the storage bucket and the IndexedDB tables are abstract. Every remote outcome is a method parameter.
- **Timestamps.** `new Date()` is the `now` parameter of `UploadFile`, and the form's `today` date is a constructor parameter.
- **Async interleaving.** Each operation is one atomic step. The race in which `pullUserData` wipes the row of an in-flight `addTransaction` is not modelled.
- **Other clients.** This engine is the only writer to the remote table.
- **Floating point and formatting.** Amounts are exact integers (cents). `parseFloat` is its result: `Option<int>`, with None for NaN. The distribution `percentage`, `toFixed` and currency formatting are dropped.
- StorageKeys.PublicUrl: is `storageUrl + "/object/public/files/" + key`, without the `encodeURI` escaping the storage client applies. For a key holding a character that escaping changes (a dotless name "My Scan" gives the key `<uuid>.My Scan` and a URL ending in `<uuid>.My%20Scan`), the source's `deleteFile` asks the storage to remove the escaped key, which names no object, and the blob stays; the model's `DeleteFile` removes it.
- StorageKeys.UploadKeyRoundTrip: is stated only for keys whose every character `encodeURI` leaves unchanged, for the reason above.
- **A reported error or a throw changed nothing remotely.** Every remote insert, upload, remove or bulk delete that reports an error or throws is taken to have left the remote store as it was. A lost acknowledgement, where the write took effect but the client saw an error, cannot be represented. The direction "sync id remote implies flag 1" of `Valid()` (SyncSpec.TablesValid) rests on this assumption. In the source, a row whose insert took effect without acknowledgement stays at 0, and every later `syncPending` sends it again and has it refused.
- DataService.SyncEngine.DeleteFile: does not model a thrown remove. In the source, a throw skips the local delete and escapes. The model considers only a remove that reports success or an error.
- DataService.SyncEngine.ClearAllData: a thrown remote delete is modelled as a failed one (`deleteOk = false`), which by the assumption above removed nothing. The source lets the throw escape after both local tables are cleared; the escaping error itself is not reported by the model.
- DataService.SyncEngine.UploadFile: the thrown upload error is the `None` result.
- DataService.SyncEngine.SyncPending: one outcome per pending row is supplied up front. The outcomes after the first thrown one are ignored, as the source never sends those inserts.
- Dashboard.GetDistribution: lists every category in first-insertion order. JavaScript's `Object.entries` puts integer-like keys (a category named "2024", say) first, in ascending numeric order; that is not modelled. The model's dictionary also has no inherited keys, while the source's `{}` accumulator inherits from `Object.prototype`. For the category `"__proto__"` the assignment is ignored and the category is missing from the result. For `"constructor"`, `"toString"`, `"valueOf"` and the other inherited names, `acc[c] || 0` is an inherited function, so the "total" becomes a string. For those categories, this row's and `Dashboard.DistributionOfKind`'s statements do not describe the program. The form offers only the six categories General, Food, Transport, Entertainment, Health and Home (Transactions.tsx:114-119), none of them an inherited name; only a row pulled from the remote table could carry one.
- **In these places the model follows the code as written:**
  - `syncPending` has no try/catch, so a thrown insert ends the loop and escapes.
  - `clearAllData` clears both local tables before the remote delete, so they are empty whatever the delete does.
  - The remote insert in `addTransaction` omits `file_url`, while `syncPending` sends it.
  - `pullUserData` does not copy `file_url`.
  - Ties in the date order are broken by key, the most recently inserted row first.
