/**
 * The transactions page's submit handler: the validator that decides
 * whether a form submission is recorded, and the form whose amount and
 * description are cleared after a recorded submission.
 *
 * The amount field is held as the value `parseFloat` reads from it, in
 * cents: `None` for text that does not parse (NaN), which is what the
 * cleared field `''` reads as.
 */
module TransactionsPage {
  import opened Wrappers
  import opened FinanceDb
  import opened Ledger
  import opened SyncSpec
  import opened DataService

  /** The outcome of validating one submission. */
  datatype SubmitVerdict =
    | Incomplete
    | InsufficientFunds
    | Accept(fields: TxFields)

  /**
   * `!amount || !description` (0 and NaN are both falsy) returns early; an
   * expense above the balance of the listed transactions is refused; any
   * other submission is passed on with the form's fields and no file.
   */
  function Validate(amount: Option<int>, kind: TxType, category: string, description: string,
                    date: string, view: Option<seq<Transaction>>): (v: SubmitVerdict)
    ensures v == Incomplete <==> amount.None? || amount.value == 0 || description == ""
    ensures v == InsufficientFunds <==>
      amount.Some? && amount.value != 0 && description != "" &&
      kind == Expense && amount.value > Balance(view)
    ensures v.Accept? ==> v.fields == TxFields(amount.value, kind, category, description, date, None)
  {
    if amount.None? || amount.value == 0 || description == "" then Incomplete
    else if kind == Expense && amount.value > Balance(view) then InsufficientFunds
    else Accept(TxFields(amount.value, kind, category, description, date, None))
  }

  /** An income, whatever its amount, is never checked against the balance. */
  lemma IncomeNeverChecked(amount: int, category: string, description: string, date: string,
                           view: Option<seq<Transaction>>)
    requires amount != 0 && description != ""
    ensures Validate(Some(amount), Income, category, description, date, view).Accept?
  {
  }

  /**
   * An accepted expense never takes the balance below zero: once it is
   * recorded, every listing of the rows seen plus the new one has a
   * non-negative balance.
   */
  lemma AcceptedExpenseWithinBalance(amount: Option<int>, category: string, description: string,
                                     date: string, seen: seq<Transaction>, t: Transaction,
                                     after: seq<Transaction>)
    requires Validate(amount, Expense, category, description, date, Some(seen)).Accept?
    requires t.kind == Expense && t.amount == amount.value
    requires multiset(after) == multiset(seen + [t])
    ensures Balance(Some(after)) >= 0
  {
    BalanceAfterAppend(seen, t);
    BalancePermutation(after, seen + [t]);
  }

  /**
   * Nothing refuses a negative amount, so a negative income is accepted
   * whatever the listed transactions, and once recorded it lowers the balance.
   */
  lemma NegativeIncomeLowersBalance(amount: int, category: string, description: string, date: string,
                                    view: Option<seq<Transaction>>, seen: seq<Transaction>, t: Transaction)
    requires amount < 0 && description != ""
    requires t.kind == Income && t.amount == amount
    ensures Validate(Some(amount), Income, category, description, date, view).Accept?
    ensures Balance(Some(seen + [t])) < Balance(Some(seen))
  {
    BalanceAfterAppend(seen, t);
  }

  /** The form's state. */
  class TransactionForm {
    var amount: Option<int>
    var kind: TxType
    var category: string
    var description: string
    var date: string

    /** A new form: no amount, an expense in "General", no description, today's date. */
    constructor (today: string)
      ensures amount == None && kind == Expense && category == "General"
      ensures description == "" && date == today
    {
      amount := None;
      kind := Expense;
      category := "General";
      description := "";
      date := today;
    }

    /**
     * `handleSubmit`: validate against the listed transactions `view`; when
     * accepted, add the transaction exactly once through the engine and
     * clear the amount and the description, keeping kind, category and date.
     * Otherwise neither the form nor the engine changes. `uuid` and
     * `outcome` are what the engine's add draws and receives.
     */
    method HandleSubmit(engine: SyncEngine, view: Option<seq<Transaction>>, uuid: string,
                        outcome: InsertOutcome) returns (v: SubmitVerdict, id: Option<nat>)
      requires engine.Valid()
      requires Validate(amount, kind, category, description, date, view).Accept? ==> engine.FreshUuid(uuid)
      modifies this, engine
      ensures engine.Valid()
      ensures v == Validate(old(amount), old(kind), old(category), old(description), old(date), view)
      ensures !v.Accept? ==>
        id == None && amount == old(amount) && description == old(description) &&
        engine.transactions == old(engine.transactions) && engine.nextTxId == old(engine.nextTxId) &&
        engine.remoteRows == old(engine.remoteRows)
      ensures v.Accept? ==>
        var pushed := old(engine.online) && outcome == InsertOk;
        var row := Stored(old(engine.nextTxId), uuid, v.fields, if pushed then SYNCED else PENDING);
        id == Some(old(engine.nextTxId)) &&
        amount == None && description == "" &&
        engine.transactions == old(engine.transactions) + [row] &&
        engine.nextTxId == old(engine.nextTxId) + 1 &&
        engine.remoteRows == (if pushed then old(engine.remoteRows)[uuid := AddRow(row)] else old(engine.remoteRows))
      ensures kind == old(kind) && category == old(category) && date == old(date)
      ensures engine.files == old(engine.files) && engine.nextFileId == old(engine.nextFileId)
      ensures engine.blobs == old(engine.blobs) && engine.online == old(engine.online)
    {
      v := Validate(amount, kind, category, description, date, view);
      if !v.Accept? {
        return v, None;
      }
      var newId := engine.AddTransaction(v.fields, uuid, outcome);
      id := Some(newId);
      amount := None;
      description := "";
    }
  }
}
