/**
 * Ledger arithmetic shared by the dashboard and the transactions page: the
 * income and expense totals (each a left fold over the listed transactions
 * that adds the amounts of one kind) and the balance, their difference.
 * Amounts are exact integers (cents). The list the pages see is the live
 * query result, which is absent (`None`) until the first read completes; the
 * totals are then 0.
 */
module Ledger {
  import opened Wrappers
  import opened FinanceDb

  /** `txs.filter(tx => tx.type === k)`. */
  function OfKind(txs: seq<Transaction>, k: TxType): (r: seq<Transaction>)
    ensures forall t :: t in r <==> t in txs && t.kind == k
    ensures |r| <= |txs|
  {
    if txs == [] then []
    else (if txs[0].kind == k then [txs[0]] else []) + OfKind(txs[1..], k)
  }

  /** The plain sum of the amounts of a list. */
  function SumAmounts(txs: seq<Transaction>): int
  {
    if txs == [] then 0 else txs[0].amount + SumAmounts(txs[1..])
  }

  /**
   * `txs.reduce((acc, tx) => tx.type === k ? acc + tx.amount : acc, 0)`:
   * the fold, taken from the left, of the amounts of kind `k`. A list with
   * no transaction of that kind totals 0, and non-negative amounts never
   * give a negative total.
   */
  function KindTotal(txs: seq<Transaction>, k: TxType): (r: int)
    ensures (forall i :: 0 <= i < |txs| ==> txs[i].kind != k) ==> r == 0
    ensures (forall i :: 0 <= i < |txs| ==> txs[i].amount >= 0) ==> r >= 0
  {
    if txs == [] then 0
    else
      var last := txs[|txs| - 1];
      KindTotal(txs[..|txs| - 1], k) + (if last.kind == k then last.amount else 0)
  }

  /** `incomeTotal`: the sum of the income amounts, or 0 when the list is absent. */
  function IncomeTotal(view: Option<seq<Transaction>>): (r: int)
    ensures view.None? ==> r == 0
    ensures view.Some? ==> r == SumAmounts(OfKind(view.value, Income))
  {
    if view.None? then 0
    else KindTotalIsSumOfKind(view.value, Income); KindTotal(view.value, Income)
  }

  /** `expenseTotal`: the sum of the expense amounts, or 0 when the list is absent. */
  function ExpenseTotal(view: Option<seq<Transaction>>): (r: int)
    ensures view.None? ==> r == 0
    ensures view.Some? ==> r == SumAmounts(OfKind(view.value, Expense))
  {
    if view.None? then 0
    else KindTotalIsSumOfKind(view.value, Expense); KindTotal(view.value, Expense)
  }

  /**
   * `balance = incomeTotal - expenseTotal`: the signed sum of the listed
   * amounts, and 0 when the list is absent.
   */
  function Balance(view: Option<seq<Transaction>>): (r: int)
    ensures view.None? ==> r == 0
    ensures view.Some? ==> r == SignedSum(view.value)
  {
    NetIsSignedSum(if view.Some? then view.value else []);
    IncomeTotal(view) - ExpenseTotal(view)
  }

  /** What one transaction contributes to the balance: + for income, - for expense. */
  function Signed(t: Transaction): int
  {
    match t.kind
    case Income => t.amount
    case Expense => -t.amount
  }

  /** Reference definition of the balance: the sum of the signed amounts. */
  function SignedSum(txs: seq<Transaction>): int
  {
    if txs == [] then 0 else Signed(txs[0]) + SignedSum(txs[1..])
  }

  /** The fold over two consecutive parts is the sum of their folds. */
  lemma {:induction false} KindTotalAppend(a: seq<Transaction>, b: seq<Transaction>, k: TxType)
    ensures KindTotal(a + b, k) == KindTotal(a, k) + KindTotal(b, k)
    decreases |b|
  {
    if b == [] {
      assert a + b == a;
    } else {
      var n := |b| - 1;
      assert (a + b)[..|a + b| - 1] == a + b[..n];
      assert (a + b)[|a + b| - 1] == b[n];
      KindTotalAppend(a, b[..n], k);
    }
  }

  /** The fold of a list that starts with `t`. */
  lemma KindTotalCons(t: Transaction, rest: seq<Transaction>, k: TxType)
    ensures KindTotal([t] + rest, k) == (if t.kind == k then t.amount else 0) + KindTotal(rest, k)
  {
    KindTotalAppend([t], rest, k);
  }

  /** Each total is exactly the sum of the transactions of its kind and of no other. */
  lemma {:induction false} KindTotalIsSumOfKind(txs: seq<Transaction>, k: TxType)
    ensures KindTotal(txs, k) == SumAmounts(OfKind(txs, k))
  {
    if txs != [] {
      var t := txs[0];
      assert txs == [t] + txs[1..];
      KindTotalCons(t, txs[1..], k);
      KindTotalIsSumOfKind(txs[1..], k);
      var rest := OfKind(txs[1..], k);
      if t.kind == k {
        assert OfKind(txs, k) == [t] + rest;
        assert ([t] + rest)[1..] == rest;
      } else {
        assert OfKind(txs, k) == rest;
      }
    }
  }

  /** The totals do not depend on the order in which the transactions are listed. */
  lemma {:induction false} KindTotalPermutation(a: seq<Transaction>, b: seq<Transaction>, k: TxType)
    requires multiset(a) == multiset(b)
    ensures KindTotal(a, k) == KindTotal(b, k)
    decreases |a|
  {
    if a == [] {
      assert |b| == |multiset(b)| == 0;
    } else {
      var n := |a| - 1;
      assert a[n] in multiset(b);
      var i :| 0 <= i < |b| && b[i] == a[n];
      var b' := b[..i] + b[i + 1..];
      DropOne(a, b, i);
      KindTotalPermutation(a[..n], b', k);
      KindTotalWithout(b, i, k);
      assert a == a[..n] + [a[n]];
      KindTotalAppend(a[..n], [a[n]], k);
    }
  }

  /** Removing the last element of `a` and a matching element of its permutation `b` leaves permutations. */
  lemma DropOne<T>(a: seq<T>, b: seq<T>, i: nat)
    requires a != [] && i < |b| && b[i] == a[|a| - 1]
    requires multiset(a) == multiset(b)
    ensures multiset(a[..|a| - 1]) == multiset(b[..i] + b[i + 1..])
  {
    var n := |a| - 1;
    var x := a[n];
    assert a == a[..n] + [x];
    assert b == b[..i] + [x] + b[i + 1..];
    assert multiset(b) == multiset(b[..i]) + multiset{x} + multiset(b[i + 1..]);
    assert multiset(b[..i] + b[i + 1..]) == multiset(b[..i]) + multiset(b[i + 1..]);
    assert multiset(a[..n]) == multiset(a) - multiset{x};
  }

  /** The fold with one element taken out. */
  lemma KindTotalWithout(b: seq<Transaction>, i: nat, k: TxType)
    requires i < |b|
    ensures KindTotal(b, k) ==
      KindTotal(b[..i] + b[i + 1..], k) + (if b[i].kind == k then b[i].amount else 0)
  {
    assert b == b[..i] + [b[i]] + b[i + 1..];
    KindTotalAppend(b[..i] + [b[i]], b[i + 1..], k);
    KindTotalAppend(b[..i], [b[i]], k);
    KindTotalAppend(b[..i], b[i + 1..], k);
  }

  /** Income less expense is the signed sum of the listed amounts. */
  lemma {:induction false} NetIsSignedSum(txs: seq<Transaction>)
    ensures KindTotal(txs, Income) - KindTotal(txs, Expense) == SignedSum(txs)
  {
    if txs != [] {
      assert txs == [txs[0]] + txs[1..];
      KindTotalCons(txs[0], txs[1..], Income);
      KindTotalCons(txs[0], txs[1..], Expense);
      NetIsSignedSum(txs[1..]);
    }
  }

  /** Recording one more transaction moves the balance by its signed amount. */
  lemma BalanceAfterAppend(txs: seq<Transaction>, t: Transaction)
    ensures Balance(Some(txs + [t])) == Balance(Some(txs)) + Signed(t)
  {
    KindTotalAppend(txs, [t], Income);
    KindTotalAppend(txs, [t], Expense);
  }

  /** Two listings of the same rows have the same balance. */
  lemma BalancePermutation(a: seq<Transaction>, b: seq<Transaction>)
    requires multiset(a) == multiset(b)
    ensures Balance(Some(a)) == Balance(Some(b))
  {
    KindTotalPermutation(a, b, Income);
    KindTotalPermutation(a, b, Expense);
  }
}
