/**
 * The dashboard's figures over the date-descending transaction list: the
 * per-category distribution of one kind, built by a reducer that updates an
 * accumulator dictionary in place, and the recent-activity excerpt.
 *
 * The dictionary is a `map` from category to running total together with the
 * order in which its keys were first inserted, which is the order
 * `Object.entries` lists them in.
 */
module Dashboard {
  import opened Wrappers
  import opened FinanceDb
  import opened LocalOrder
  import opened Ledger

  /** One entry of a distribution (the display percentage is left out). */
  datatype CategoryAmount = CategoryAmount(category: string, amount: int)

  /** The categories of a list, each once, in the order they first occur. */
  function Categories(txs: seq<Transaction>): seq<string>
  {
    if txs == [] then []
    else
      var prefix := Categories(txs[..|txs| - 1]);
      var c := txs[|txs| - 1].category;
      if c in prefix then prefix else prefix + [c]
  }

  /** The sum of the amounts of the transactions filed under `c`. */
  function CategoryTotal(txs: seq<Transaction>, c: string): int
  {
    if txs == [] then 0
    else
      var last := txs[|txs| - 1];
      CategoryTotal(txs[..|txs| - 1], c) + (if last.category == c then last.amount else 0)
  }

  /** Reference definition of a distribution: each category with its total. */
  function Distribution(txs: seq<Transaction>): seq<CategoryAmount>
  {
    var cats := Categories(txs);
    seq(|cats|, j requires 0 <= j < |cats| => CategoryAmount(cats[j], CategoryTotal(txs, cats[j])))
  }

  /** The sum of the amounts of a distribution. */
  function DistributionSum(dist: seq<CategoryAmount>): int
  {
    if dist == [] then 0 else dist[0].amount + DistributionSum(dist[1..])
  }

  /** The sum of the per-category totals over a list of categories. */
  function TotalOver(cats: seq<string>, txs: seq<Transaction>): int
  {
    if cats == [] then 0 else CategoryTotal(txs, cats[0]) + TotalOver(cats[1..], txs)
  }

  predicate Distinct(cats: seq<string>)
  {
    forall i, j :: 0 <= i < j < |cats| ==> cats[i] != cats[j]
  }

  /**
   * `getDistribution(type)`: `[]` when the list is absent; otherwise filter by
   * kind, fold the amounts into one running total per category, and list the
   * dictionary's entries. The dictionary here starts truly empty; the keys a
   * JavaScript `{}` inherits (`__proto__`, `constructor`, ...) are not modelled.
   */
  method GetDistribution(view: Option<seq<Transaction>>, kind: TxType) returns (dist: seq<CategoryAmount>)
    ensures view.None? ==> dist == []
    ensures view.Some? ==> dist == Distribution(OfKind(view.value, kind))
  {
    if view.None? {
      return [];
    }
    var filtered := OfKind(view.value, kind);
    var totals: map<string, int> := map[];
    var order: seq<string> := [];
    var i := 0;
    while i < |filtered|
      invariant 0 <= i <= |filtered|
      invariant Folded(filtered[..i], order, totals)
    {
      var tx := filtered[i];
      assert filtered[..i + 1] == filtered[..i] + [tx];
      FoldStep(filtered[..i], tx, order, totals);
      if tx.category in totals {
        totals := totals[tx.category := totals[tx.category] + tx.amount];
      } else {
        order := order + [tx.category];
        totals := totals[tx.category := tx.amount];
      }
      i := i + 1;
    }
    assert filtered[..i] == filtered;
    dist := seq(|order|, j requires 0 <= j < |order| => CategoryAmount(order[j], totals[order[j]]));
    EntriesAreDistribution(filtered, order, totals, dist);
  }

  /**
   * The dictionary after folding `done`: its keys are the categories met so
   * far, in first-insertion order `order`, each mapped to its running total.
   */
  ghost predicate Folded(done: seq<Transaction>, order: seq<string>, totals: map<string, int>)
  {
    && order == Categories(done)
    && (forall c :: c in totals <==> c in order)
    && (forall c :: c in totals ==> totals[c] == CategoryTotal(done, c))
  }

  /** One step of the reducer, `acc[c] = (acc[c] || 0) + amount`, keeps the dictionary folded. */
  lemma FoldStep(done: seq<Transaction>, t: Transaction, order: seq<string>, totals: map<string, int>)
    requires Folded(done, order, totals)
    ensures t.category in totals ==>
      Folded(done + [t], order, totals[t.category := totals[t.category] + t.amount])
    ensures t.category !in totals ==>
      Folded(done + [t], order + [t.category], totals[t.category := t.amount])
  {
    assert (done + [t])[..|done + [t]| - 1] == done;
    if t.category !in totals {
      UnseenCategoryTotal(done, t.category);
    }
  }

  /** Listing the entries of the finished dictionary gives the distribution. */
  lemma EntriesAreDistribution(txs: seq<Transaction>, order: seq<string>, totals: map<string, int>,
                               dist: seq<CategoryAmount>)
    requires order == Categories(txs)
    requires forall c :: c in order ==> c in totals && totals[c] == CategoryTotal(txs, c)
    requires |dist| == |order|
    requires forall j :: 0 <= j < |order| ==> dist[j] == CategoryAmount(order[j], totals[order[j]])
    ensures dist == Distribution(txs)
  {
  }

  /** A category that no transaction of the list carries has total 0. */
  lemma {:induction false} CategoryTotalAbsent(txs: seq<Transaction>, c: string)
    requires forall k :: 0 <= k < |txs| ==> txs[k].category != c
    ensures CategoryTotal(txs, c) == 0
  {
    if txs != [] {
      CategoryTotalAbsent(txs[..|txs| - 1], c);
    }
  }

  /** A category not yet seen has had no amount so far. */
  lemma UnseenCategoryTotal(txs: seq<Transaction>, c: string)
    requires c !in Categories(txs)
    ensures CategoryTotal(txs, c) == 0
  {
    CategoriesExact(txs);
    CategoryTotalAbsent(txs, c);
  }

  /** Each category appears at most once, and exactly the categories the list carries appear. */
  lemma {:induction false} CategoriesExact(txs: seq<Transaction>)
    ensures Distinct(Categories(txs))
    ensures forall c :: c in Categories(txs) <==> exists k :: 0 <= k < |txs| && txs[k].category == c
  {
    if txs != [] {
      var n := |txs| - 1;
      CategoriesExact(txs[..n]);
      forall c ensures c in Categories(txs) <==> exists k :: 0 <= k < |txs| && txs[k].category == c {
        if c in Categories(txs) && c != txs[n].category {
          var k :| 0 <= k < n && txs[..n][k].category == c;
          assert txs[k].category == c;
        }
        if exists k :: 0 <= k < |txs| && txs[k].category == c {
          var k :| 0 <= k < |txs| && txs[k].category == c;
          if k < n {
            assert txs[..n][k].category == c;
          }
        }
      }
    }
  }

  /** One more transaction adds its amount to the sum over a list of distinct categories holding its category, and nothing otherwise. */
  lemma {:induction false} TotalOverStep(cats: seq<string>, txs: seq<Transaction>, t: Transaction)
    requires Distinct(cats)
    ensures TotalOver(cats, txs + [t]) == TotalOver(cats, txs) + (if t.category in cats then t.amount else 0)
  {
    if cats != [] {
      assert (txs + [t])[..|txs + [t]| - 1] == txs;
      assert Distinct(cats[1..]) by {
        forall i, j | 0 <= i < j < |cats[1..]| ensures cats[1..][i] != cats[1..][j] {
          assert cats[1..][i] == cats[i + 1] && cats[1..][j] == cats[j + 1];
        }
      }
      TotalOverStep(cats[1..], txs, t);
      if t.category == cats[0] {
        assert t.category !in cats[1..] by {
          forall j | 0 <= j < |cats[1..]| ensures cats[1..][j] != t.category {
            assert cats[1..][j] == cats[j + 1];
          }
        }
      }
      assert t.category in cats <==> t.category == cats[0] || t.category in cats[1..];
    }
  }

  /** Appending a category to the list being summed over. */
  lemma {:induction false} TotalOverAppend(cats: seq<string>, c: string, txs: seq<Transaction>)
    ensures TotalOver(cats + [c], txs) == TotalOver(cats, txs) + CategoryTotal(txs, c)
  {
    if cats != [] {
      assert (cats + [c])[1..] == cats[1..] + [c];
      TotalOverAppend(cats[1..], c, txs);
    }
  }

  /** Summing the per-category totals over all categories gives the plain sum of the amounts. */
  lemma {:induction false} TotalOverCategories(txs: seq<Transaction>)
    ensures TotalOver(Categories(txs), txs) == SumAmounts(txs)
  {
    if txs != [] {
      var n := |txs| - 1;
      var prefix := txs[..n];
      var t := txs[n];
      assert txs == prefix + [t];
      TotalOverCategories(prefix);
      CategoriesExact(prefix);
      TotalOverStep(Categories(prefix), prefix, t);
      SumAmountsAppend(prefix, t);
      if t.category !in Categories(prefix) {
        assert forall k :: 0 <= k < |prefix| ==> prefix[k].category != t.category;
        CategoryTotalAbsent(prefix, t.category);
        TotalOverAppend(Categories(prefix), t.category, txs);
        assert CategoryTotal(txs, t.category) == t.amount;
      }
    }
  }

  lemma {:induction false} SumAmountsAppend(txs: seq<Transaction>, t: Transaction)
    ensures SumAmounts(txs + [t]) == SumAmounts(txs) + t.amount
  {
    if txs != [] {
      assert (txs + [t])[1..] == txs[1..] + [t];
      SumAmountsAppend(txs[1..], t);
    }
  }

  /** The sum of a distribution is the sum over its categories. */
  lemma {:induction false} DistributionSumIsTotalOver(cats: seq<string>, txs: seq<Transaction>, dist: seq<CategoryAmount>)
    requires |dist| == |cats|
    requires forall j :: 0 <= j < |cats| ==> dist[j] == CategoryAmount(cats[j], CategoryTotal(txs, cats[j]))
    ensures DistributionSum(dist) == TotalOver(cats, txs)
  {
    if cats != [] {
      DistributionSumIsTotalOver(cats[1..], txs, dist[1..]);
    }
  }

  /**
   * The per-category amounts of a kind's distribution add up to that kind's
   * total, the figure the dashboard divides by for the percentages; each
   * category appears once, and exactly when a transaction of that kind has it.
   */
  lemma DistributionOfKind(txs: seq<Transaction>, kind: TxType)
    ensures DistributionSum(Distribution(OfKind(txs, kind))) == KindTotal(txs, kind)
    ensures Distinct(Categories(OfKind(txs, kind)))
    ensures forall c :: c in Categories(OfKind(txs, kind)) <==>
      exists t :: t in txs && t.kind == kind && t.category == c
  {
    var filtered := OfKind(txs, kind);
    var cats := Categories(filtered);
    DistributionSumIsTotalOver(cats, filtered, Distribution(filtered));
    TotalOverCategories(filtered);
    KindTotalIsSumOfKind(txs, kind);
    CategoriesExact(filtered);
    forall c ensures c in cats <==> exists t :: t in txs && t.kind == kind && t.category == c {
      if exists t :: t in txs && t.kind == kind && t.category == c {
        var t :| t in txs && t.kind == kind && t.category == c;
        assert t in filtered;
        var k :| 0 <= k < |filtered| && filtered[k] == t;
        assert filtered[k].category == c;
      }
    }
  }

  /** Recent activity: the first (at most) five entries of the list, nothing with no list. */
  function RecentActivity(view: Option<seq<Transaction>>): (r: seq<Transaction>)
    ensures view.None? ==> r == []
    ensures view.Some? ==> |r| == (if |view.value| < 5 then |view.value| else 5)
    ensures view.Some? ==> r == view.value[..|r|]
  {
    if view.None? then []
    else if |view.value| < 5 then view.value
    else view.value[..5]
  }

  /**
   * On the date-descending list, the recent entries are the latest ones: no
   * entry left out of the excerpt comes after any entry shown.
   */
  lemma RecentAreLatest(list: seq<Transaction>)
    requires SortedDesc(list, TxKey)
    ensures var r := RecentActivity(Some(list));
      forall i, j :: 0 <= i < |r| <= j < |list| ==> KeyLe(TxKey(list[j]), TxKey(r[i]))
  {
  }
}
