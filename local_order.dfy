/**
 * The order in which the local tables are read back:
 * `orderBy('date').reverse()` walks the `date` index backwards. The index
 * orders strings lexicographically, here by code point, which agrees with
 * IndexedDB's UTF-16 code unit order on the Basic Multilingual Plane (and so
 * on ISO dates); it breaks ties between equal dates by
 * the primary key, so reversed the list is by date descending and, among
 * equal dates, by key descending (the most recently inserted first).
 */
module LocalOrder {
  import opened FinanceDb

  /** Position of a row in the `date` index: its date, then its key. */
  datatype OrderKey = OrderKey(date: string, id: nat)

  function TxKey(t: Transaction): OrderKey { OrderKey(t.date, t.id) }

  function FileKey(f: FileRecord): OrderKey { OrderKey(f.date, f.id) }

  /** Lexicographic order on strings by code point (IndexedDB's order on BMP text). */
  predicate StrLe(a: string, b: string)
    decreases |a|
  {
    |a| == 0 || (|b| > 0 && (a[0] < b[0] || (a[0] == b[0] && StrLe(a[1..], b[1..]))))
  }

  lemma {:induction false} StrLeTotal(a: string, b: string)
    ensures StrLe(a, b) || StrLe(b, a)
    decreases |a|
  {
    if |a| > 0 && |b| > 0 && a[0] == b[0] {
      StrLeTotal(a[1..], b[1..]);
    }
  }

  lemma {:induction false} StrLeTrans(a: string, b: string, c: string)
    requires StrLe(a, b) && StrLe(b, c)
    ensures StrLe(a, c)
    decreases |a|
  {
    if |a| > 0 && a[0] == b[0] && b[0] == c[0] {
      StrLeTrans(a[1..], b[1..], c[1..]);
    }
  }

  lemma {:induction false} StrLeAntisym(a: string, b: string)
    requires StrLe(a, b) && StrLe(b, a)
    ensures a == b
    decreases |a|
  {
    if |a| > 0 {
      StrLeAntisym(a[1..], b[1..]);
      assert a == [a[0]] + a[1..] && b == [b[0]] + b[1..];
    }
  }

  /** `a` comes no later than `b` in the ascending index. */
  predicate KeyLe(a: OrderKey, b: OrderKey)
  {
    if a.date == b.date then a.id <= b.id else StrLe(a.date, b.date)
  }

  lemma KeyLeTotal(a: OrderKey, b: OrderKey)
    ensures KeyLe(a, b) || KeyLe(b, a)
  {
    StrLeTotal(a.date, b.date);
  }

  lemma KeyLeTrans(a: OrderKey, b: OrderKey, c: OrderKey)
    requires KeyLe(a, b) && KeyLe(b, c)
    ensures KeyLe(a, c)
  {
    if a.date != b.date && b.date != c.date {
      StrLeTrans(a.date, b.date, c.date);
      if a.date == c.date { StrLeAntisym(a.date, b.date); }
    }
  }

  lemma KeyLeAntisym(a: OrderKey, b: OrderKey)
    requires KeyLe(a, b) && KeyLe(b, a)
    ensures a == b
  {
    if a.date != b.date { StrLeAntisym(a.date, b.date); }
  }

  /** `s` walks the index backwards: every row is at or after each row behind it. */
  predicate SortedDesc<T>(s: seq<T>, key: T -> OrderKey)
  {
    forall i, j :: 0 <= i < j < |s| ==> KeyLe(key(s[j]), key(s[i]))
  }

  /** No two rows of `s` sit at the same place in the index. */
  predicate KeysDistinct<T>(s: seq<T>, key: T -> OrderKey)
  {
    forall i, j :: 0 <= i < j < |s| ==> key(s[i]) != key(s[j])
  }

  /** Puts `x` into a descending list in front of the first entry it does not precede. */
  function InsertDesc<T>(x: T, s: seq<T>, key: T -> OrderKey): (r: seq<T>)
    ensures multiset(r) == multiset(s) + multiset{x}
  {
    if s == [] then [x]
    else if KeyLe(key(s[0]), key(x)) then
      assert s == [s[0]] + s[1..];
      [x] + s
    else
      assert s == [s[0]] + s[1..];
      [s[0]] + InsertDesc(x, s[1..], key)
  }

  /** Inserting into a descending list keeps it descending. */
  lemma {:induction false} InsertDescSorted<T>(x: T, s: seq<T>, key: T -> OrderKey)
    requires SortedDesc(s, key)
    ensures SortedDesc(InsertDesc(x, s, key), key)
  {
    if s == [] {
    } else if KeyLe(key(s[0]), key(x)) {
      var r := [x] + s;
      assert forall j :: 0 < j < |r| ==> r[j] == s[j - 1];
      forall j | 0 < j < |r| ensures KeyLe(key(r[j]), key(x)) {
        if j > 1 { KeyLeTrans(key(s[j - 1]), key(s[0]), key(x)); }
      }
    } else {
      var rest := InsertDesc(x, s[1..], key);
      InsertDescSorted(x, s[1..], key);
      var r := [s[0]] + rest;
      assert InsertDesc(x, s, key) == r;
      KeyLeTotal(key(s[0]), key(x));
      forall j | 0 <= j < |rest| ensures KeyLe(key(rest[j]), key(s[0])) {
        assert rest[j] in multiset(rest);
        if rest[j] != x {
          assert rest[j] in multiset(s[1..]);
          var m :| 0 <= m < |s[1..]| && s[1..][m] == rest[j];
          assert s[m + 1] == rest[j];
        }
      }
      assert forall j :: 0 < j < |r| ==> r[j] == rest[j - 1];
    }
  }

  /** Sorts into descending key order (an insertion sort standing in for the index walk). */
  function SortDesc<T>(s: seq<T>, key: T -> OrderKey): (r: seq<T>)
    ensures SortedDesc(r, key)
    ensures multiset(r) == multiset(s)
  {
    if s == [] then []
    else
      assert s == [s[0]] + s[1..];
      InsertDescSorted(s[0], SortDesc(s[1..], key), key);
      InsertDesc(s[0], SortDesc(s[1..], key), key)
  }

  /** The first row of a descending list is at or after every row of it. */
  lemma HeadIsLatest<T>(s: seq<T>, key: T -> OrderKey, y: T)
    requires SortedDesc(s, key) && y in s
    ensures KeyLe(key(y), key(s[0]))
  {
    var j :| 0 <= j < |s| && s[j] == y;
  }

  /**
   * When no two rows share an index position there is exactly one
   * descending arrangement of them: the read order is fully determined.
   */
  lemma {:induction false} SortedDescUnique<T>(a: seq<T>, b: seq<T>, key: T -> OrderKey)
    requires SortedDesc(a, key) && SortedDesc(b, key)
    requires multiset(a) == multiset(b)
    requires KeysDistinct(a, key)
    ensures a == b
  {
    if a != [] {
      assert a[0] in multiset(b);
      assert b != [];
      assert b[0] in multiset(a);
      HeadIsLatest(b, key, a[0]);
      HeadIsLatest(a, key, b[0]);
      KeyLeAntisym(key(a[0]), key(b[0]));
      var j :| 0 <= j < |a| && a[j] == b[0];
      assert a[0] == b[0];
      TailsPermutation(a, b);
      SortedDescUnique(a[1..], b[1..], key);
      assert a == [a[0]] + a[1..] && b == [b[0]] + b[1..];
    }
  }

  /** Two permutations with the same first element are permutations of each other after it. */
  lemma TailsPermutation<T>(a: seq<T>, b: seq<T>)
    requires a != [] && b != [] && a[0] == b[0]
    requires multiset(a) == multiset(b)
    ensures multiset(a[1..]) == multiset(b[1..])
  {
    assert a == [a[0]] + a[1..] && b == [b[0]] + b[1..];
    assert multiset(a[1..]) == multiset(a) - multiset{a[0]};
    assert multiset(b[1..]) == multiset(b) - multiset{b[0]};
  }

  /** Every row of an insertion is the inserted row or a row of the list. */
  lemma InInsertion<T>(x: T, s: seq<T>, key: T -> OrderKey, y: T)
    requires y in InsertDesc(x, s, key)
    ensures y == x || y in s
  {
    assert y in multiset(InsertDesc(x, s, key));
  }

  /** Inserting a row whose position no row of `s` shares keeps the positions distinct. */
  lemma {:induction false} InsertDescDistinct<T>(x: T, s: seq<T>, key: T -> OrderKey)
    requires KeysDistinct(s, key)
    requires forall k :: 0 <= k < |s| ==> key(s[k]) != key(x)
    ensures KeysDistinct(InsertDesc(x, s, key), key)
  {
    if s != [] && !KeyLe(key(s[0]), key(x)) {
      var rest := InsertDesc(x, s[1..], key);
      InsertDescDistinct(x, s[1..], key);
      var r := [s[0]] + rest;
      assert InsertDesc(x, s, key) == r;
      forall j | 0 <= j < |rest| ensures key(rest[j]) != key(s[0]) {
        InInsertion(x, s[1..], key, rest[j]);
        if rest[j] != x {
          var m :| 0 <= m < |s[1..]| && s[1..][m] == rest[j];
          assert s[m + 1] == rest[j];
        }
      }
      forall i, j | 0 <= i < j < |r| ensures key(r[i]) != key(r[j]) {
        assert r[j] == rest[j - 1];
        if i > 0 { assert r[i] == rest[i - 1]; }
      }
    }
  }

  /** Sorting keeps the index positions of the rows distinct. */
  lemma {:induction false} SortDescDistinct<T>(s: seq<T>, key: T -> OrderKey)
    requires KeysDistinct(s, key)
    ensures KeysDistinct(SortDesc(s, key), key)
  {
    if s != [] {
      var tail := s[1..];
      SortDescDistinct(tail, key);
      var sorted := SortDesc(tail, key);
      forall k | 0 <= k < |sorted| ensures key(sorted[k]) != key(s[0]) {
        assert sorted[k] in multiset(tail);
        var m :| 0 <= m < |tail| && tail[m] == sorted[k];
        assert s[m + 1] == sorted[k];
      }
      InsertDescDistinct(s[0], sorted, key);
    }
  }

  /**
   * Reading a table back gives one well-defined list: any list of its rows
   * in descending index order is the one `SortDesc` computes, so equal dates
   * are always shown newest key first.
   */
  lemma TxReadOrderUnique(txs: seq<Transaction>, next: nat, s: seq<Transaction>)
    requires TxKeysBelow(txs, next)
    requires SortedDesc(s, TxKey) && multiset(s) == multiset(txs)
    ensures s == SortDesc(txs, TxKey)
  {
    assert KeysDistinct(txs, TxKey);
    SortDescDistinct(txs, TxKey);
    SortedDescUnique(SortDesc(txs, TxKey), s, TxKey);
  }

  /** The same for the files table. */
  lemma FileReadOrderUnique(files: seq<FileRecord>, next: nat, s: seq<FileRecord>)
    requires FileKeysBelow(files, next)
    requires SortedDesc(s, FileKey) && multiset(s) == multiset(files)
    ensures s == SortDesc(files, FileKey)
  {
    assert KeysDistinct(files, FileKey);
    SortDescDistinct(files, FileKey);
    SortedDescUnique(SortDesc(files, FileKey), s, FileKey);
  }
}
