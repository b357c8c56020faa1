/** The folds behind the balance and the aggregate queries: weighted sums over
    a sequence of records, and the per-category expense summary. */
module Aggregates {
  import opened Wrappers
  import opened TransactionModel

  /** The sum of `w` over `rs`, folded from the front. */
  function Sum(rs: seq<Transaction>, w: Transaction -> real): real
  {
    if rs == [] then 0.0 else Sum(rs[..|rs| - 1], w) + w(rs[|rs| - 1])
  }

  /** A record's contribution to the balance: income counts `+amount`,
      anything else, an untyped record included, counts `-amount`. */
  function SignedAmount(t: Transaction): real {
    if t.kind == Some(Income) then t.amount else -t.amount
  }

  /** The amount of a record of kind `k`, and 0 for any other record
      (an untyped record matches no kind, as NULL matches no literal in SQL). */
  function AmountOfKind(k: TxType): Transaction -> real {
    (t: Transaction) => if t.kind == Some(k) then t.amount else 0.0
  }

  /** The amount of an expense record filed under `c`, and 0 for any other record. */
  function ExpenseIn(c: string): Transaction -> real {
    (t: Transaction) => if t.kind == Some(Expense) && t.category == c then t.amount else 0.0
  }

  function Balance(rs: seq<Transaction>): real {
    Sum(rs, SignedAmount)
  }

  function KindTotal(rs: seq<Transaction>, k: TxType): real {
    Sum(rs, AmountOfKind(k))
  }

  function CategorySpend(rs: seq<Transaction>, c: string): real {
    Sum(rs, ExpenseIn(c))
  }

  predicate HasKind(rs: seq<Transaction>, k: TxType) {
    exists i :: 0 <= i < |rs| && rs[i].kind == Some(k)
  }

  /** Sums distribute over concatenation, so the order and grouping of the
      records never matter to a total. */
  lemma {:induction false} SumConcat(a: seq<Transaction>, b: seq<Transaction>, w: Transaction -> real)
    ensures Sum(a + b, w) == Sum(a, w) + Sum(b, w)
    decreases |b|
  {
    if b == [] {
      assert a + b == a;
    } else {
      var b' := b[..|b| - 1];
      assert (a + b)[..|a + b| - 1] == a + b';
      SumConcat(a, b', w);
    }
  }

  /** A weight that vanishes on every record sums to 0. */
  lemma {:induction false} SumOfZeros(rs: seq<Transaction>, w: Transaction -> real)
    requires forall i :: 0 <= i < |rs| ==> w(rs[i]) == 0.0
    ensures Sum(rs, w) == 0.0
    decreases |rs|
  {
    if rs != [] {
      SumOfZeros(rs[..|rs| - 1], w);
    }
  }

  /** When every record has a kind, the balance is total income minus total
      expenses. */
  lemma {:induction false} BalanceSplitsByKind(rs: seq<Transaction>)
    requires forall i :: 0 <= i < |rs| ==> rs[i].kind.Some?
    ensures Balance(rs) == KindTotal(rs, Income) - KindTotal(rs, Expense)
    decreases |rs|
  {
    if rs != [] {
      var prev, t := rs[..|rs| - 1], rs[|rs| - 1];
      assert forall i :: 0 <= i < |prev| ==> prev[i] == rs[i];
      BalanceSplitsByKind(prev);
      assert Balance(rs) == Balance(prev) + SignedAmount(t);
      assert KindTotal(rs, Income) == KindTotal(prev, Income) + AmountOfKind(Income)(t);
      assert KindTotal(rs, Expense) == KindTotal(prev, Expense) + AmountOfKind(Expense)(t);
      var income, expense := AmountOfKind(Income), AmountOfKind(Expense);
      assert t.kind.Some?;
      assert t.kind.value == Income || t.kind.value == Expense;
      assert income(t) == (if t.kind == Some(Income) then t.amount else 0.0);
      assert expense(t) == (if t.kind == Some(Expense) then t.amount else 0.0);
    }
  }

  /** A record with no kind, appended to any records, lowers the balance by
      its amount but leaves the total of every kind as it was. */
  lemma UntypedRecordEffect(rs: seq<Transaction>, t: Transaction, k: TxType)
    requires t.kind.None?
    ensures Balance(rs + [t]) == Balance(rs) - t.amount
    ensures KindTotal(rs + [t], k) == KindTotal(rs, k)
  {
    assert (rs + [t])[..|rs|] == rs;
  }

  /** Without the "every record has a kind" premise the split fails: a lone
      untyped record lowers the balance but is counted in neither total. */
  lemma UntypedRecordSkewsBalance(t: Transaction)
    requires t.kind.None? && t.amount == 5.0
    ensures Balance([t]) == -5.0
    ensures KindTotal([t], Income) == 0.0 && KindTotal([t], Expense) == 0.0
    ensures !HasKind([t], Income) && !HasKind([t], Expense)
  {
    assert [t][..0] == [];
    assert Balance([t]) == Balance([]) + SignedAmount(t);
    assert KindTotal([t], Income) == KindTotal([], Income) + AmountOfKind(Income)(t);
    assert KindTotal([t], Expense) == KindTotal([], Expense) + AmountOfKind(Expense)(t);
  }

  /** A kind total is 0 when no record has that kind. */
  lemma KindTotalWithoutKind(rs: seq<Transaction>, k: TxType)
    requires !HasKind(rs, k)
    ensures KindTotal(rs, k) == 0.0
  {
    SumOfZeros(rs, AmountOfKind(k));
  }

  // ---------------------------------------------------------------------
  // Per-category expense summary

  /** One row of the grouped query: a category and the sum over its expenses. */
  datatype SummaryRow = SummaryRow(category: string, total: real)

  function Categories(rows: seq<SummaryRow>): set<string> {
    set i | 0 <= i < |rows| :: rows[i].category
  }

  predicate Distinct(rows: seq<SummaryRow>) {
    forall i, j :: 0 <= i < j < |rows| ==> rows[i].category != rows[j].category
  }

  /** The total of the first row for `c`, and 0 when there is none. */
  function Lookup(rows: seq<SummaryRow>, c: string): real {
    if rows == [] then 0.0
    else if rows[0].category == c then rows[0].total
    else Lookup(rows[1..], c)
  }

  /** The sum of the row totals. */
  function RowsSum(rows: seq<SummaryRow>): real {
    if rows == [] then 0.0 else rows[0].total + RowsSum(rows[1..])
  }

  /** The categories of the expense records of `rs`. */
  function ExpenseCategories(rs: seq<Transaction>): set<string> {
    set i | 0 <= i < |rs| && rs[i].kind == Some(Expense) :: rs[i].category
  }

  /** Adds `a` to the row for `c`, appending a new row when `c` has none. */
  function AddTo(rows: seq<SummaryRow>, c: string, a: real): (r: seq<SummaryRow>)
    ensures Categories(r) == Categories(rows) + {c}
    ensures Distinct(rows) ==> Distinct(r)
    ensures forall d :: Lookup(r, d) == Lookup(rows, d) + (if d == c then a else 0.0)
    ensures RowsSum(r) == RowsSum(rows) + a
  {
    if rows == [] then
      CategoriesCons([SummaryRow(c, a)]);
      [SummaryRow(c, a)]
    else if rows[0].category == c then
      var r := [rows[0].(total := rows[0].total + a)] + rows[1..];
      CategoriesCons(rows);
      CategoriesCons(r);
      assert r[1..] == rows[1..];
      r
    else
      var rest := AddTo(rows[1..], c, a);
      assert Categories(rows) == {rows[0].category} + Categories(rows[1..]) by {
        CategoriesCons(rows);
      }
      assert Categories([rows[0]] + rest) == {rows[0].category} + Categories(rest) by {
        CategoriesCons([rows[0]] + rest);
        assert ([rows[0]] + rest)[1..] == rest;
      }
      [rows[0]] + rest
  }

  /** The categories of a non-empty summary: its head's plus its tail's. */
  lemma CategoriesCons(rows: seq<SummaryRow>)
    requires rows != []
    ensures Categories(rows) == {rows[0].category} + Categories(rows[1..])
  {
  }

  /** The grouped expense summary, one row per category in order of first
      appearance: its categories are exactly those of the expense records,
      each row holds the sum of that category's expenses, and the rows add up
      to the total of all expenses. */
  function Summarize(rs: seq<Transaction>): (r: seq<SummaryRow>)
    ensures Distinct(r)
    ensures Categories(r) == ExpenseCategories(rs)
    ensures forall c :: Lookup(r, c) == CategorySpend(rs, c)
    ensures RowsSum(r) == KindTotal(rs, Expense)
    decreases |rs|
  {
    if rs == [] then []
    else
      var prev := rs[..|rs| - 1];
      var t := rs[|rs| - 1];
      var rows := Summarize(prev);
      ExpenseCategoriesSnoc(prev, t);
      assert prev + [t] == rs;
      if t.kind == Some(Expense) then AddTo(rows, t.category, t.amount) else rows
  }

  /** Appending a record adds its category to the expense categories iff it is an expense. */
  lemma ExpenseCategoriesSnoc(rs: seq<Transaction>, t: Transaction)
    ensures ExpenseCategories(rs + [t])
      == ExpenseCategories(rs) + (if t.kind == Some(Expense) then {t.category} else {})
  {
    var s := rs + [t];
    forall c | c in ExpenseCategories(s)
      ensures c in ExpenseCategories(rs) + (if t.kind == Some(Expense) then {t.category} else {})
    {
      var i :| 0 <= i < |s| && s[i].kind == Some(Expense) && s[i].category == c;
      if i < |rs| {
        assert s[i] == rs[i];
      }
    }
    forall c | c in ExpenseCategories(rs)
      ensures c in ExpenseCategories(s)
    {
      var i :| 0 <= i < |rs| && rs[i].kind == Some(Expense) && rs[i].category == c;
      assert s[i] == rs[i];
    }
    if t.kind == Some(Expense) {
      assert s[|rs|] == t;
    }
  }

  /** In a summary with one row per category, each row's total is what
      `Lookup` reports for its category. */
  lemma {:induction false} LookupDistinct(rows: seq<SummaryRow>, i: int)
    requires Distinct(rows) && 0 <= i < |rows|
    ensures Lookup(rows, rows[i].category) == rows[i].total
    decreases |rows|
  {
    if i > 0 {
      assert rows[1..][i - 1] == rows[i];
      LookupDistinct(rows[1..], i - 1);
    }
  }

  /** Every row of the summary carries the sum of the expenses of its own
      category, and a category has a row exactly when some expense record
      carries it. */
  lemma SummaryRows(rs: seq<Transaction>)
    ensures forall i :: 0 <= i < |Summarize(rs)| ==>
      Summarize(rs)[i].total == CategorySpend(rs, Summarize(rs)[i].category)
    ensures forall c :: c in Categories(Summarize(rs)) <==>
      exists k :: 0 <= k < |rs| && rs[k].kind == Some(Expense) && rs[k].category == c
  {
    var r := Summarize(rs);
    forall i | 0 <= i < |r|
      ensures r[i].total == CategorySpend(rs, r[i].category)
    {
      LookupDistinct(r, i);
    }
  }

  /** The summary is empty exactly when there are no expense records. */
  lemma SummaryEmptyIffNoExpense(rs: seq<Transaction>)
    ensures Summarize(rs) == [] <==> !HasKind(rs, Expense)
  {
  }
}
