/** The ledger service: thin pass-throughs to the store, the balance fold,
    and the existence-guarded delete. Every operation takes the store state
    and returns what it computes together with the new state, if any. */
module Service {
  import opened Wrappers
  import opened TransactionModel
  import opened Aggregates
  import opened Repository

  /** `addTransaction`: exactly one `save`, whose result is returned. A new
      record comes back under an id no stored record had, and can be read
      back under that id. */
  function AddTransaction(s: Store, t: Transaction): (r: Saved)
    ensures r == Save(s, t)
    ensures r.record == t.(id := r.record.id) && r.record.id.Some?
    ensures Inv(s) && t.id.None? ==> !HasId(s.records, r.record.id.value)
    ensures Inv(s) ==> Inv(r.store) && GetTransactionById(r.store, r.record.id.value) == Some(r.record)
  {
    Save(s, t)
  }

  /** `getTransactionById`: the record with that id, or nothing; never an error. */
  function GetTransactionById(s: Store, id: int): (r: Option<Transaction>)
    ensures r.Some? <==> HasId(s.records, id)
    ensures r.Some? ==> r.value.id == Some(id) && r.value in s.records
    ensures Inv(s) ==> forall i :: 0 <= i < |s.records| && s.records[i].id == Some(id) ==> r == Some(s.records[i])
  {
    FindById(s, id)
  }

  /** `getAllTransactions`: the stored records, in store order. */
  function GetAllTransactions(s: Store): (r: seq<Transaction>)
    ensures |r| == |s.records| && forall i :: 0 <= i < |r| ==> r[i] == s.records[i]
  {
    FindAll(s)
  }

  /** `getBalance`: one pass over all records adding `+amount` for income and
      `-amount` for anything else. With every record typed this is the income
      total minus the expense total. */
  method GetBalance(s: Store) returns (b: real)
    ensures b == Balance(s.records)
    ensures s.records == [] ==> b == 0.0
    ensures (forall i :: 0 <= i < |s.records| ==> s.records[i].kind.Some?) ==>
      b == KindTotal(s.records, Income) - KindTotal(s.records, Expense)
  {
    var rs := FindAll(s);
    b := 0.0;
    var i := 0;
    while i < |rs|
      invariant 0 <= i <= |rs|
      invariant b == Balance(rs[..i])
    {
      var t := rs[i];
      b := b + if t.kind == Some(Income) then t.amount else -t.amount;
      assert rs[..i + 1][..i] == rs[..i];
      i := i + 1;
    }
    assert rs[..i] == rs;
    if forall i :: 0 <= i < |rs| ==> rs[i].kind.Some? {
      BalanceSplitsByKind(rs);
    }
  }

  /** The outcome of `deleteTransaction`: the new store and the returned flag. */
  datatype Deleted = Deleted(store: Store, removed: bool)

  /** `deleteTransaction`: removes the record and reports `true` when the id
      is stored; otherwise reports `false` and changes nothing. */
  function DeleteTransaction(s: Store, id: int): (r: Deleted)
    ensures r.removed <==> HasId(s.records, id)
    ensures !HasId(r.store.records, id)
    ensures !r.removed ==> r.store == s
    ensures Inv(s) ==> Inv(r.store)
    ensures Inv(s) ==> forall k :: 0 <= k < |s.records| && s.records[k].id == Some(id) ==>
      r.store.records == s.records[..k] + s.records[k + 1..] && r.store.nextId == s.nextId
  {
    if ExistsById(s, id) then Deleted(DeleteById(s, id), true) else Deleted(s, false)
  }

  /** A second delete of the same id finds nothing. */
  lemma DeleteTwice(s: Store, id: int)
    ensures !DeleteTransaction(DeleteTransaction(s, id).store, id).removed
  {
  }

  /** Deleting removes exactly its record's signed amount from the balance. */
  lemma BalanceAfterDelete(s: Store, k: int)
    requires Inv(s) && 0 <= k < |s.records|
    ensures
      var t := s.records[k];
      Balance(DeleteTransaction(s, t.id.value).store.records) == Balance(s.records) - SignedAmount(t)
  {
    var rs := s.records;
    var t := rs[k];
    assert rs == rs[..k] + [t] + rs[k + 1..];
    SumConcat(rs[..k] + [t], rs[k + 1..], SignedAmount);
    SumConcat(rs[..k], [t], SignedAmount);
    SumConcat(rs[..k], rs[k + 1..], SignedAmount);
    assert [t][..0] == [];
  }

  /** Adding a new record moves the balance by exactly its signed amount. */
  lemma BalanceAfterAdd(s: Store, t: Transaction)
    requires Inv(s) && t.id.None?
    ensures
      var r := AddTransaction(s, t);
      Balance(r.store.records) == Balance(s.records) + SignedAmount(r.record)
  {
  }

  /** Adding a new record and then deleting it by the id it was given leaves
      the same records behind. */
  lemma AddThenDelete(s: Store, t: Transaction)
    requires Inv(s) && t.id.None?
    ensures
      var a := AddTransaction(s, t);
      var d := DeleteTransaction(a.store, a.record.id.value);
      d.removed && d.store.records == s.records
  {
  }

  /** On a fresh store every read reports the empty ledger and every delete
      reports `false`. */
  lemma EmptyLedger(id: int)
    ensures Balance(GetAllTransactions(Empty())) == 0.0
    ensures GetAllTransactions(Empty()) == []
    ensures GetTotalRevenue(Empty()) == None && GetTotalExpenses(Empty()) == None
    ensures GetExpenseCategorySummary(Empty()) == []
    ensures GetTransactionById(Empty(), id) == None
    ensures !DeleteTransaction(Empty(), id).removed
  {
  }

  /** A salary of 100 followed by a food expense of 40, both added to a fresh
      store: balance 60, revenue 100, expenses 40, and a single summary row
      for food. */
  lemma SalaryAndFood(salary: Transaction, food: Transaction)
    requires salary == Transaction(None, 100.0, "Salary", None, salary.date, Some(Income))
    requires food == Transaction(None, 40.0, "Food", None, food.date, Some(Expense))
    ensures
      var s := AddTransaction(AddTransaction(Empty(), salary).store, food).store;
      && Inv(s)
      && Balance(GetAllTransactions(s)) == 60.0
      && GetTotalRevenue(s) == Some(100.0)
      && GetTotalExpenses(s) == Some(40.0)
      && GetExpenseCategorySummary(s) == [SummaryRow("Food", 40.0)]
  {
    var first := AddTransaction(Empty(), salary);
    var s := AddTransaction(first.store, food).store;
    var a, b := salary.(id := Some(1)), food.(id := Some(2));
    assert first.store.records == [a];
    var rs := s.records;
    assert rs == [a, b];
    assert rs[..1] == [a] && [a][..0] == [];
    assert Summarize([a]) == [];
    assert Sum([a], SignedAmount) == Sum([], SignedAmount) + SignedAmount(a);
    assert Balance(rs) == Balance([a]) + SignedAmount(b);
    assert Sum([a], AmountOfKind(Income)) == Sum([], AmountOfKind(Income)) + AmountOfKind(Income)(a);
    assert KindTotal(rs, Income) == KindTotal([a], Income) + AmountOfKind(Income)(b);
    assert HasKind(rs, Income) && HasKind(rs, Expense) by {
      assert rs[0].kind == Some(Income) && rs[1].kind == Some(Expense);
    }
  }

  /** Two food expenses of 10 and 15, both added to a fresh store, share one
      summary row of 25. */
  lemma FoodTwice(food10: Transaction, food15: Transaction)
    requires food10 == Transaction(None, 10.0, "Food", None, food10.date, Some(Expense))
    requires food15 == Transaction(None, 15.0, "Food", None, food15.date, Some(Expense))
    ensures
      var s := AddTransaction(AddTransaction(Empty(), food10).store, food15).store;
      GetExpenseCategorySummary(s) == [SummaryRow("Food", 25.0)]
  {
    var first := AddTransaction(Empty(), food10);
    var s := AddTransaction(first.store, food15).store;
    var a, b := food10.(id := Some(1)), food15.(id := Some(2));
    assert first.store.records == [a];
    var rs := s.records;
    assert rs == [a, b];
    assert rs[..1] == [a] && [a][..0] == [];
    assert Summarize([a]) == [SummaryRow("Food", 10.0)];
  }
}
