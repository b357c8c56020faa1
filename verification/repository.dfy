/** The transaction store: an in-memory stand-in for the JPA repository. It
    keeps the records in insertion order, assigns identity values from a
    counter, and answers the three aggregate queries as folds over its records. */
module Repository {
  import opened Wrappers
  import opened TransactionModel
  import opened Aggregates

  /** The stored records and the next identity value to hand out. */
  datatype Store = Store(records: seq<Transaction>, nextId: int)

  /** The identity column's guarantees: every stored record has an id, ids
      are unique, and every id was handed out before `nextId`. */
  predicate Inv(s: Store) {
    && s.nextId >= 1
    && (forall i :: 0 <= i < |s.records| ==> s.records[i].id.Some? && 1 <= s.records[i].id.value < s.nextId)
    && (forall i, j :: 0 <= i < j < |s.records| ==> s.records[i].id != s.records[j].id)
  }

  /** A fresh store: no records, identity values starting at 1. */
  function Empty(): (s: Store)
    ensures Inv(s) && s.records == []
  {
    Store([], 1)
  }

  predicate HasId(rs: seq<Transaction>, id: int) {
    exists i :: 0 <= i < |rs| && rs[i].id == Some(id)
  }

  /** The first record with id `id`, if any. */
  function Find(rs: seq<Transaction>, id: int): (r: Option<Transaction>)
    ensures r.Some? <==> HasId(rs, id)
    ensures r.Some? ==> r.value.id == Some(id) && r.value in rs
  {
    if rs == [] then None
    else if rs[0].id == Some(id) then Some(rs[0])
    else
      assert forall i :: 0 <= i < |rs[1..]| ==> rs[1..][i] == rs[i + 1];
      Find(rs[1..], id)
  }

  /** `findById`: with unique ids, exactly the stored record with that id. */
  function FindById(s: Store, id: int): (r: Option<Transaction>)
    ensures r.Some? <==> HasId(s.records, id)
    ensures Inv(s) ==> forall i :: 0 <= i < |s.records| && s.records[i].id == Some(id) ==> r == Some(s.records[i])
  {
    if Inv(s) then
      forall i | 0 <= i < |s.records| && s.records[i].id == Some(id)
        ensures Find(s.records, id) == Some(s.records[i])
      {
        FindUnique(s.records, i, id);
      }
      Find(s.records, id)
    else Find(s.records, id)
  }

  /** `existsById`. */
  function ExistsById(s: Store, id: int): (r: bool)
    ensures r <==> HasId(s.records, id)
  {
    Find(s.records, id).Some?
  }

  /** `findAll`: the records in store order. */
  function FindAll(s: Store): seq<Transaction> {
    s.records
  }

  /** The outcome of `save`: the new store and the record as persisted. */
  datatype Saved = Saved(store: Store, record: Transaction)

  /** Replaces every record carrying `t`'s id by `t`. */
  function Replace(rs: seq<Transaction>, t: Transaction): (r: seq<Transaction>)
    ensures |r| == |rs|
    ensures forall i :: 0 <= i < |rs| ==> r[i] == if rs[i].id == t.id then t else rs[i]
  {
    if rs == [] then []
    else [if rs[0].id == t.id then t else rs[0]] + Replace(rs[1..], t)
  }

  /** `save`: a record whose id is already stored replaces that record in
      place; any other record is appended under the next identity value. The
      saved record is the argument with its id filled in. */
  function Save(s: Store, t: Transaction): (r: Saved)
    ensures r.record == t.(id := r.record.id) && r.record.id.Some?
    ensures t.id.Some? && HasId(s.records, t.id.value) ==>
      r.record == t && r.store.nextId == s.nextId && r.store.records == Replace(s.records, t)
    ensures !(t.id.Some? && HasId(s.records, t.id.value)) ==>
      && r.record == t.(id := Some(s.nextId))
      && r.store == Store(s.records + [r.record], s.nextId + 1)
    ensures Inv(s) ==> Inv(r.store) && Find(r.store.records, r.record.id.value) == Some(r.record)
  {
    if t.id.Some? && HasId(s.records, t.id.value) then
      var r := Store(Replace(s.records, t), s.nextId);
      UpdateKeepsInv(s, t, r);
      Saved(r, t)
    else
      var saved := t.(id := Some(s.nextId));
      var r := Store(s.records + [saved], s.nextId + 1);
      InsertKeepsInv(s, saved, r);
      Saved(r, saved)
  }

  /** With unique ids, `Find` returns the one record carrying the id. */
  lemma FindUnique(rs: seq<Transaction>, k: int, id: int)
    requires 0 <= k < |rs| && rs[k].id == Some(id)
    requires forall i, j :: 0 <= i < j < |rs| ==> rs[i].id != rs[j].id
    ensures Find(rs, id) == Some(rs[k])
  {
  }

  /** Replacing a stored record in place keeps the ids, so it keeps the invariant. */
  lemma UpdateKeepsInv(s: Store, t: Transaction, r: Store)
    requires t.id.Some? && HasId(s.records, t.id.value)
    requires r.nextId == s.nextId && |r.records| == |s.records|
    requires forall i :: 0 <= i < |s.records| ==> r.records[i] == if s.records[i].id == t.id then t else s.records[i]
    ensures Inv(s) ==> Inv(r) && Find(r.records, t.id.value) == Some(t)
  {
  }

  /** Appending under `nextId` and advancing the counter keeps the invariant. */
  lemma InsertKeepsInv(s: Store, saved: Transaction, r: Store)
    requires saved.id == Some(s.nextId)
    requires r == Store(s.records + [saved], s.nextId + 1)
    ensures Inv(s) ==> Inv(r) && Find(r.records, s.nextId) == Some(saved)
  {
    assert r.records[|s.records|] == saved;
    if Inv(s) {
      assert forall i :: 0 <= i < |s.records| ==> r.records[i] == s.records[i];
      FindUnique(r.records, |s.records|, s.nextId);
    }
  }

  /** Drops every record carrying id `id`, keeping the others in order. */
  function RemoveId(rs: seq<Transaction>, id: int): (r: seq<Transaction>)
    ensures !HasId(r, id)
    ensures forall t :: t in r <==> t in rs && t.id != Some(id)
    ensures !HasId(rs, id) ==> r == rs
    ensures |r| <= |rs|
  {
    if rs == [] then []
    else
      assert forall i :: 0 <= i < |rs[1..]| ==> rs[1..][i] == rs[i + 1];
      var rest := RemoveId(rs[1..], id);
      if rs[0].id == Some(id) then rest
      else
        assert forall i :: 0 <= i < |rest| ==> ([rs[0]] + rest)[i + 1] == rest[i];
        [rs[0]] + rest
  }

  /** Removal distributes over concatenation. */
  lemma {:induction false} RemoveIdConcat(a: seq<Transaction>, b: seq<Transaction>, id: int)
    ensures RemoveId(a + b, id) == RemoveId(a, id) + RemoveId(b, id)
    decreases |a|
  {
    if a == [] {
      assert a + b == b;
    } else {
      assert (a + b)[0] == a[0];
      assert (a + b)[1..] == a[1..] + b;
      RemoveIdConcat(a[1..], b, id);
      if a[0].id != Some(id) {
        assert [a[0]] + (RemoveId(a[1..], id) + RemoveId(b, id))
          == ([a[0]] + RemoveId(a[1..], id)) + RemoveId(b, id);
      }
    }
  }

  /** With unique ids, removing an id that is present cuts exactly the one
      record carrying it out of the sequence. */
  lemma RemoveUnique(rs: seq<Transaction>, k: int, id: int)
    requires 0 <= k < |rs| && rs[k].id == Some(id)
    requires forall i, j :: 0 <= i < j < |rs| ==> rs[i].id != rs[j].id
    ensures RemoveId(rs, id) == rs[..k] + rs[k + 1..]
  {
    assert rs == rs[..k] + [rs[k]] + rs[k + 1..];
    assert !HasId(rs[..k], id);
    var tail := rs[k + 1..];
    assert !HasId(tail, id) by {
      forall i | 0 <= i < |tail|
        ensures tail[i].id != Some(id)
      {
        assert tail[i] == rs[k + 1 + i];
      }
    }
    RemoveIdConcat(rs[..k] + [rs[k]], rs[k + 1..], id);
    RemoveIdConcat(rs[..k], [rs[k]], id);
  }

  /** `deleteById`. */
  function DeleteById(s: Store, id: int): (r: Store)
    ensures !HasId(r.records, id) && r.nextId == s.nextId
    ensures !HasId(s.records, id) ==> r == s
    ensures forall t :: t in r.records <==> t in s.records && t.id != Some(id)
    ensures Inv(s) ==> Inv(r)
    ensures Inv(s) ==> forall k :: 0 <= k < |s.records| && s.records[k].id == Some(id) ==>
      r.records == s.records[..k] + s.records[k + 1..]
  {
    var r := s.(records := RemoveId(s.records, id));
    if Inv(s) then
      forall k | 0 <= k < |s.records| && s.records[k].id == Some(id)
        ensures r.records == s.records[..k] + s.records[k + 1..]
      {
        RemoveUnique(s.records, k, id);
      }
      r
    else r
  }

  /** `getTotalRevenue`: SQL `SUM` over the income records, which is NULL
      when there are none. */
  function GetTotalRevenue(s: Store): (r: Option<real>)
    ensures r.None? <==> !HasKind(s.records, Income)
    ensures r.GetOr(0.0) == KindTotal(s.records, Income)
  {
    if HasKind(s.records, Income) then Some(KindTotal(s.records, Income))
    else
      KindTotalWithoutKind(s.records, Income);
      None
  }

  /** `getTotalExpenses`: SQL `SUM` over the expense records, which is NULL
      when there are none. */
  function GetTotalExpenses(s: Store): (r: Option<real>)
    ensures r.None? <==> !HasKind(s.records, Expense)
    ensures r.GetOr(0.0) == KindTotal(s.records, Expense)
  {
    if HasKind(s.records, Expense) then Some(KindTotal(s.records, Expense))
    else
      KindTotalWithoutKind(s.records, Expense);
      None
  }

  /** `getExpenseCategorySummary`: one (category, sum) row per category of
      the expense records, in order of first appearance. */
  function GetExpenseCategorySummary(s: Store): (r: seq<SummaryRow>)
    ensures Distinct(r)
    ensures forall c :: c in Categories(r) <==>
      exists k :: 0 <= k < |s.records| && s.records[k].kind == Some(Expense) && s.records[k].category == c
    ensures forall i :: 0 <= i < |r| ==> r[i].total == CategorySpend(s.records, r[i].category)
    ensures r == [] <==> GetTotalExpenses(s).None?
    ensures r != [] ==> GetTotalExpenses(s) == Some(RowsSum(r))
  {
    SummaryRows(s.records);
    SummaryEmptyIffNoExpense(s.records);
    Summarize(s.records)
  }
}
