# Budget manager ledger core, modelled in Dafny

This project models the ledger core of the budget manager, a small Spring
application that records income and expense transactions and derives a
balance, income and expense totals, and a per-category expense summary.

- `wrappers.dfy` (`Wrappers`): `Option`, which stands for Java's nullable
  references, and `Result`, which stands for a value or a thrown exception.
- `java_string.dfy` (`JavaString`): `String.trim()`. It strips every leading
  and trailing character at or below U+0020, and nothing else. The category
  check depends on it. Characters are Dafny `char`s (Unicode scalar values).
- `transaction.dfy` (`TransactionModel`): the `Transaction` entity as an
  immutable datatype. It holds the three validators, the validating constructor
  and the five setters. A setter returns the record's state after the call and
  the exception it threw, if any.
- `aggregates.dfy` (`Aggregates`): weighted sums over a sequence of records.
  These give the balance, the per-kind totals and the per-category spend. The
  module also holds the grouped expense summary.
- `repository.dfy` (`Repository`): an in-memory store standing in for the JPA
  repository. It is a sequence of records with unique ids plus an identity
  counter. It provides `save`, `findById`, `existsById`, `findAll`,
  `deleteById` and the three aggregate queries.
- `service.dfy` (`Service`): the five service operations, plus lemmas that
  relate them to one another.

Decisions the model makes:

- **Kinds.** The source names the transaction kinds in three ways. The enum
  declares `INCOME, OUTCOME`. The balance compares against `ENTRATA`. The
  queries match the literals `'INCOME'` and `'EXPENSE'`. The model uses one
  datatype, `Income | Expense`, everywhere.
- **Missing kind.** Neither the constructor nor `setType` rejects a null type,
  so a record's kind is an `Option`. The balance counts an untyped record as
  `-amount`. The SQL totals skip it, because NULL matches no literal. So
  "balance = revenue − expenses" holds only when every record has a kind.
  `Aggregates.BalanceSplitsByKind` proves the equation under that premise.
  `Aggregates.UntypedRecordEffect` gives the effect of an untyped record on
  any store, and `Aggregates.UntypedRecordSkewsBalance` shows the equation
  failing without the premise.
- **Amounts** are exact `real`s, not `Double`s.
- **Negative amounts.** Amount validation accepts any non-zero amount, negative
  ones included, and ignores its `type` argument. A controller test expects a
  POST with amount −50 to be refused with a bad request. The code accepts −50
  when the type is valid. The test's request names the type `ENTRATA`, which
  the enum does not declare, so that request is refused for its type, not its
  sign. The model follows the code
  (`TransactionModel.AmountValidationIgnoresSignAndKind`).
- **Ids** are integers. The store hands them out from a counter that starts
  at 1, as an identity column does.
- **`save`.** A record whose id is already stored replaces that record in
  place. Any other record is appended under the next id.
- **Totals.** The aggregate queries return `Option<real>`, because SQL `SUM`
  over no rows is NULL.
- **Summary.** The grouped query returns one `SummaryRow` per category. The
  query has no `ORDER BY`, so its row order is unspecified. The model picks
  order of first appearance, and no contract depends on that order.
- **Service totals.** The view controller calls `getTotalRevenue`,
  `getTotalExpenses` and `getExpenseCategorySummary` on the service, but the
  service does not declare them. The model answers them with the repository
  queries they would delegate to.

## Model

| member | source | states |
|---|---|---|
| JavaString.Trim | budget-manager/src/main/java/com/example/budgetmanager/model/Transaction.java:100 | the result is the input with a blank prefix and a blank suffix cut off and nothing else, where blank means every character is at or below U+0020; it neither starts nor ends with such a character, and it is empty exactly when the whole input is blank |
| TransactionModel.ValidateAmount | budget-manager/src/main/java/com/example/budgetmanager/model/Transaction.java:93-97 | an amount is rejected with the amount message exactly when it is null or zero; the kind argument plays no part |
| TransactionModel.ValidateCategory | budget-manager/src/main/java/com/example/budgetmanager/model/Transaction.java:99-103 | a category is rejected with the category message exactly when it is null or has no character above U+0020, that is, when it is blank after trimming |
| TransactionModel.ValidateDate | budget-manager/src/main/java/com/example/budgetmanager/model/Transaction.java:105-109 | a date is rejected with the date message exactly when it is null |
| TransactionModel.NewTransaction | budget-manager/src/main/java/com/example/budgetmanager/model/Transaction.java:28-37 | the constructor succeeds iff amount, category and date all pass; failures are reported in the order amount, category, date; on success it stores every argument as given, the id stays unset, and the record satisfies the field invariants |
| TransactionModel.SetAmount | budget-manager/src/main/java/com/example/budgetmanager/model/Transaction.java:53-56 | a null or zero amount throws and leaves the record unchanged; any other amount replaces only the amount |
| TransactionModel.SetCategory | budget-manager/src/main/java/com/example/budgetmanager/model/Transaction.java:62-65 | a null or blank category throws and leaves the record unchanged; any other category replaces only the category |
| TransactionModel.SetDate | budget-manager/src/main/java/com/example/budgetmanager/model/Transaction.java:79-82 | a null date throws and leaves the record unchanged; any other date replaces only the date |
| TransactionModel.SetDescription | budget-manager/src/main/java/com/example/budgetmanager/model/Transaction.java:71-73 | any description, null included, is accepted and no other field changes |
| TransactionModel.SetType | budget-manager/src/main/java/com/example/budgetmanager/model/Transaction.java:88-90 | any kind, null included, is accepted and no other field changes |
| TransactionModel.AmountValidationIgnoresSignAndKind | budget-manager/src/main/java/com/example/budgetmanager/model/Transaction.java:93-97 | every non-zero amount passes, and so does its negation, whatever the kind |
| TransactionModel.SettersPreserveValid | budget-manager/src/main/java/com/example/budgetmanager/model/Transaction.java:53-90 | a record that satisfies the field invariants keeps them through every setter, whether the setter throws or assigns |
| TransactionModel.SettersAgreeWithConstructor | budget-manager/src/main/java/com/example/budgetmanager/model/Transaction.java:28-90 | when the constructor accepts its arguments, calling the setters one by one with the same arguments gives the same record, apart from the id |
| Aggregates.SumConcat | budget-manager/src/main/java/com/example/budgetmanager/service/TransactionService.java:34-36 | a sum over records splits over any concatenation, so how the records are grouped never changes a total |
| Aggregates.BalanceSplitsByKind | budget-manager/src/main/java/com/example/budgetmanager/service/TransactionService.java:35 | when every record has a kind, the signed balance equals the income total minus the expense total |
| Aggregates.UntypedRecordEffect | budget-manager/src/main/java/com/example/budgetmanager/service/TransactionService.java:35 | appending a record with no kind to any records lowers the balance by its amount and leaves the total of each kind unchanged |
| Aggregates.UntypedRecordSkewsBalance | budget-manager/src/main/java/com/example/budgetmanager/service/TransactionService.java:35 | a lone untyped record of amount 5 gives balance −5 while both SQL totals are 0 and absent: a counterexample showing that the split needs every record to have a kind |
| Aggregates.AddTo | budget-manager/src/main/java/com/example/budgetmanager/repository/TransactionRepository.java:20 | adding an expense to the grouped rows adds its category if it is new, adds its amount to that category's row and to the grand total, and keeps one row per category |
| Aggregates.Summarize | budget-manager/src/main/java/com/example/budgetmanager/repository/TransactionRepository.java:20-21 | the summary has one row per category; its categories are exactly those of the expense records; each category's value is the sum of that category's expense amounts; the rows add up to the expense total |
| Aggregates.SummaryRows | budget-manager/src/main/java/com/example/budgetmanager/repository/TransactionRepository.java:20-21 | every row carries the sum of its own category's expenses; a category has a row iff some expense record carries it, so income never contributes |
| Aggregates.SummaryEmptyIffNoExpense | budget-manager/src/main/java/com/example/budgetmanager/repository/TransactionRepository.java:20 | the summary is empty exactly when there is no expense record |
| Repository.Find | budget-manager/src/main/java/com/example/budgetmanager/service/TransactionService.java:26 | the lookup finds a record exactly when one has the id, and what it returns is a stored record with that id |
| Repository.FindById | budget-manager/src/main/java/com/example/budgetmanager/service/TransactionService.java:26 | with unique ids, the lookup returns exactly the stored record carrying the id |
| Repository.ExistsById | budget-manager/src/main/java/com/example/budgetmanager/service/TransactionService.java:40 | the existence check is true iff some stored record has the id |
| Repository.Replace | budget-manager/src/main/java/com/example/budgetmanager/service/TransactionService.java:22 | an update of a stored record changes only the position holding that id and keeps the length |
| Repository.Save | budget-manager/src/main/java/com/example/budgetmanager/service/TransactionService.java:22 | the saved record is the argument with an id; a stored id is updated in place; anything else is appended under the next id; the store's id invariants are kept and the saved record can be found again |
| Repository.RemoveId | budget-manager/src/main/java/com/example/budgetmanager/service/TransactionService.java:41 | after removal no record has the id; exactly the records with other ids remain; an absent id changes nothing |
| Repository.RemoveUnique | budget-manager/src/main/java/com/example/budgetmanager/service/TransactionService.java:41 | with unique ids, removing a present id cuts out exactly that one record, and the others keep their order |
| Repository.DeleteById | budget-manager/src/main/java/com/example/budgetmanager/service/TransactionService.java:41 | the delete removes the id, keeps every other record in order, changes nothing when the id is absent, leaves the id counter alone and keeps the store's invariants |
| Repository.GetTotalRevenue | budget-manager/src/main/java/com/example/budgetmanager/repository/TransactionRepository.java:12-13 | the revenue is absent exactly when there is no income record; otherwise it is the sum of the income amounts |
| Repository.GetTotalExpenses | budget-manager/src/main/java/com/example/budgetmanager/repository/TransactionRepository.java:16-17 | the expense total is absent exactly when there is no expense record; otherwise it is the sum of the expense amounts |
| Repository.GetExpenseCategorySummary | budget-manager/src/main/java/com/example/budgetmanager/repository/TransactionRepository.java:16-21 | the grouped rows have one distinct category each, exactly the expense categories, each holding that category's expense sum; they are empty iff the expense total is absent, and otherwise they add up to it |
| Service.AddTransaction | budget-manager/src/main/java/com/example/budgetmanager/service/TransactionService.java:21-23 | adding performs exactly one save and returns its result; a new record gets an id no stored record had, and reading that id back returns it |
| Service.GetTransactionById | budget-manager/src/main/java/com/example/budgetmanager/service/TransactionService.java:25-27 | the result is the stored record with that id when there is one, and absent otherwise; it is never an error |
| Service.GetAllTransactions | budget-manager/src/main/java/com/example/budgetmanager/service/TransactionService.java:29-31 | the result lists exactly the stored records, in store order |
| Service.GetBalance | budget-manager/src/main/java/com/example/budgetmanager/service/TransactionService.java:33-37 | one pass adds +amount for income and −amount for anything else; an empty store gives 0; when every record has a kind, the result is income total minus expense total |
| Service.DeleteTransaction | budget-manager/src/main/java/com/example/budgetmanager/service/TransactionService.java:39-45 | the result is true iff the id was stored; afterwards no record has the id; a false result leaves the store unchanged; a true result removes only that record and keeps the others in order |
| Service.DeleteTwice | budget-manager/src/main/java/com/example/budgetmanager/service/TransactionService.java:39-45 | deleting the same id a second time returns false |
| Service.BalanceAfterDelete | budget-manager/src/main/java/com/example/budgetmanager/service/TransactionService.java:33-45 | deleting a stored record changes the balance by exactly minus its signed amount |
| Service.BalanceAfterAdd | budget-manager/src/main/java/com/example/budgetmanager/service/TransactionService.java:21-37 | adding a new record changes the balance by exactly its signed amount |
| Service.AddThenDelete | budget-manager/src/main/java/com/example/budgetmanager/service/TransactionService.java:21-45 | adding a new record and then deleting it by its new id succeeds and leaves the original records |
| Service.EmptyLedger | budget-manager/src/main/java/com/example/budgetmanager/service/TransactionService.java:25-45 | on a fresh store: balance 0, no records, both totals absent, an empty summary, nothing found by id, and every delete returns false |
| Service.SalaryAndFood | budget-manager/src/main/java/com/example/budgetmanager/repository/TransactionRepository.java:12-21 | adding an income of 100 and a food expense of 40 to a fresh store gives balance 60, revenue 100, expenses 40, and a single food row of 40 |
| Service.FoodTwice | budget-manager/src/main/java/com/example/budgetmanager/repository/TransactionRepository.java:20-21 | adding two food expenses of 10 and 15 to a fresh store gives one food row of 25 |

## Left out

- The controllers (`TransactionController`, `TransactionsViewController`, `ViewController`, `CustomErrorController`) are left out. They only route requests, bind parameters and fill views. This includes the latest-ten slice on the home page.
- The no-argument constructor and `setId` are left out. The source uses the no-argument constructor in three places besides JPA. The form handler in `ViewController` builds records with it and then calls the setters. The JSON endpoint in `TransactionController` binds request bodies through it, and so does the form handler in `TransactionsViewController`. Binding calls a setter only for fields that are present. So the source can store a record whose amount, category or date is null: the controller test posts a body that has only an amount and a type. Every record here comes from the validating constructor and has non-null fields. The model therefore does not cover these source behaviours:
  - a stored record with a null category or date;
  - a stored record with a null amount, which makes `getBalance` throw a `NullPointerException` when it unboxes the amount;
  - SQL `SUM` skipping a null amount.
- Service.GetAllTransactions returns records in store order. The code sorts nothing, so no "newest date first" order is modelled.
- Floating point is left out. `Double` rounding, NaN (which is non-zero and so passes the amount check), `-0.0` and infinities are not modelled, because amounts are exact reals.
- A null id is left out. Spring's `findById` and `existsById` throw on a null id, and ids here are plain integers.
- JPA `merge` is left out. Repository.Save appends a record that carries an unknown id under a fresh id. Some Hibernate versions throw instead.
- Zero totals are left out. The source never turns an absent total into 0, so the model keeps `Option` results. Their `GetOr(0.0)` is proved equal to the fold.
- Store failures are left out. I/O errors, concurrency and transaction isolation belong to the persistence engine.
- Dates are left out. A `LocalDate` is modelled as a day count, and only its presence is checked.
- Database collation is left out. `GROUP BY t.category` groups categories under the database's collation, which may fold case or trailing spaces. Aggregates.Summarize assumes exact string equality.
- Lone surrogates are left out. A Java string may hold an unpaired UTF-16 surrogate, but a Dafny string has no such value.
- Long overflow is left out. Ids are unbounded integers, so the identity counter never wraps.
