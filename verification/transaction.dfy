/** The `Transaction` entity: an immutable record, the validating constructor
    and the setters, each of which validates before it assigns. */
module TransactionModel {
  import opened Wrappers
  import opened JavaString

  /** The two transaction kinds. The enum, the balance computation and the
      aggregate queries name them differently; here one pair is used throughout. */
  datatype TxType = Income | Expense

  /** A calendar date (`LocalDate`), as a day count; only its presence is
      ever checked. */
  datatype Date = Date(epochDay: int)

  /** A ledger record. `id` is absent until the store assigns one; `kind` may
      be absent because neither the constructor nor `setType` rejects a null
      type. `amount`, `category` and `date` are never null once validated. */
  datatype Transaction = Transaction(
    id: Option<int>,
    amount: real,
    category: string,
    description: Option<string>,
    date: Date,
    kind: Option<TxType>)

  /** The `IllegalArgumentException` every validation failure raises. */
  datatype ValidationError = InvalidArgument(message: string)

  const AmountMessage: string := "The amout can't be 0 or null."
  const CategoryMessage: string := "The category can't be null or empty."
  const DateMessage: string := "The date can't be null."

  /** The field invariants the validators establish. */
  predicate Valid(t: Transaction) {
    t.amount != 0.0 && !IsBlank(t.category)
  }

  /** An amount passes when present and non-zero; its sign and the
      transaction's kind play no part. */
  predicate AmountAccepted(amount: Option<real>) {
    amount.Some? && amount.value != 0.0
  }

  /** A category passes when present and not blank. */
  predicate CategoryAccepted(category: Option<string>) {
    category.Some? && !IsBlank(category.value)
  }

  function ValidateAmount(amount: Option<real>, kind: Option<TxType>): (r: Option<ValidationError>)
    ensures r.None? <==> AmountAccepted(amount)
    ensures r.Some? ==> r.value == InvalidArgument(AmountMessage)
  {
    if amount.None? || amount.value == 0.0 then Some(InvalidArgument(AmountMessage)) else None
  }

  function ValidateCategory(category: Option<string>): (r: Option<ValidationError>)
    ensures r.None? <==> CategoryAccepted(category)
    ensures r.Some? ==> r.value == InvalidArgument(CategoryMessage)
  {
    if category.None? || Trim(category.value) == [] then Some(InvalidArgument(CategoryMessage)) else None
  }

  function ValidateDate(date: Option<Date>): (r: Option<ValidationError>)
    ensures r.None? <==> date.Some?
    ensures r.Some? ==> r.value == InvalidArgument(DateMessage)
  {
    if date.None? then Some(InvalidArgument(DateMessage)) else None
  }

  /** The validating constructor: the checks run in the order amount, category,
      date, and the first failing one is reported; on success every argument
      is stored as given and the id stays unset. */
  function NewTransaction(amount: Option<real>, category: Option<string>, description: Option<string>,
                          date: Option<Date>, kind: Option<TxType>): (r: Result<Transaction, ValidationError>)
    ensures r.Success? <==> AmountAccepted(amount) && CategoryAccepted(category) && date.Some?
    ensures !AmountAccepted(amount) ==> r == Failure(InvalidArgument(AmountMessage))
    ensures AmountAccepted(amount) && !CategoryAccepted(category) ==> r == Failure(InvalidArgument(CategoryMessage))
    ensures AmountAccepted(amount) && CategoryAccepted(category) && date.None? ==> r == Failure(InvalidArgument(DateMessage))
    ensures r.Success? ==> r.value == Transaction(None, amount.value, category.value, description, date.value, kind)
    ensures r.Success? ==> Valid(r.value) && r.value.id.None?
  {
    var amountError := ValidateAmount(amount, kind);
    if amountError.Some? then Failure(amountError.value) else
    var categoryError := ValidateCategory(category);
    if categoryError.Some? then Failure(categoryError.value) else
    var dateError := ValidateDate(date);
    if dateError.Some? then Failure(dateError.value) else
    Success(Transaction(None, amount.value, category.value, description, date.value, kind))
  }

  /** The state of a record after a setter call, and the exception the call
      threw, if any. */
  datatype Assignment = Assignment(record: Transaction, thrown: Option<ValidationError>)

  function SetAmount(t: Transaction, amount: Option<real>): (r: Assignment)
    ensures r.thrown.Some? <==> !AmountAccepted(amount)
    ensures r.thrown.Some? ==> r.record == t && r.thrown.value == InvalidArgument(AmountMessage)
    ensures r.thrown.None? ==> r.record == t.(amount := amount.value)
  {
    var error := ValidateAmount(amount, t.kind);
    if error.Some? then Assignment(t, error) else Assignment(t.(amount := amount.value), None)
  }

  function SetCategory(t: Transaction, category: Option<string>): (r: Assignment)
    ensures r.thrown.Some? <==> !CategoryAccepted(category)
    ensures r.thrown.Some? ==> r.record == t && r.thrown.value == InvalidArgument(CategoryMessage)
    ensures r.thrown.None? ==> r.record == t.(category := category.value)
  {
    var error := ValidateCategory(category);
    if error.Some? then Assignment(t, error) else Assignment(t.(category := category.value), None)
  }

  function SetDate(t: Transaction, date: Option<Date>): (r: Assignment)
    ensures r.thrown.Some? <==> date.None?
    ensures r.thrown.Some? ==> r.record == t && r.thrown.value == InvalidArgument(DateMessage)
    ensures r.thrown.None? ==> r.record == t.(date := date.value)
  {
    var error := ValidateDate(date);
    if error.Some? then Assignment(t, error) else Assignment(t.(date := date.value), None)
  }

  /** `setDescription` accepts anything, null included, and touches no other field. */
  function SetDescription(t: Transaction, description: Option<string>): (r: Transaction)
    ensures r.description == description
    ensures r.id == t.id && r.amount == t.amount && r.category == t.category
    ensures r.date == t.date && r.kind == t.kind
  {
    t.(description := description)
  }

  /** `setType` accepts anything, null included, and touches no other field. */
  function SetType(t: Transaction, kind: Option<TxType>): (r: Transaction)
    ensures r.kind == kind
    ensures r.id == t.id && r.amount == t.amount && r.category == t.category
    ensures r.date == t.date && r.description == t.description
  {
    t.(kind := kind)
  }

  /** Amount validation looks at neither the sign nor the kind: a negative
      amount passes exactly as its positive counterpart does, whatever the kind. */
  lemma AmountValidationIgnoresSignAndKind(a: real, k1: Option<TxType>, k2: Option<TxType>)
    requires a != 0.0
    ensures ValidateAmount(Some(a), k1) == ValidateAmount(Some(-a), k2) == None
  {
  }

  /** A record that satisfies the field invariants keeps them through every
      setter, whether the setter throws or assigns. */
  lemma SettersPreserveValid(t: Transaction, amount: Option<real>, category: Option<string>,
                             date: Option<Date>, description: Option<string>, kind: Option<TxType>)
    requires Valid(t)
    ensures Valid(SetAmount(t, amount).record)
    ensures Valid(SetCategory(t, category).record)
    ensures Valid(SetDate(t, date).record)
    ensures Valid(SetDescription(t, description))
    ensures Valid(SetType(t, kind))
  {
  }

  /** Building a record field by field through the setters, starting from any
      record, gives the constructor's result whenever the constructor
      succeeds (up to the id, which the constructor leaves unset). */
  lemma SettersAgreeWithConstructor(t: Transaction, amount: Option<real>, category: Option<string>,
                                    description: Option<string>, date: Option<Date>, kind: Option<TxType>)
    requires AmountAccepted(amount) && CategoryAccepted(category) && date.Some?
    ensures
      var a := SetAmount(t, amount).record;
      var c := SetCategory(a, category).record;
      var d := SetDate(c, date).record;
      SetType(SetDescription(d, description), kind).(id := None)
        == NewTransaction(amount, category, description, date, kind).value
  {
  }
}
