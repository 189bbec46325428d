/**
 * The create payload's field constraints. A request body is a record of loosely
 * typed values (after the `date` field has been converted to a Date object);
 * validation collects every violated constraint and, when there is none, yields
 * the typed expense.
 */
module Validation {
  import opened Wrappers
  import opened Dates
  import opened Schema

  /** A JavaScript value as it can arrive in a field of the body. */
  datatype Value =
    | Undefined
    | Null
    | Str(s: string)
    | Num(n: int)         // a finite number
    | NonFinite           // NaN or an infinity
    | Bool(b: bool)
    | DateObject(d: Date) // a Date; components that are not WellFormed stand for an Invalid Date
    | Obj                 // any other object or array

  datatype Body = Body(title: Value, description: Value, amount: Value, date: Value, expenseType: Value, user: Value)

  datatype Field = TitleField | DescriptionField | AmountField | DateField | TypeField | UserField

  /** The validation decorators applied to the payload's fields. */
  datatype Rule = IsNotEmpty | IsString | IsNumber | IsDate | IsEnum | IsEmpty

  datatype Violation = Violation(field: Field, rule: Rule)

  const TypeMessage: string := "Please select a correct expense type!"
  const UserMessage: string := "You cannot pass user Id"

  /** `IsEmpty`: the value is `''`, `null` or `undefined`. */
  predicate Empty(v: Value) {
    v == Undefined || v == Null || v == Str("")
  }

  predicate IsEnumValue(v: Value) {
    v.Str? && ParseType(v.s).Some?
  }

  function Check(ok: bool, f: Field, r: Rule): set<Violation> {
    if ok then {} else {Violation(f, r)}
  }

  /** The constraints of field `f` that `b` violates; every decorator of a field is checked. */
  function FieldViolations(b: Body, f: Field): set<Violation> {
    match f
    case TitleField => Check(!Empty(b.title), f, IsNotEmpty) + Check(b.title.Str?, f, IsString)
    case DescriptionField => Check(!Empty(b.description), f, IsNotEmpty) + Check(b.description.Str?, f, IsString)
    case AmountField => Check(!Empty(b.amount), f, IsNotEmpty) + Check(b.amount.Num?, f, IsNumber)
    case DateField => Check(!Empty(b.date), f, IsNotEmpty) + Check(b.date.DateObject? && WellFormed(b.date.d), f, IsDate)
    case TypeField => Check(!Empty(b.expenseType), f, IsNotEmpty) + Check(IsEnumValue(b.expenseType), f, IsEnum)
    case UserField => Check(Empty(b.user), f, IsEmpty)
  }

  /** Every constraint of the payload that `b` violates. */
  function Violations(b: Body): set<Violation> {
    FieldViolations(b, TitleField) + FieldViolations(b, DescriptionField) + FieldViolations(b, AmountField) +
    FieldViolations(b, DateField) + FieldViolations(b, TypeField) + FieldViolations(b, UserField)
  }

  /** The message a violation is reported with, where the payload sets one of its own. */
  function Message(v: Violation): (m: Option<string>)
    ensures m.Some? <==> v in {Violation(TypeField, IsEnum), Violation(UserField, IsEmpty)}
  {
    match v
    case Violation(TypeField, IsEnum) => Some(TypeMessage)
    case Violation(UserField, IsEmpty) => Some(UserMessage)
    case _ => None
  }

  /** Each field's constraints, one field at a time. */
  lemma FieldRules(b: Body)
    ensures FieldViolations(b, TitleField) == {} <==> b.title.Str? && b.title.s != ""
    ensures FieldViolations(b, DescriptionField) == {} <==> b.description.Str? && b.description.s != ""
    ensures FieldViolations(b, AmountField) == {} <==> b.amount.Num?
    ensures FieldViolations(b, DateField) == {} <==> b.date.DateObject? && WellFormed(b.date.d)
    ensures FieldViolations(b, TypeField) == {} <==> b.expenseType.Str? && ParseType(b.expenseType.s).Some?
    ensures FieldViolations(b, UserField) == {} <==> Empty(b.user)
  {
  }

  /** A type outside the enumeration is reported with the payload's own message. */
  lemma BadTypeMessage(b: Body)
    requires !(b.expenseType.Str? && ParseType(b.expenseType.s).Some?)
    ensures exists v :: v in Violations(b) && Message(v) == Some(TypeMessage)
  {
    assert Violation(TypeField, IsEnum) in Violations(b);
  }

  /** A user field that is set is reported with the payload's own message. */
  lemma UserGivenMessage(b: Body)
    requires !Empty(b.user)
    ensures exists v :: v in Violations(b) && Message(v) == Some(UserMessage)
  {
    assert Violation(UserField, IsEmpty) in Violations(b);
  }

  /** The payload is accepted exactly when no constraint is violated; the expense is read off the fields. */
  function Validate(b: Body): (r: Result<Expense, set<Violation>>)
    ensures r.Success? <==>
      b.title.Str? && b.title.s != "" &&
      b.description.Str? && b.description.s != "" &&
      b.amount.Num? &&
      b.date.DateObject? && WellFormed(b.date.d) &&
      b.expenseType.Str? && ParseType(b.expenseType.s).Some? &&
      Empty(b.user)
    ensures r.Success? ==> Encode(r.value) == b.(user := Undefined)
    ensures r.Failure? ==> r.error != {}
  {
    FieldRules(b);
    if Violations(b) == {} then
      Success(Expense(b.title.s, b.description.s, b.amount.n, b.date.d,
                      ParseType(b.expenseType.s).value))
    else
      Failure(Violations(b))
  }

  /** The body a client sends for an expense, without a user. */
  function Encode(e: Expense): Body {
    Body(Str(e.title), Str(e.description), Num(e.amount), DateObject(e.date), Str(TypeName(e.expenseType)), Undefined)
  }

  /** Every payload the validator accepts yields a record the schema stores. */
  lemma ValidatedIsStorable(b: Body)
    ensures Validate(b).Success? ==> Storable(Validate(b).value)
  {
  }

  /** Every expense with a non-empty title and description passes validation unchanged. */
  lemma ValidateEncode(e: Expense)
    requires e.title != "" && e.description != ""
    ensures Validate(Encode(e)) == Success(e)
  {
    ParseTypeName(e.expenseType);
  }
}
