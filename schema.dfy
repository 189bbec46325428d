/** The expense record and its category enumeration. */
module Schema {
  import opened Wrappers
  import opened Dates
  import opened Sequences

  /** The seven expense categories. */
  datatype ExpenseType = Food | Rent | Transport | Utilities | Subscriptions | Entertainment | Other

  const AllTypes: seq<ExpenseType> := [Food, Rent, Transport, Utilities, Subscriptions, Entertainment, Other]

  /** The string each category is stored and sent as. */
  function TypeName(t: ExpenseType): string {
    match t
    case Food => "Food"
    case Rent => "Rent"
    case Transport => "Transport"
    case Utilities => "Utilities"
    case Subscriptions => "Subscriptions"
    case Entertainment => "Entertainment"
    case Other => "Other"
  }

  /** The category whose string is `s`, if any: exactly the seven enum values are accepted. */
  function ParseType(s: string): (r: Option<ExpenseType>)
    ensures r.Some? ==> TypeName(r.value) == s
    ensures r.None? <==> forall t: ExpenseType :: TypeName(t) != s
  {
    if s == "Food" then Some(Food)
    else if s == "Rent" then Some(Rent)
    else if s == "Transport" then Some(Transport)
    else if s == "Utilities" then Some(Utilities)
    else if s == "Subscriptions" then Some(Subscriptions)
    else if s == "Entertainment" then Some(Entertainment)
    else if s == "Other" then Some(Other)
    else None
  }

  lemma ParseTypeName(t: ExpenseType)
    ensures ParseType(TypeName(t)) == Some(t)
  {
  }

  /** `AllTypes` lists every category exactly once. */
  lemma AllTypesListsEachOnce(t: ExpenseType)
    ensures t in AllTypes
    ensures Distinct(AllTypes)
  {
  }

  /** A stored expense: every field is required; `expenseType` is the schema's `type`. */
  datatype Expense = Expense(
    title: string,
    description: string,
    amount: int,
    date: CalendarDate,
    expenseType: ExpenseType)

  /** The schema's `required` check on save: a required string field must not be empty. */
  predicate Storable(e: Expense) {
    e.title != "" && e.description != ""
  }
}
