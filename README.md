# Expense ledger with a monthly cap

A Dafny model of the expense service of a personal-finance backend, and of
the validation rules for a new expense. The service keeps a collection of
expense records. It lists them, creates one, updates or removes one by id,
and summarises the amounts per category. Every create and update must pass a
monthly cap. The cap adds up the amounts of all stored expenses in the
calendar month of the date involved, adds the signed change the operation
would make, and refuses when the result is strictly above 10000.

Modules, one file each:

- `Wrappers` (`wrappers.dfy`): `Option` and `Result`. An operation that
  throws returns `Failure` with the exception and its message.
- `Dates` (`dates.dfy`): a date as local calendar components
  (year, 0-based month, day, millisecond of the day). The `CalendarDate`
  subset type holds only normalised components, which is what a JavaScript
  Date always has. It also models the constructor `new Date(y, m, d)`:
  months and days out of range carry over, and years 0..99 are read as
  1900..1999. `Instant` gives milliseconds since 1970-01-01 local time.
- `Schema` (`schema.dfy`): the seven expense categories, their strings, and
  the expense record.
- `Validation` (`validation.dfy`): the create payload's field rules. A body
  is a record of loosely typed JavaScript values, taken after the `date` field
  has been converted to a Date. Validation collects every rule that fails. If
  none fails, it yields the typed expense.
- `Ledger` (`ledger.dfy`): the month range, the monthly total, the cap gate,
  the values an update works with, and lemmas about how each operation moves
  a month's total.
- `TypeStats` (`type_stats.dfy`): the per-category summary.
- `ObjectIds` (`object_ids.dfy`): how the store checks and reads an id
  string. The check counts length in UTF-16 code units, as JavaScript does.
  The string denotes 12 bytes: 24 hexadecimal digits in either case, or 12
  one-byte characters. A record is kept under the lower-case hexadecimal
  spelling of its bytes. Every lookup goes through that key.
- `Service` (`service.dfy`): the class `ExpensesService`. Its state is a map
  from key to record plus the keys in insertion order. That order is the order
  in which the collection lists its records. `Create`, `Update` and `Remove`
  change this state. `FindAll` reads it.

Points where the code's behaviour differs from what a reader might expect:

- Nothing is scoped per user. The record has no owner field. The cap sum,
  the listing, removal and the summary all run over every stored expense.
- A month is often taken to end at 23:59:59.999 on its last day.
  This code ends it at 00:00 on the last day. So an expense later than
  midnight on a month's last day falls in no month's range (`Ledger.NeverCounted`).
- The update gate checks `newAmount - existing.amount` against the month of
  the new date. This holds even when the stored record lies in a different
  month. Moving an expense into a month therefore adds its whole amount to
  that month, while the gate checked only the difference
  (`Ledger.UpdateIntoOtherMonth`). A concrete instance ends with a January
  total of 14000 (`Ledger.UpdateIntoOtherMonthExceedsCap`). When the record
  was already in that month's range, the cap holds
  (`Ledger.UpdateWithinMonthStaysWithinCap`).
- There is no operation that reports the current month's total. The total
  exists only inside the cap check.

## Model

| member | source | states |
|---|---|---|
| `Dates.DaysInMonth` | src/expenses/expenses.service.ts:113 | Month lengths are 28..31. February has 29 days exactly in a leap year and 28 exactly otherwise. |
| `Dates.YearLengthIsSumOfMonths` | src/expenses/expenses.service.ts:113 | The twelve month lengths add up to 366 in a leap year and 365 otherwise. This checks the month table against the year length. |
| `Dates.NormalizeDay` | src/expenses/expenses.service.ts:112-113 | A day inside the month gives exactly that date at midnight. |
| `Dates.NormalizeDayNumber` | src/expenses/expenses.service.ts:112-113 | For any integer day, including 0 and negatives, the normalised date is `d - 1` days after the first of the given month. Overflow carries across months and years without gaining or losing a day. |
| `Dates.LocalDate` | src/expenses/expenses.service.ts:112-113 | `new Date(y, m, d)` is at midnight. In-range arguments give exactly that calendar date. |
| `Dates.StartOfMonth` | src/expenses/expenses.service.ts:112 | The range start is day 1 of the date's month at 00:00. |
| `Dates.EndOfMonth` | src/expenses/expenses.service.ts:113 | `new Date(y, m + 1, 0)` is the last day of month `m` at 00:00. This holds across the December-to-January carry. |
| `Dates.InstantOrder` | src/expenses/expenses.service.ts:116 | Comparing instants, as the store does, gives the same answer as comparing calendar components. |
| `Ledger.InMonthRangeByInstant` | src/expenses/expenses.service.ts:112-116 | A date is in the range exactly when its instant lies between the two ends. Both ends are included. |
| `Ledger.MonthRangeMembership` | src/expenses/expenses.service.ts:112-116 | A date is in the range exactly when its year and month match and it is not later than 00:00 on the last day. Both directions are proved. |
| `Ledger.NeverCounted` | src/expenses/expenses.service.ts:112-118 | No month's range contains a date later than midnight on a last day, or a date in years 0..99. |
| `Ledger.MatchMonthExact` | src/expenses/expenses.service.ts:116 | The match stage keeps a record exactly when it is stored and its date is in the range. |
| `Ledger.CurrentTotal` | src/expenses/expenses.service.ts:115-120 | The total the gate reads is the month total. It is 0 when nothing matched. |
| `Ledger.IsMonthlyLimitExceeded` | src/expenses/expenses.service.ts:106-123 | Exceeded exactly when month total plus the signed amount is strictly above 10000. A resulting total of exactly 10000 passes. |
| `Ledger.MonthTotalAppend` | src/expenses/expenses.service.ts:31-33 | Storing a record adds its amount to a month's total exactly when its date is in that month's range. |
| `Ledger.MonthTotalReplace` | src/expenses/expenses.service.ts:71-73 | Replacing a record changes a month's total by the new record's share minus the old one's. |
| `Ledger.MonthTotalRemove` | src/expenses/expenses.service.ts:77-78 | Deleting a record lowers a month's total by that record's share. |
| `Ledger.CreateStaysWithinCap` | src/expenses/expenses.service.ts:24-34 | After a create passes the gate, its month's total rises by exactly the new amount and is at most 10000, provided the new date lies in its own month's range. |
| `Ledger.UpdateDelta` | src/expenses/expenses.service.ts:53-64 | The stored amount plus the delta is the effective amount. With no amount supplied the delta is 0. |
| `Ledger.MergeProperties` | src/expenses/expenses.service.ts:53-73 | The record written has exactly the amount and date the gate checked. An empty patch changes nothing. Applying a patch twice equals applying it once. A full patch replaces the record. |
| `Ledger.UpdateWithinMonthStaysWithinCap` | src/expenses/expenses.service.ts:52-69 | An update that passes the gate, on a record already in the new month's range, moves that month's total by exactly the delta. The total stays at most 10000. |
| `Ledger.UpdateIntoOtherMonth` | src/expenses/expenses.service.ts:52-69 | Moving a record into a month that did not hold it raises that month's total by the checked delta plus the old amount. |
| `Ledger.UpdateIntoOtherMonthExceedsCap` | src/expenses/expenses.service.ts:52-69 | A January total of 9000 plus a February expense of 5000 moved to January passes the gate. January then totals 14000. |
| `Ledger.CapExample` | src/expenses/expenses.service.ts:106-123 | With 9000 spent, adding 1500 is refused and adding 900 is accepted, leaving 9900. |
| `TypeStats.GroupByCorrect` | src/expenses/expenses.service.ts:86-92 | Grouping gives one entry per occurring category and none for absent ones. Each entry holds that category's sum. The entries add up to the per-category sums. |
| `TypeStats.TotalIsSumOfTypeSums` | src/expenses/expenses.service.ts:88-91 | The seven per-category sums add up to the sum of all amounts. |
| `TypeStats.InsertDescSorted` | src/expenses/expenses.service.ts:100-102 | Inserting into a list sorted by descending total keeps it sorted. |
| `TypeStats.SortDesc` | src/expenses/expenses.service.ts:100-102 | Sorting gives a permutation of its input, ordered by total, largest first. |
| `TypeStats.SortDescCounts` | src/expenses/expenses.service.ts:100-102 | Sorting keeps each category's number of entries and the sum of the totals. |
| `TypeStats.ExpensesByType` | src/expenses/expenses.service.ts:85-104 | Each occurring category appears exactly once and absent ones never. Each entry's total is that category's sum. Totals do not increase along the list. All entries add up to the sum of all stored amounts. |
| `TypeStats.ByTypeExample` | src/expenses/expenses.service.ts:85-104 | Food 100, Food 50 and Rent 200 summarise to Rent 200, then Food 150. |
| `Schema.ParseType` | src/expenses/schemas/expense.schema.ts:5-13 | A string is accepted exactly when it is one of the seven category strings, and then it maps to that category. |
| `Schema.ParseTypeName` | src/expenses/schemas/expense.schema.ts:5-13 | Every category's string parses back to that category. |
| `Schema.AllTypesListsEachOnce` | src/expenses/schemas/expense.schema.ts:5-13 | The category list holds every category exactly once. |
| `Validation.FieldRules` | src/expenses/dto/create-expense.dto.ts:13-37 | Each field has no violation exactly when: title and description are non-empty strings, amount is a finite number, date is a valid Date, type is one of the seven strings, and user is `''`, `null` or absent. |
| `Validation.Validate` | src/expenses/dto/create-expense.dto.ts:13-37 | A body is accepted exactly when all six field rules hold, and the expense is read off its fields. A rejection carries at least one violation. |
| `Validation.Message` | src/expenses/dto/create-expense.dto.ts:31-36 | Only the type rule and the user rule carry messages of their own. |
| `Validation.BadTypeMessage` | src/expenses/dto/create-expense.dto.ts:31-33 | A type outside the enumeration is reported as 'Please select a correct expense type!'. |
| `Validation.UserGivenMessage` | src/expenses/dto/create-expense.dto.ts:35-36 | A user field that is set is reported as 'You cannot pass user Id'. |
| `Validation.ValidateEncode` | src/expenses/dto/create-expense.dto.ts:13-37 | The body sent for any expense with a non-empty title and description validates back to that same expense. |
| `Validation.ValidatedIsStorable` | src/expenses/schemas/expense.schema.ts:19-23 | Every expense the validator accepts has a non-empty title and description, so the schema's `required` check on save accepts it. |
| `ObjectIds.HexOfRoundTrip` | src/expenses/expenses.service.ts:46 | Spelling any byte sequence as lower-case hexadecimal and reading the digit pairs back gives the same bytes. |
| `ObjectIds.HexOfPairValues` | src/expenses/expenses.service.ts:46 | Reading any even-length hexadecimal string as bytes and spelling them again gives the string in lower case. |
| `ObjectIds.KeyOfHexId` | src/expenses/expenses.service.ts:46 | A 24-digit id names the record kept under that id in lower case. Upper- and lower-case digits find the same record. |
| `ObjectIds.KeyOfKey` | src/expenses/expenses.service.ts:46 | A stored key, used as an id, names its own record. |
| `ObjectIds.SameRecord` | src/expenses/expenses.service.ts:46 | Two castable id strings name the same record exactly when they denote the same 12 bytes. |
| `ObjectIds.Utf16Length` | src/expenses/expenses.service.ts:40 | The JavaScript length of a string lies between its character count and twice that. It equals the character count exactly when no character is above U+FFFF. |
| `ObjectIds.CastableIsValid` | src/expenses/expenses.service.ts:40-46 | Every id the store can cast passes the validity check. So an id that fails the check is refused before any lookup. |
| `ObjectIds.EmojiIdExample` | src/expenses/expenses.service.ts:40-44 | Eleven letters followed by an emoji have JavaScript length 13, so the check refuses them. |
| `ObjectIds.AccentedIdExample` | src/expenses/expenses.service.ts:40-46 | Eleven letters followed by an accented letter pass the check, because their JavaScript length is 12. The cast then fails, because they take 13 UTF-8 bytes. |
| `Service.CollectAt` | src/expenses/expenses.service.ts:20-22 | Position `i` of the listing holds the record stored under the `i`-th id. |
| `Service.CollectListsStore` | src/expenses/expenses.service.ts:20-22 | Given the store invariant, the listing has one entry per stored record. Every stored record appears in it, and every entry is a stored record. |
| `Service.StoredTypes` | src/expenses/expenses.service.ts:86-92 | A category occurs in the listing exactly when some stored record has it. |
| `Service.CollectAppend` | src/expenses/expenses.service.ts:31-33 | Storing a record under a new id appends it to the listing. |
| `Service.CollectUpdate` | src/expenses/expenses.service.ts:71-73 | Updating a record replaces it in place in the listing. |
| `Service.CollectRemove` | src/expenses/expenses.service.ts:77-78 | Deleting a record removes exactly its position from the listing. |
| `Service.ConsistentAppend` | src/expenses/expenses.service.ts:31-33 | Storing under a fresh key keeps the store invariant. |
| `Service.ConsistentRemove` | src/expenses/expenses.service.ts:77-78 | Deleting a record and its id keeps the store invariant. |
| `Service.ExpensesService.constructor` | src/expenses/expenses.service.ts:16-18 | The service works over the collection it is given, which may already hold records. That collection must meet the store invariant. |
| `Service.ExpensesService.FindAll` | src/expenses/expenses.service.ts:20-22 | The listing has one entry per id in the collection's order. |
| `Service.ExpensesService.Create` | src/expenses/expenses.service.ts:24-34 | If the cap gate fires for the new amount and date, it fails with 'Monthly expense limit exceeded.'. Otherwise, if the record has an empty title or description, the save is rejected. It fails exactly in these two cases, and every failure changes nothing. Otherwise it stores the expense under the fresh key, appends it to the listing and returns it. |
| `Service.ExpensesService.Update` | src/expenses/expenses.service.ts:36-75 | An id failing the validity check fails with 'Please enter correct id.'. An id that passes it but cannot be cast makes the lookup fail. An id whose key is not stored fails as not found. Otherwise it fails with the update limit message exactly when the gate fires for the delta and the effective date. Every failure changes nothing. On success only the record under the id's key is replaced, by the merge of the supplied fields, in place in the listing, and is returned. |
| `Service.ExpensesService.Remove` | src/expenses/expenses.service.ts:77-83 | An id that cannot be cast makes the deletion fail. Otherwise it succeeds exactly when the id's key is stored. It then deletes only that record and its place in the listing, and answers 'Expense deleted successfully'. Otherwise it fails as not found. Every failure changes nothing. |
| `Service.ExpensesService.GetExpensesByType` | src/expenses/expenses.service.ts:85-104 | Over the current store: one entry per category some stored record has, and none for the others. Totals do not increase along the list. Each entry holds that category's sum, and all entries add up to the sum of all stored amounts. |

## Left out

- Service.ExpensesService.Update: the store does not run the schema's checks on an update by default, so an update may write an empty title or description. The model does the same and promises nothing about `Storable` after an update.
- Service.ExpensesService.FindAll: its own contract gives only the length of the listing. What the listing contains is stated by `Service.CollectAt` and `Service.CollectListsStore`, which keep the costly facts out of the methods' proofs.
- Service.ExpensesService.Create: takes an already-typed expense. The request pipeline that runs `Validation.Validate` before the service is not part of this model. `Validation.ValidatedIsStorable` shows that whatever passes that validation also passes the schema's check on save.
- Persistence is an in-memory map. Every operation is one atomic step, so the async calls and the read-then-decide race between concurrent creates or updates are not modelled.
- The collection's natural order is taken to be insertion order. An update keeps a record's place.
- Store-assigned ids are a parameter of `Create`, required to be a fresh key: 24 lower-case hexadecimal digits.
- The `isValidObjectId` check is modelled for strings only, with the rules of Mongoose 6 over version 4 of the `bson` package. The check accepts 24 hexadecimal digits, or any string whose JavaScript length (UTF-16 code units) is 12. The cast takes such a 12-unit string as its UTF-8 bytes and fails unless there are exactly 12. Later `bson` versions reject 12-character strings in both places. That is not modelled.
- The store's cast error and its validation error on save are modelled without their messages. The framework answers both with a generic server error.
- The `createdAt`/`updatedAt` timestamps and the logging call in the cap check are not modelled.
- Amounts are integers, not IEEE doubles. Rounding and fractional amounts are not modelled.
- Dates are local calendar components. Time zones, and the Date object's limit of about 275000 years either side of 1970, are not modelled.
- Converting a string in the request into a Date is not modelled. The body is taken after that conversion, with an unparsable date standing as an invalid Date.
- The library's default messages for the rules without a message of their own are not modelled. Only which rule failed is kept.
- The update payload's own class (`update-expense.dto copy.ts`) is not part of this model. A patch is modelled as optional, already-typed fields, so `null` values in an update are not modelled.
- The order of categories with equal totals is left open by the store's sort. The model places them in the enumeration's order.
- Authentication (`src/auth/auth.service.ts`), the controller's routing and guards, and module wiring are left out. They are calls into hashing, token and framework code.
