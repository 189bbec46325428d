/**
 * The arithmetic of the expense service: the month range of a date, the
 * monthly total over the stored records, the cap gate, and the values an
 * update works with.
 */
module Ledger {
  import opened Wrappers
  import opened Dates
  import opened Schema

  const MonthlyLimit: int := 10000

  /** Sum of the amounts of `es`. */
  function Total(es: seq<Expense>): int {
    if es == [] then 0 else es[0].amount + Total(es[1..])
  }

  /**
   * The range filter of the cap query: from the first day of `ref`'s month at
   * 00:00 to the last day of that month at 00:00, both ends included. The store
   * compares instants; `InstantOrder` shows that comparing calendar components
   * is the same.
   */
  predicate InMonthRange(x: CalendarDate, ref: CalendarDate) {
    AtOrBefore(StartOfMonth(ref), x) && AtOrBefore(x, EndOfMonth(ref))
  }

  /** The range is exactly the instants between its two ends. */
  lemma InMonthRangeByInstant(x: CalendarDate, ref: CalendarDate)
    ensures InMonthRange(x, ref) <==> Instant(StartOfMonth(ref)) <= Instant(x) <= Instant(EndOfMonth(ref))
  {
    InstantOrder(StartOfMonth(ref), x);
    InstantOrder(x, EndOfMonth(ref));
  }

  /**
   * A date is in the range exactly when it lies in the same calendar month and
   * is not later than midnight on the last day.
   */
  lemma MonthRangeMembership(x: CalendarDate, ref: CalendarDate)
    ensures InMonthRange(x, ref) <==>
      x.year == FullYear(ref.year) && x.month == ref.month &&
      (x.day < DaysInMonth(x.year, x.month) || x.ms == 0)
  {
  }

  /**
   * Dates that no month's range contains: later than midnight on the last day
   * of a month, or in the years 0..99 (the range is then built in 1900..1999).
   */
  lemma NeverCounted(x: CalendarDate)
    requires (x.day == DaysInMonth(x.year, x.month) && x.ms > 0) || 0 <= x.year <= 99
    ensures forall ref: CalendarDate :: !InMonthRange(x, ref)
  {
    forall ref: CalendarDate
      ensures !InMonthRange(x, ref)
    {
      MonthRangeMembership(x, ref);
    }
  }

  /** The records whose date is in the range of `ref`'s month, in store order. */
  function MatchMonth(es: seq<Expense>, ref: CalendarDate): (r: seq<Expense>)
    ensures |r| <= |es|
    ensures forall i :: 0 <= i < |r| ==> InMonthRange(r[i].date, ref)
  {
    if es == [] then []
    else if InMonthRange(es[0].date, ref) then [es[0]] + MatchMonth(es[1..], ref)
    else MatchMonth(es[1..], ref)
  }

  /** The match stage keeps exactly the records in the range. */
  lemma {:induction false} MatchMonthExact(es: seq<Expense>, ref: CalendarDate)
    ensures forall e :: e in MatchMonth(es, ref) <==> e in es && InMonthRange(e.date, ref)
  {
    if es != [] {
      MatchMonthExact(es[1..], ref);
      assert es == [es[0]] + es[1..];
    }
  }

  /** The group stage with a null key: one total when some record matched, no result otherwise. */
  function GroupTotal(matched: seq<Expense>): seq<int> {
    if matched == [] then [] else [Total(matched)]
  }

  /** What `e` adds to the total of `ref`'s month. */
  function Contribution(e: Expense, ref: CalendarDate): int {
    if InMonthRange(e.date, ref) then e.amount else 0
  }

  /** Sum of the amounts of the records in `ref`'s month range. */
  function MonthTotal(es: seq<Expense>, ref: CalendarDate): int {
    Total(MatchMonth(es, ref))
  }

  lemma MonthTotalCons(es: seq<Expense>, ref: CalendarDate)
    requires es != []
    ensures MonthTotal(es, ref) == Contribution(es[0], ref) + MonthTotal(es[1..], ref)
  {
    if InMonthRange(es[0].date, ref) {
      var m := MatchMonth(es[1..], ref);
      assert ([es[0]] + m)[1..] == m;
    }
  }

  /** The total the gate reads: the group's single result, or 0 when the month is empty. */
  function CurrentTotal(es: seq<Expense>, date: CalendarDate): (t: int)
    ensures t == MonthTotal(es, date)
    ensures MatchMonth(es, date) == [] ==> t == 0
  {
    var total := GroupTotal(MatchMonth(es, date));
    if |total| > 0 then total[0] else 0
  }

  /** The cap gate: the month's total plus `newAmount` strictly above the limit. */
  function IsMonthlyLimitExceeded(es: seq<Expense>, newAmount: int, date: CalendarDate): (exceeded: bool)
    ensures exceeded <==> MonthTotal(es, date) + newAmount > MonthlyLimit
    ensures MonthTotal(es, date) + newAmount == MonthlyLimit ==> !exceeded
  {
    CurrentTotal(es, date) + newAmount > MonthlyLimit
  }

  lemma {:induction false} MonthTotalAppend(es: seq<Expense>, e: Expense, ref: CalendarDate)
    ensures MonthTotal(es + [e], ref) == MonthTotal(es, ref) + Contribution(e, ref)
  {
    if es == [] {
      MonthTotalCons([e], ref);
      assert [e][1..] == [];
    } else {
      MonthTotalCons(es + [e], ref);
      assert (es + [e])[1..] == es[1..] + [e];
      MonthTotalAppend(es[1..], e, ref);
      MonthTotalCons(es, ref);
    }
  }

  lemma {:induction false} MonthTotalReplace(es: seq<Expense>, k: nat, e: Expense, ref: CalendarDate)
    requires k < |es|
    ensures MonthTotal(es[k := e], ref) == MonthTotal(es, ref) - Contribution(es[k], ref) + Contribution(e, ref)
  {
    MonthTotalCons(es, ref);
    MonthTotalCons(es[k := e], ref);
    if k > 0 {
      assert es[k := e][1..] == es[1..][k - 1 := e];
      MonthTotalReplace(es[1..], k - 1, e, ref);
    } else {
      assert es[k := e][1..] == es[1..];
    }
  }

  lemma {:induction false} MonthTotalRemove(es: seq<Expense>, k: nat, ref: CalendarDate)
    requires k < |es|
    ensures MonthTotal(es[..k] + es[k + 1..], ref) == MonthTotal(es, ref) - Contribution(es[k], ref)
  {
    MonthTotalCons(es, ref);
    if k > 0 {
      var rest := es[..k] + es[k + 1..];
      MonthTotalCons(rest, ref);
      assert rest[0] == es[0];
      assert rest[1..] == es[1..][..k - 1] + es[1..][k..];
      MonthTotalRemove(es[1..], k - 1, ref);
    } else {
      assert es[..k] + es[k + 1..] == es[1..];
    }
  }

  /**
   * A successful create keeps its own month within the cap, and raises that
   * month's total by exactly its amount, provided its date lies in its own
   * month's range.
   */
  lemma CreateStaysWithinCap(es: seq<Expense>, e: Expense)
    requires !IsMonthlyLimitExceeded(es, e.amount, e.date)
    requires InMonthRange(e.date, e.date)
    ensures MonthTotal(es + [e], e.date) == MonthTotal(es, e.date) + e.amount
    ensures MonthTotal(es + [e], e.date) <= MonthlyLimit
  {
    MonthTotalAppend(es, e, e.date);
  }

  /** The fields an update may carry; an absent field keeps the stored value. */
  datatype ExpensePatch = ExpensePatch(
    title: Option<string>,
    description: Option<string>,
    amount: Option<int>,
    date: Option<CalendarDate>,
    expenseType: Option<ExpenseType>)

  const NoChanges: ExpensePatch := ExpensePatch(None, None, None, None, None)

  /** The amount the gate checks: the supplied one when defined, else the stored one. */
  function EffectiveAmount(e: Expense, p: ExpensePatch): int {
    if p.amount.Some? then p.amount.value else e.amount
  }

  /** The date the gate checks: the supplied one when present, else the stored one. */
  function EffectiveDate(e: Expense, p: ExpensePatch): CalendarDate {
    if p.date.Some? then p.date.value else e.date
  }

  /** The signed change of amount an update is checked with. */
  function UpdateDelta(e: Expense, p: ExpensePatch): (delta: int)
    ensures e.amount + delta == EffectiveAmount(e, p)
    ensures p.amount.None? ==> delta == 0
  {
    EffectiveAmount(e, p) - e.amount
  }

  /** The stored record after the update: each supplied field replaces the stored one. */
  function Merge(e: Expense, p: ExpensePatch): Expense {
    Expense(
      if p.title.Some? then p.title.value else e.title,
      if p.description.Some? then p.description.value else e.description,
      if p.amount.Some? then p.amount.value else e.amount,
      if p.date.Some? then p.date.value else e.date,
      if p.expenseType.Some? then p.expenseType.value else e.expenseType)
  }

  /** The patch that supplies every field of `e`. */
  function FullPatch(e: Expense): ExpensePatch {
    ExpensePatch(Some(e.title), Some(e.description), Some(e.amount), Some(e.date), Some(e.expenseType))
  }

  /**
   * The gate checks the amount and date the record will really have; an empty
   * patch changes nothing; applying a patch twice is applying it once; a full
   * patch replaces the record.
   */
  lemma MergeProperties(e: Expense, p: ExpensePatch, e2: Expense)
    ensures Merge(e, p).amount == EffectiveAmount(e, p)
    ensures Merge(e, p).date == EffectiveDate(e, p)
    ensures Merge(e, NoChanges) == e
    ensures Merge(Merge(e, p), p) == Merge(e, p)
    ensures Merge(e, FullPatch(e2)) == e2
  {
  }

  /**
   * An accepted update of a record that already lies in the range of its new
   * month keeps that month within the cap: the month's total moves by exactly
   * the delta the gate checked.
   */
  lemma UpdateWithinMonthStaysWithinCap(es: seq<Expense>, k: nat, p: ExpensePatch)
    requires k < |es|
    requires !IsMonthlyLimitExceeded(es, UpdateDelta(es[k], p), EffectiveDate(es[k], p))
    requires InMonthRange(es[k].date, EffectiveDate(es[k], p))
    requires InMonthRange(EffectiveDate(es[k], p), EffectiveDate(es[k], p))
    ensures MonthTotal(es[k := Merge(es[k], p)], EffectiveDate(es[k], p))
         == MonthTotal(es, EffectiveDate(es[k], p)) + UpdateDelta(es[k], p)
    ensures MonthTotal(es[k := Merge(es[k], p)], EffectiveDate(es[k], p)) <= MonthlyLimit
  {
    MonthTotalReplace(es, k, Merge(es[k], p), EffectiveDate(es[k], p));
  }

  /**
   * When an update moves a record into a month whose range did not hold it,
   * the month's total grows by the record's whole new amount, while the gate
   * only checked the difference of amounts.
   */
  lemma UpdateIntoOtherMonth(es: seq<Expense>, k: nat, p: ExpensePatch)
    requires k < |es|
    requires !InMonthRange(es[k].date, EffectiveDate(es[k], p))
    requires InMonthRange(EffectiveDate(es[k], p), EffectiveDate(es[k], p))
    ensures MonthTotal(es[k := Merge(es[k], p)], EffectiveDate(es[k], p))
         == MonthTotal(es, EffectiveDate(es[k], p)) + UpdateDelta(es[k], p) + es[k].amount
  {
    MonthTotalReplace(es, k, Merge(es[k], p), EffectiveDate(es[k], p));
  }

  /**
   * A January total of 9000 and a February expense of 5000: moving the February
   * expense to January passes the gate (delta 0) and leaves January at 14000.
   */
  lemma UpdateIntoOtherMonthExceedsCap()
    ensures var jan := Date(2024, 0, 10, 0);
            var es := [Expense("rent", "january", 9000, jan, Rent),
                       Expense("car", "february", 5000, Date(2024, 1, 10, 0), Transport)];
            var p := NoChanges.(date := Some(jan));
            !IsMonthlyLimitExceeded(es, UpdateDelta(es[1], p), EffectiveDate(es[1], p)) &&
            MonthTotal(es[1 := Merge(es[1], p)], jan) == 14000
  {
    var jan := Date(2024, 0, 10, 0);
    var feb := Date(2024, 1, 10, 0);
    var es := [Expense("rent", "january", 9000, jan, Rent), Expense("car", "february", 5000, feb, Transport)];
    var p := NoChanges.(date := Some(jan));
    MonthRangeMembership(jan, jan);
    MonthRangeMembership(feb, jan);
    MonthTotalCons(es, jan);
    MonthTotalCons(es[1..], jan);
    var es' := es[1 := Merge(es[1], p)];
    MonthTotalCons(es', jan);
    MonthTotalCons(es'[1..], jan);
  }

  /**
   * With 9000 already spent in a month, a further 1500 is refused and a
   * further 900 accepted, leaving the month at 9900.
   */
  lemma CapExample()
    ensures var d := Date(2024, 4, 15, 0);
            var es := [Expense("rent", "may", 9000, Date(2024, 4, 1, 0), Rent)];
            IsMonthlyLimitExceeded(es, 1500, d) &&
            !IsMonthlyLimitExceeded(es, 900, d) &&
            MonthTotal(es + [Expense("food", "may", 900, d, Food)], d) == 9900
  {
    var d := Date(2024, 4, 15, 0);
    var es := [Expense("rent", "may", 9000, Date(2024, 4, 1, 0), Rent)];
    MonthRangeMembership(Date(2024, 4, 1, 0), d);
    MonthRangeMembership(d, d);
    MonthTotalCons(es, d);
    assert es[1..] == [];
    MonthTotalAppend(es, Expense("food", "may", 900, d, Food), d);
  }
}
