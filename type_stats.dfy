/**
 * The by-type summary: the stored records grouped by category, each group's
 * amounts summed, the groups ordered by their totals from largest to smallest.
 */
module TypeStats {
  import opened Schema
  import opened Ledger
  import opened Sequences

  datatype TypeTotal = TypeTotal(expenseType: ExpenseType, totalAmount: int)

  /** Some record of `es` has category `t`. */
  predicate HasType(es: seq<Expense>, t: ExpenseType) {
    es != [] && (es[0].expenseType == t || HasType(es[1..], t))
  }

  lemma {:induction false} HasTypeIff(es: seq<Expense>, t: ExpenseType)
    ensures HasType(es, t) <==> exists i :: 0 <= i < |es| && es[i].expenseType == t
  {
    if es != [] {
      HasTypeIff(es[1..], t);
      if exists i :: 0 <= i < |es| && es[i].expenseType == t {
        var i :| 0 <= i < |es| && es[i].expenseType == t;
        if i > 0 {
          assert es[1..][i - 1].expenseType == t;
        }
      }
    }
  }

  /** Sum of the amounts of the records of `es` with category `t`. */
  function TypeSum(es: seq<Expense>, t: ExpenseType): int {
    if es == [] then 0
    else (if es[0].expenseType == t then es[0].amount else 0) + TypeSum(es[1..], t)
  }

  lemma {:induction false} TypeSumAbsent(es: seq<Expense>, t: ExpenseType)
    requires !HasType(es, t)
    ensures TypeSum(es, t) == 0
  {
    if es != [] {
      TypeSumAbsent(es[1..], t);
    }
  }

  /** One entry for each category of `ts` that occurs in `es`, in the order of `ts`. */
  function GroupBy(es: seq<Expense>, ts: seq<ExpenseType>): seq<TypeTotal> {
    if ts == [] then []
    else (if HasType(es, ts[0]) then [TypeTotal(ts[0], TypeSum(es, ts[0]))] else []) + GroupBy(es, ts[1..])
  }

  /** Number of entries for category `t`. */
  function CountType(s: seq<TypeTotal>, t: ExpenseType): nat {
    if s == [] then 0 else (if s[0].expenseType == t then 1 else 0) + CountType(s[1..], t)
  }

  /** Sum of the entries' totals. */
  function SumTotals(s: seq<TypeTotal>): int {
    if s == [] then 0 else s[0].totalAmount + SumTotals(s[1..])
  }

  /** Sum over the categories `ts` of the per-category sums. */
  function SumOverTypes(es: seq<Expense>, ts: seq<ExpenseType>): int {
    if ts == [] then 0 else TypeSum(es, ts[0]) + SumOverTypes(es, ts[1..])
  }

  /** Every group is a category of `ts` that occurs, with that category's sum. */
  predicate Correct(es: seq<Expense>, s: seq<TypeTotal>) {
    forall i :: 0 <= i < |s| ==> HasType(es, s[i].expenseType) && s[i].totalAmount == TypeSum(es, s[i].expenseType)
  }

  lemma {:induction false} GroupByCorrect(es: seq<Expense>, ts: seq<ExpenseType>)
    requires Distinct(ts)
    ensures Correct(es, GroupBy(es, ts))
    ensures forall t :: CountType(GroupBy(es, ts), t) == (if t in ts && HasType(es, t) then 1 else 0)
    ensures SumTotals(GroupBy(es, ts)) == SumOverTypes(es, ts)
  {
    if ts != [] {
      var head := if HasType(es, ts[0]) then [TypeTotal(ts[0], TypeSum(es, ts[0]))] else [];
      var rest := GroupBy(es, ts[1..]);
      assert Distinct(ts[1..]);
      GroupByCorrect(es, ts[1..]);
      if !HasType(es, ts[0]) {
        TypeSumAbsent(es, ts[0]);
        assert GroupBy(es, ts) == rest;
      } else {
        assert (head + rest)[1..] == rest;
      }
      forall t
        ensures CountType(GroupBy(es, ts), t) == (if t in ts && HasType(es, t) then 1 else 0)
      {
        if head != [] {
          assert (head + rest)[1..] == rest;
        }
        assert t in ts <==> t == ts[0] || t in ts[1..];
        assert ts[0] !in ts[1..];
      }
    }
  }

  lemma {:induction false} SumOverTypesCons(e: Expense, rest: seq<Expense>, ts: seq<ExpenseType>)
    requires Distinct(ts)
    ensures SumOverTypes([e] + rest, ts) == SumOverTypes(rest, ts) + (if e.expenseType in ts then e.amount else 0)
  {
    if ts != [] {
      assert ([e] + rest)[1..] == rest;
      assert Distinct(ts[1..]);
      SumOverTypesCons(e, rest, ts[1..]);
      assert e.expenseType in ts <==> e.expenseType == ts[0] || e.expenseType in ts[1..];
      assert ts[0] !in ts[1..];
    }
  }

  /** Summing per category over all seven categories gives the sum of all amounts. */
  lemma {:induction false} TotalIsSumOfTypeSums(es: seq<Expense>)
    ensures SumOverTypes(es, AllTypes) == Total(es)
  {
    if es == [] {
      assert SumOverTypes([], AllTypes) == 0;
    } else {
      AllTypesListsEachOnce(es[0].expenseType);
      TotalIsSumOfTypeSums(es[1..]);
      assert es == [es[0]] + es[1..];
      SumOverTypesCons(es[0], es[1..], AllTypes);
    }
  }

  predicate SortedDesc(s: seq<TypeTotal>) {
    forall i, j :: 0 <= i < j < |s| ==> s[i].totalAmount >= s[j].totalAmount
  }

  /** `x` placed before the first entry whose total does not exceed its own. */
  function InsertDesc(x: TypeTotal, s: seq<TypeTotal>): (r: seq<TypeTotal>)
    ensures |r| == |s| + 1
    ensures r[0] == x || (s != [] && r[0] == s[0])
    ensures multiset(r) == multiset(s) + multiset{x}
  {
    if s == [] || x.totalAmount >= s[0].totalAmount then [x] + s
    else
      assert s == [s[0]] + s[1..];
      [s[0]] + InsertDesc(x, s[1..])
  }

  lemma ConsSorted(a: TypeTotal, t: seq<TypeTotal>)
    requires SortedDesc(t)
    requires t != [] ==> a.totalAmount >= t[0].totalAmount
    ensures SortedDesc([a] + t)
  {
    var r := [a] + t;
    forall i, j | 0 <= i < j < |r| ensures r[i].totalAmount >= r[j].totalAmount {
      if i == 0 {
        assert r[j] == t[j - 1];
        assert t[0].totalAmount >= t[j - 1].totalAmount;
      } else {
        assert r[i] == t[i - 1] && r[j] == t[j - 1];
      }
    }
  }

  lemma {:induction false} InsertDescSorted(x: TypeTotal, s: seq<TypeTotal>)
    requires SortedDesc(s)
    ensures SortedDesc(InsertDesc(x, s))
  {
    if s == [] || x.totalAmount >= s[0].totalAmount {
      ConsSorted(x, s);
    } else {
      var tail := InsertDesc(x, s[1..]);
      assert SortedDesc(s[1..]);
      InsertDescSorted(x, s[1..]);
      assert tail[0] == x || tail[0] == s[1];
      ConsSorted(s[0], tail);
    }
  }

  lemma {:induction false} InsertDescCounts(x: TypeTotal, s: seq<TypeTotal>, t: ExpenseType)
    ensures CountType(InsertDesc(x, s), t) == CountType(s, t) + (if x.expenseType == t then 1 else 0)
    ensures SumTotals(InsertDesc(x, s)) == SumTotals(s) + x.totalAmount
  {
    if s == [] || x.totalAmount >= s[0].totalAmount {
      assert ([x] + s)[1..] == s;
    } else {
      InsertDescCounts(x, s[1..], t);
      assert ([s[0]] + InsertDesc(x, s[1..]))[1..] == InsertDesc(x, s[1..]);
    }
  }

  /** Insertion sort, largest total first. */
  function SortDesc(s: seq<TypeTotal>): (r: seq<TypeTotal>)
    ensures multiset(r) == multiset(s)
    ensures SortedDesc(r)
  {
    if s == [] then []
    else
      assert s == [s[0]] + s[1..];
      InsertDescSorted(s[0], SortDesc(s[1..]));
      InsertDesc(s[0], SortDesc(s[1..]))
  }

  lemma {:induction false} SortDescCounts(s: seq<TypeTotal>, t: ExpenseType)
    ensures CountType(SortDesc(s), t) == CountType(s, t)
    ensures SumTotals(SortDesc(s)) == SumTotals(s)
  {
    if s != [] {
      SortDescCounts(s[1..], t);
      InsertDescCounts(s[0], SortDesc(s[1..]), t);
    }
  }

  /**
   * The by-type summary: one entry per category that occurs, each with the
   * sum of that category's amounts, ordered from the largest total down; the
   * entries together add up to the sum of all amounts.
   */
  function ExpensesByType(es: seq<Expense>): (r: seq<TypeTotal>)
    ensures SortedDesc(r)
    ensures forall i :: 0 <= i < |r| ==>
      HasType(es, r[i].expenseType) && r[i].totalAmount == TypeSum(es, r[i].expenseType)
    ensures forall t :: CountType(r, t) == (if HasType(es, t) then 1 else 0)
    ensures SumTotals(r) == Total(es)
  {
    var groups := GroupBy(es, AllTypes);
    var r := SortDesc(groups);
    AllTypesListsEachOnce(Food);
    GroupByCorrect(es, AllTypes);
    TotalIsSumOfTypeSums(es);
    SortDescCounts(groups, Food);
    forall t ensures CountType(r, t) == (if HasType(es, t) then 1 else 0) {
      SortDescCounts(groups, t);
      AllTypesListsEachOnce(t);
    }
    forall i | 0 <= i < |r|
      ensures HasType(es, r[i].expenseType) && r[i].totalAmount == TypeSum(es, r[i].expenseType)
    {
      assert r[i] in multiset(groups);
    }
    r
  }

  function ExampleRecords(): seq<Expense> {
    var d := Dates.Date(2024, 2, 1, 0);
    [Expense("lunch", "x", 100, d, Food), Expense("dinner", "x", 50, d, Food), Expense("flat", "x", 200, d, Rent)]
  }

  lemma ExampleSums(t: ExpenseType)
    ensures TypeSum(ExampleRecords(), t) == (if t == Rent then 200 else if t == Food then 150 else 0)
    ensures HasType(ExampleRecords(), t) <==> t == Rent || t == Food
  {
    var es := ExampleRecords();
    assert es[1..][1..][1..] == [];
    assert TypeSum(es[1..][1..], t) == (if t == Rent then 200 else 0);
    assert HasType(es[1..][1..], t) <==> t == Rent;
  }

  lemma ExampleGroups()
    ensures GroupBy(ExampleRecords(), AllTypes) == [TypeTotal(Food, 150), TypeTotal(Rent, 200)]
  {
    var es, ts := ExampleRecords(), AllTypes;
    ExampleSums(Food);
    ExampleSums(Rent);
    ExampleSums(Transport);
    ExampleSums(Utilities);
    ExampleSums(Subscriptions);
    ExampleSums(Entertainment);
    ExampleSums(Other);
    assert GroupBy(es, ts[7..]) == [];
    assert GroupBy(es, ts[6..]) == [];
    assert GroupBy(es, ts[5..]) == [];
    assert GroupBy(es, ts[4..]) == [];
    assert GroupBy(es, ts[3..]) == [];
    assert GroupBy(es, ts[2..]) == [];
    assert GroupBy(es, ts[1..]) == [TypeTotal(Rent, 200)];
  }

  lemma ExampleSort()
    ensures SortDesc([TypeTotal(Food, 150), TypeTotal(Rent, 200)]) == [TypeTotal(Rent, 200), TypeTotal(Food, 150)]
  {
    var g := [TypeTotal(Food, 150), TypeTotal(Rent, 200)];
    assert g[1..][1..] == [];
    assert SortDesc(g[1..]) == InsertDesc(g[1], []) == [TypeTotal(Rent, 200)];
    assert InsertDesc(g[0], [TypeTotal(Rent, 200)]) == [TypeTotal(Rent, 200)] + InsertDesc(g[0], []);
  }

  /** Food 100, Food 50 and Rent 200 summarise to Rent 200 followed by Food 150. */
  lemma ByTypeExample()
    ensures ExpensesByType(ExampleRecords()) == [TypeTotal(Rent, 200), TypeTotal(Food, 150)]
  {
    ExampleGroups();
    ExampleSort();
  }
}
