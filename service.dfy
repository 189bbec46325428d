/**
 * The expense service over an in-memory collection: a map from id to record,
 * and the ids in the collection's natural (insertion) order, which is the
 * order in which `find` returns the records.
 */
module Service {
  import opened Wrappers
  import opened Dates
  import opened Schema
  import opened Ledger
  import opened TypeStats
  import opened ObjectIds
  import opened Sequences

  /**
   * What the service's operations throw: the two HTTP exceptions it raises
   * itself, with their messages, and the store's two errors: an id string it
   * cannot cast to an object id, and a record that fails the schema's checks
   * on save.
   */
  datatype Error = BadRequest(message: string) | NotFound(message: string) | CastFailed | SaveRejected

  const LimitExceededMessage: string := "Monthly expense limit exceeded."
  const UpdateLimitMessage: string := "Updating this expense would exceed the monthly limit."
  const InvalidIdMessage: string := "Please enter correct id."
  const DeletedMessage: string := "Expense deleted successfully"

  function NotFoundMessage(id: Id): string {
    "Expense with ID " + id + " not found"
  }

  /** The object `remove` answers with. */
  datatype Confirmation = Confirmation(message: string)

  /** The position of `id` in `ids`. */
  function IndexOf(ids: seq<Id>, id: Id): (k: nat)
    requires id in ids
    ensures k < |ids| && ids[k] == id
  {
    if ids[0] == id then 0 else 1 + IndexOf(ids[1..], id)
  }

  /** The records of `ids`, in that order. */
  function Collect(store: map<Id, Expense>, ids: seq<Id>): (r: seq<Expense>)
    requires forall i :: 0 <= i < |ids| ==> ids[i] in store
    ensures |r| == |ids|
  {
    if ids == [] then [] else [store[ids[0]]] + Collect(store, ids[1..])
  }

  /** Position `i` of the listing holds the record of the `i`-th id. */
  lemma {:induction false} CollectAt(store: map<Id, Expense>, ids: seq<Id>)
    requires forall i :: 0 <= i < |ids| ==> ids[i] in store
    ensures forall i :: 0 <= i < |ids| ==> Collect(store, ids)[i] == store[ids[i]]
  {
    if ids != [] {
      CollectAt(store, ids[1..]);
      var r := Collect(store, ids);
      assert r[1..] == Collect(store, ids[1..]);
      forall i | 1 <= i < |ids| ensures r[i] == store[ids[i]] {
        assert r[i] == r[1..][i - 1];
      }
    }
  }

  /** Every stored key appears once in the order, and every key is in the store's own spelling. */
  ghost predicate Consistent(store: map<Id, Expense>, order: seq<Id>) {
    Distinct(order) &&
    (forall id :: id in store <==> id in order) &&
    (forall id :: id in store ==> IsKey(id))
  }

  lemma ConsistentAppend(store: map<Id, Expense>, order: seq<Id>, id: Id, e: Expense)
    requires Consistent(store, order) && IsKey(id) && id !in store
    ensures Consistent(store[id := e], order + [id])
  {
  }

  lemma RemoveAtDistinct(order: seq<Id>, k: nat)
    requires Distinct(order) && k < |order|
    ensures Distinct(order[..k] + order[k + 1..])
    ensures forall id :: id in order[..k] + order[k + 1..] <==> id in order && id != order[k]
  {
    var rest := order[..k] + order[k + 1..];
    assert forall i :: 0 <= i < |rest| ==> rest[i] == order[if i < k then i else i + 1];
    forall id | id in order && id != order[k] ensures id in rest {
      var i := IndexOf(order, id);
      assert rest[if i < k then i else i - 1] == id;
    }
  }

  lemma ConsistentRemove(store: map<Id, Expense>, order: seq<Id>, k: nat)
    requires Consistent(store, order) && k < |order|
    ensures Consistent(store - {order[k]}, order[..k] + order[k + 1..])
  {
    RemoveAtDistinct(order, k);
  }

  lemma KeysListed(store: map<Id, Expense>, ids: seq<Id>)
    requires forall id :: id in store <==> id in ids
    ensures store.Keys == set id | id in ids
  {
  }

  /** Listing a duplicate-free order of exactly the stored ids yields every stored record exactly once. */
  lemma CollectListsStore(store: map<Id, Expense>, ids: seq<Id>)
    requires Distinct(ids) && forall id :: id in store <==> id in ids
    ensures |Collect(store, ids)| == |store|
    ensures forall id :: id in store ==> store[id] in Collect(store, ids)
    ensures forall e :: e in Collect(store, ids) ==> exists id :: id in store && store[id] == e
  {
    DistinctCard(ids);
    KeysListed(store, ids);
    CollectAt(store, ids);
    var r := Collect(store, ids);
    forall id | id in store ensures store[id] in r {
      assert r[IndexOf(ids, id)] == store[id];
    }
    forall e | e in r ensures exists id :: id in store && store[id] == e {
      var i :| 0 <= i < |r| && r[i] == e;
      assert store[ids[i]] == e;
    }
  }

  /** A category occurs in the listing exactly when some stored record has it. */
  lemma StoredTypes(store: map<Id, Expense>, ids: seq<Id>)
    requires forall id :: id in store <==> id in ids
    ensures forall t :: HasType(Collect(store, ids), t) <==> exists id :: id in store && store[id].expenseType == t
  {
    var r := Collect(store, ids);
    CollectAt(store, ids);
    forall t ensures HasType(r, t) <==> exists id :: id in store && store[id].expenseType == t {
      HasTypeIff(r, t);
      if exists id :: id in store && store[id].expenseType == t {
        var id :| id in store && store[id].expenseType == t;
        assert r[IndexOf(ids, id)].expenseType == t;
      }
      if HasType(r, t) {
        var i :| 0 <= i < |r| && r[i].expenseType == t;
        assert store[ids[i]].expenseType == t;
      }
    }
  }

  lemma CollectAppend(store: map<Id, Expense>, ids: seq<Id>, id: Id, e: Expense)
    requires forall i :: 0 <= i < |ids| ==> ids[i] in store
    requires id !in ids
    ensures Collect(store[id := e], ids + [id]) == Collect(store, ids) + [e]
  {
    var a := Collect(store[id := e], ids + [id]);
    var b := Collect(store, ids) + [e];
    CollectAt(store[id := e], ids + [id]);
    CollectAt(store, ids);
    forall i | 0 <= i < |a| ensures a[i] == b[i] {
      if i < |ids| {
        assert (ids + [id])[i] == ids[i];
      }
    }
  }

  lemma CollectUpdate(store: map<Id, Expense>, ids: seq<Id>, k: nat, e: Expense)
    requires forall i :: 0 <= i < |ids| ==> ids[i] in store
    requires Distinct(ids) && k < |ids|
    ensures Collect(store[ids[k] := e], ids) == Collect(store, ids)[k := e]
  {
    var a := Collect(store[ids[k] := e], ids);
    var b := Collect(store, ids)[k := e];
    CollectAt(store[ids[k] := e], ids);
    CollectAt(store, ids);
    forall i | 0 <= i < |a| ensures a[i] == b[i] {
      if i != k {
        assert ids[i] != ids[k];
      }
    }
  }

  lemma CollectRemove(store: map<Id, Expense>, ids: seq<Id>, k: nat)
    requires forall i :: 0 <= i < |ids| ==> ids[i] in store
    requires Distinct(ids) && k < |ids|
    ensures Collect(store - {ids[k]}, ids[..k] + ids[k + 1..]) == Collect(store, ids)[..k] + Collect(store, ids)[k + 1..]
  {
    var rest := ids[..k] + ids[k + 1..];
    assert forall i :: 0 <= i < |rest| ==> rest[i] == if i < k then ids[i] else ids[i + 1];
    var a := Collect(store - {ids[k]}, rest);
    var c := Collect(store, ids);
    CollectAt(store - {ids[k]}, rest);
    CollectAt(store, ids);
    var b := c[..k] + c[k + 1..];
    forall i | 0 <= i < |a| ensures a[i] == b[i] {
      if i < k {
        assert a[i] == c[i];
      } else {
        assert a[i] == c[i + 1];
      }
    }
  }

  class ExpensesService {
    var store: map<Id, Expense>
    var order: seq<Id>

    ghost predicate Valid()
      reads this
    {
      Consistent(store, order)
    }

    /** The service over the collection it is given, which may already hold records. */
    constructor (initialStore: map<Id, Expense>, initialOrder: seq<Id>)
      requires Consistent(initialStore, initialOrder)
      ensures Valid() && store == initialStore && order == initialOrder
    {
      store := initialStore;
      order := initialOrder;
    }

    /** `findAll`: every stored record exactly once, in the collection's order (see `CollectListsStore`). */
    function FindAll(): (r: seq<Expense>)
      reads this
      requires Valid()
      ensures |r| == |order|
    {
      Collect(store, order)
    }

    /**
     * `create`: refused with the limit message, changing nothing, when the
     * records of the new expense's month plus its amount exceed the cap;
     * otherwise rejected on save, changing nothing, when the schema refuses
     * the record; otherwise stored under the fresh id the store assigns and
     * returned.
     */
    method Create(dto: Expense, newId: Id) returns (r: Result<Expense, Error>)
      requires Valid()
      requires IsKey(newId) && newId !in store
      modifies this
      ensures Valid()
      ensures r.Failure? <==> IsMonthlyLimitExceeded(old(FindAll()), dto.amount, dto.date) || !Storable(dto)
      ensures IsMonthlyLimitExceeded(old(FindAll()), dto.amount, dto.date) ==> r == Failure(BadRequest(LimitExceededMessage))
      ensures !IsMonthlyLimitExceeded(old(FindAll()), dto.amount, dto.date) && !Storable(dto) ==> r == Failure(SaveRejected)
      ensures r.Failure? ==> store == old(store) && order == old(order)
      ensures r.Success? ==> r.value == dto && store == old(store)[newId := dto] && order == old(order) + [newId]
      ensures r.Success? ==> FindAll() == old(FindAll()) + [dto]
    {
      if IsMonthlyLimitExceeded(FindAll(), dto.amount, dto.date) {
        return Failure(BadRequest(LimitExceededMessage));
      }
      if !Storable(dto) {
        return Failure(SaveRejected);
      }
      CollectAppend(store, order, newId, dto);
      ConsistentAppend(store, order, newId, dto);
      store := store[newId := dto];
      order := order + [newId];
      r := Success(dto);
    }

    /**
     * `update`: a malformed id is refused before any lookup, an id the store
     * cannot cast makes the lookup fail, an unknown id is not found; otherwise
     * the amount change is checked against the cap in the month of the
     * effective date, and only then are the supplied fields written into the
     * record, which is returned. Every refusal changes nothing.
     */
    method Update(id: Id, patch: ExpensePatch) returns (r: Result<Expense, Error>)
      requires Valid()
      modifies this
      ensures Valid() && order == old(order)
      ensures !IsValidObjectId(id) ==> r == Failure(BadRequest(InvalidIdMessage))
      ensures IsValidObjectId(id) && !Castable(id) ==> r == Failure(CastFailed)
      ensures Castable(id) && Key(id) !in old(store) ==> r == Failure(NotFound(NotFoundMessage(id)))
      ensures Castable(id) && Key(id) in old(store) ==>
        (r.Failure? <==> IsMonthlyLimitExceeded(old(FindAll()), UpdateDelta(old(store)[Key(id)], patch), EffectiveDate(old(store)[Key(id)], patch)))
      ensures Castable(id) && Key(id) in old(store) && r.Failure? ==> r.error == BadRequest(UpdateLimitMessage)
      ensures r.Failure? ==> store == old(store)
      ensures r.Success? ==>
        Castable(id) && Key(id) in old(store) &&
        r.value == Merge(old(store)[Key(id)], patch) && store == old(store)[Key(id) := r.value]
      ensures r.Success? ==> FindAll() == old(FindAll())[IndexOf(order, Key(id)) := r.value]
    {
      if Castable(id) {
        CastableIsValid(id);
      }
      if !IsValidObjectId(id) {
        return Failure(BadRequest(InvalidIdMessage));
      }
      if !Castable(id) {
        return Failure(CastFailed);
      }
      var key := Key(id);
      if key !in store {
        return Failure(NotFound(NotFoundMessage(id)));
      }
      var existing := store[key];
      var newAmount := if patch.amount.Some? then patch.amount.value else existing.amount;
      var newDate := if patch.date.Some? then patch.date.value else existing.date;
      if IsMonthlyLimitExceeded(FindAll(), newAmount - existing.amount, newDate) {
        return Failure(BadRequest(UpdateLimitMessage));
      }
      var updated := Merge(existing, patch);
      CollectUpdate(store, order, IndexOf(order, key), updated);
      store := store[key := updated];
      r := Success(updated);
    }

    /**
     * `remove`: an id the store cannot cast makes the deletion fail; otherwise
     * the record it names is deleted and the deletion confirmed, or it is
     * reported not found. Every failure changes nothing.
     */
    method Remove(id: Id) returns (r: Result<Confirmation, Error>)
      requires Valid()
      modifies this
      ensures Valid()
      ensures !Castable(id) ==> r == Failure(CastFailed)
      ensures Castable(id) && Key(id) !in old(store) ==> r == Failure(NotFound(NotFoundMessage(id)))
      ensures r.Success? <==> Castable(id) && Key(id) in old(store)
      ensures r.Success? ==> r.value == Confirmation(DeletedMessage) && store == old(store) - {Key(id)}
      ensures r.Success? ==>
        var k := old(IndexOf(order, Key(id)));
        order == old(order)[..k] + old(order)[k + 1..] &&
        FindAll() == old(FindAll())[..k] + old(FindAll())[k + 1..]
      ensures r.Failure? ==> store == old(store) && order == old(order)
    {
      if !Castable(id) {
        return Failure(CastFailed);
      }
      var key := Key(id);
      if key !in store {
        return Failure(NotFound(NotFoundMessage(id)));
      }
      var k := IndexOf(order, key);
      CollectRemove(store, order, k);
      ConsistentRemove(store, order, k);
      store := store - {key};
      order := order[..k] + order[k + 1..];
      r := Success(Confirmation(DeletedMessage));
    }

    /** `getExpensesByType`: one total per category some stored record has, largest first. */
    function GetExpensesByType(): (r: seq<TypeTotal>)
      reads this
      requires Valid()
      ensures SortedDesc(r)
      ensures forall t :: CountType(r, t) == (if exists id :: id in store && store[id].expenseType == t then 1 else 0)
      ensures forall i :: 0 <= i < |r| ==> r[i].totalAmount == TypeSum(FindAll(), r[i].expenseType)
      ensures SumTotals(r) == Total(FindAll())
    {
      StoredTypes(store, order);
      ExpensesByType(FindAll())
    }
  }
}
