/**
 * The transaction repository: an in-memory list of transactions mirrored in a
 * file. The repository object is modelled as a value; every operation that
 * changes it returns the next value.
 */
module Repository {
  import opened Wrappers
  import opened Categories
  import opened Transactions
  import opened Storage
  import opened Text

  /** The list the repository owns and the file it last wrote (or found). */
  datatype Store = Store(items: seq<Transaction>, disk: Disk)

  /** The file holds exactly the in-memory list. */
  predicate Persisted(s: Store)
  {
    s.disk == Save(s.items)
  }

  /** No two transactions share an id. */
  predicate UniqueIds(ts: seq<Transaction>)
  {
    forall i, j :: 0 <= i < j < |ts| ==> ts[i].id != ts[j].id
  }

  /** The ids, in list order. */
  function Ids(ts: seq<Transaction>): (r: seq<Int32>)
    ensures |r| == |ts|
    ensures forall i :: 0 <= i < |ts| ==> r[i] == ts[i].id
  {
    if |ts| == 0 then [] else [ts[0].id] + Ids(ts[1..])
  }

  /**
   * The constructor: load the file, and when the list it gives is empty, write
   * it back. A malformed file makes the constructor throw.
   */
  function Open(d: Disk): (r: Result<Store, LoadError>)
    ensures r.Failure? <==> d.Malformed?
    ensures r.Success? ==> Persisted(r.value)
    ensures d.Document? ==> r.Success? && r.value.items == d.records
    ensures d.Missing? || d.NullDocument? ==> r.Success? && r.value.items == []
  {
    match Load(d)
    case Failure(e) => Failure(e)
    case Success(ts) =>
      if |ts| == 0 then Success(Store(ts, Save(ts))) else Success(Store(ts, d))
  }

  /** Every transaction, in stored order: while the file mirrors the list, exactly what the file reads back as. */
  function GetAll(s: Store): (r: seq<Transaction>)
    ensures Persisted(s) ==> Load(s.disk) == Success(r)
  {
    s.items
  }

  /** The position of the first transaction carrying `id`. */
  function IndexOf(ts: seq<Transaction>, id: Int32): (r: Option<nat>)
    ensures r.Some? ==> r.value < |ts| && ts[r.value].id == id
    ensures r.Some? ==> forall j :: 0 <= j < r.value ==> ts[j].id != id
    ensures r.None? <==> forall j :: 0 <= j < |ts| ==> ts[j].id != id
  {
    if |ts| == 0 then None
    else if ts[0].id == id then Some(0)
    else match IndexOf(ts[1..], id)
      case None => None
      case Some(i) => Some(i + 1)
  }

  /** `FirstOrDefault` by id: the first transaction carrying `id`, or nothing. */
  function GetById(s: Store, id: Int32): (r: Option<Transaction>)
    ensures r.None? <==> forall j :: 0 <= j < |s.items| ==> s.items[j].id != id
    ensures r.Some? ==> r.value.id == id
    ensures r.Some? ==> exists i :: 0 <= i < |s.items| && s.items[i] == r.value
                                    && forall j :: 0 <= j < i ==> s.items[j].id != id
  {
    match IndexOf(s.items, id)
    case None => None
    case Some(i) => Some(s.items[i])
  }

  /** The largest id present. */
  function MaxId(ts: seq<Transaction>): (m: Int32)
    requires |ts| > 0
    ensures forall i :: 0 <= i < |ts| ==> ts[i].id <= m
    ensures exists i :: 0 <= i < |ts| && ts[i].id == m
  {
    if |ts| == 1 then ts[0].id
    else
      var rest := MaxId(ts[1..]);
      assert ts[1..][0] == ts[1];
      if ts[0].id >= rest then ts[0].id else rest
  }

  /** No id is at the 32-bit ceiling, so incrementing the largest id cannot wrap. */
  predicate BelowCeiling(ts: seq<Transaction>)
  {
    forall i :: 0 <= i < |ts| ==> ts[i].id < Int32Max
  }

  /**
   * The id `Add` hands out: 1 for an empty list; below the ceiling, one past
   * the largest id present; once some id is at the ceiling, the wrapped value.
   */
  function NextId(ts: seq<Transaction>): (r: Int32)
    ensures |ts| == 0 ==> r == 1
    ensures |ts| > 0 && BelowCeiling(ts) ==>
      && (forall i :: 0 <= i < |ts| ==> ts[i].id < r)
      && (exists i :: 0 <= i < |ts| && ts[i].id + 1 == r)
    ensures (exists i :: 0 <= i < |ts| && ts[i].id == Int32Max) ==> r == Int32Min
  {
    if |ts| == 0 then 1 else Increment(MaxId(ts))
  }

  /**
   * Appends `t` under a fresh id, overwriting whatever id the caller gave,
   * and rewrites the file. Returns the next store and the stored transaction.
   */
  function Add(s: Store, t: Transaction): (r: (Store, Transaction))
    ensures r.1 == t.(id := r.1.id)
    ensures r.0.items == s.items + [r.1]
    ensures Persisted(r.0)
  {
    var stored := t.(id := NextId(s.items));
    var items := s.items + [stored];
    (Store(items, Save(items)), stored)
  }

  /**
   * Copies category, amount, date and description of `t` onto the first
   * transaction with id `t.id` and rewrites the file; without such a
   * transaction nothing happens and nothing is written.
   */
  function Update(s: Store, t: Transaction): (r: Store)
    ensures IndexOf(s.items, t.id).None? ==> r == s
    ensures IndexOf(s.items, t.id).Some? ==>
      var i := IndexOf(s.items, t.id).value;
      && |r.items| == |s.items|
      && r.items[i].id == s.items[i].id
      && r.items[i].category == t.category
      && r.items[i].amount == t.amount
      && r.items[i].date == t.date
      && r.items[i].description == t.description
      && (forall j :: 0 <= j < |s.items| && j != i ==> r.items[j] == s.items[j])
      && Persisted(r)
  {
    match IndexOf(s.items, t.id)
    case None => s
    case Some(i) =>
      var existing := s.items[i];
      var updated := existing.(category := t.category, amount := t.amount,
                               date := t.date, description := t.description);
      var items := s.items[i := updated];
      Store(items, Save(items))
  }

  /**
   * Removes the first transaction with `id` and rewrites the file; without
   * such a transaction nothing happens and nothing is written.
   */
  function Delete(s: Store, id: Int32): (r: Store)
    ensures IndexOf(s.items, id).None? ==> r == s
    ensures IndexOf(s.items, id).Some? ==>
      var i := IndexOf(s.items, id).value;
      && r.items == s.items[..i] + s.items[i + 1..]
      && Persisted(r)
  {
    match IndexOf(s.items, id)
    case None => s
    case Some(i) =>
      var items := s.items[..i] + s.items[i + 1..];
      Store(items, Save(items))
  }

  /** The transactions whose category lies in class `k`, in stored order. */
  function OfClass(ts: seq<Transaction>, k: Class): (r: seq<Transaction>)
    ensures |r| <= |ts|
    ensures forall x :: x in r <==> x in ts && InClass(x.category, k)
    ensures forall x :: multiset(r)[x] == if InClass(x.category, k) then multiset(ts)[x] else 0
  {
    if |ts| == 0 then []
    else
      assert ts == [ts[0]] + ts[1..];
      var rest := OfClass(ts[1..], k);
      if InClass(ts[0].category, k) then [ts[0]] + rest else rest
  }

  /**
   * The class query: the lowered argument `"income"` selects the income
   * categories, and every other argument the expense categories.
   */
  function GetByCategory(s: Store, categoryType: string): (r: seq<Transaction>)
    ensures var k := if Lower(categoryType) == "income" then Income else Expense;
      forall x :: multiset(r)[x] == if ClassOf(x.category) == k then multiset(s.items)[x] else 0
  {
    var isIncome := Lower(categoryType) == "income";
    var k := if isIncome then Income else Expense;
    var r := OfClass(s.items, k);
    assert forall c: Category :: InClass(c, k) <==> ClassOf(c) == k;
    r
  }
}
