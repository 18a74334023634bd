/** Properties of the repository that relate several operations or calls. */
module Properties {
  import opened Wrappers
  import opened Categories
  import opened Transactions
  import opened Storage
  import opened Text
  import opened Repository

  // ---------------------------------------------------------------------------
  // Id assignment

  /** The first transaction added to an empty repository gets id 1. */
  lemma AddOnEmptyAssignsOne(s: Store, t: Transaction)
    requires s.items == []
    ensures Add(s, t).1.id == 1
  {
  }

  /**
   * Below the ceiling, the new id exceeds every present id and is one more
   * than some present id: it is the largest id plus one.
   */
  lemma AddAssignsMaxPlusOne(s: Store, t: Transaction)
    requires |s.items| > 0
    requires BelowCeiling(s.items)
    ensures forall i :: 0 <= i < |s.items| ==> s.items[i].id < Add(s, t).1.id
    ensures exists i :: 0 <= i < |s.items| && s.items[i].id + 1 == Add(s, t).1.id
  {
    var m := MaxId(s.items);
    var i :| 0 <= i < |s.items| && s.items[i].id == m;
    assert s.items[i].id + 1 == Add(s, t).1.id;
  }

  /** Add keeps ids pairwise distinct as long as the largest id can still be incremented. */
  lemma AddPreservesUniqueIds(s: Store, t: Transaction)
    requires UniqueIds(s.items)
    requires BelowCeiling(s.items)
    ensures UniqueIds(Add(s, t).0.items)
  {
    var (s', stored) := Add(s, t);
    if |s.items| > 0 {
      AddAssignsMaxPlusOne(s, t);
    }
    forall i, j | 0 <= i < j < |s'.items|
      ensures s'.items[i].id != s'.items[j].id
    {
      if j == |s.items| {
        assert s'.items[j] == stored;
        assert s'.items[i] == s.items[i];
      } else {
        assert s'.items[i] == s.items[i] && s'.items[j] == s.items[j];
      }
    }
  }

  /**
   * At the ceiling the increment wraps: the list [-2^31, 2^31-1] gets -2^31
   * again, and ids stop being distinct.
   */
  lemma AddWrapsAtCeiling(t: Transaction)
    ensures var low := t.(id := Int32Min);
    var high := t.(id := Int32Max);
    var s := Store([low, high], Save([low, high]));
    && UniqueIds(s.items)
    && Add(s, t).1.id == Int32Min
    && !UniqueIds(Add(s, t).0.items)
  {
    var low := t.(id := Int32Min);
    var high := t.(id := Int32Max);
    var s := Store([low, high], Save([low, high]));
    assert MaxId(s.items) == Int32Max;
    assert Add(s, t).0.items[0].id == Add(s, t).0.items[2].id;
  }

  /**
   * Ids are reused: below the ceiling, adding, deleting the added id and
   * adding again restores the list and hands out the same id twice.
   */
  lemma AddDeleteAddReusesId(s: Store, t: Transaction, u: Transaction)
    requires BelowCeiling(s.items)
    ensures var (s1, a) := Add(s, t);
    var s2 := Delete(s1, a.id);
    && s2.items == s.items
    && Add(s2, u).1.id == a.id
  {
    var (s1, a) := Add(s, t);
    if |s.items| > 0 {
      AddAssignsMaxPlusOne(s, t);
    }
    assert s1.items[|s.items|] == a;
    assert forall j :: 0 <= j < |s.items| ==> s1.items[j] == s.items[j];
    assert IndexOf(s1.items, a.id) == Some(|s.items|);
    assert s1.items[..|s.items|] == s.items;
  }

  /**
   * With distinct ids, deleting the holder of the largest id `m` makes the
   * next id at most `m` while other records remain, and 1 when the list
   * becomes empty: `m` is free to be handed out again.
   */
  lemma DeleteMaxThenAddNeverExceeds(s: Store, t: Transaction)
    requires |s.items| > 0
    requires UniqueIds(s.items)
    ensures var m := MaxId(s.items);
    var next := Add(Delete(s, m), t).1.id;
    && (|s.items| > 1 ==> next <= m)
    && (|s.items| == 1 ==> next == 1)
  {
    var m := MaxId(s.items);
    var i := IndexOf(s.items, m).value;
    var rest := Delete(s, m).items;
    assert rest == s.items[..i] + s.items[i + 1..];
    forall k | 0 <= k < |rest| ensures rest[k].id < m {
      var k' := if k < i then k else k + 1;
      assert rest[k] == s.items[k'] && k' != i;
    }
    assert BelowCeiling(rest);
    assert Add(Delete(s, m), t).1.id == NextId(rest);
  }

  /** Deleting id 2 from ids [1, 2] and adding again hands out 2 again. */
  lemma DeleteLargestExample(t: Transaction)
    ensures var one := t.(id := 1);
    var two := t.(id := 2);
    var s := Store([one, two], Save([one, two]));
    Add(Delete(s, 2), t).1.id == 2
  {
    var one := t.(id := 1);
    var two := t.(id := 2);
    var s := Store([one, two], Save([one, two]));
    assert IndexOf(s.items, 2) == Some(1);
    assert Delete(s, 2).items == [one];
  }

  // ---------------------------------------------------------------------------
  // Update and delete

  /** After updating a present id, looking it up gives exactly the caller's transaction. */
  lemma UpdateThenGetById(s: Store, t: Transaction)
    requires IndexOf(s.items, t.id).Some?
    ensures GetById(Update(s, t), t.id) == Some(t)
  {
    var i := IndexOf(s.items, t.id).value;
    var r := Update(s, t).items;
    assert forall j :: 0 <= j < i ==> r[j].id != t.id;
    assert IndexOf(r, t.id) == Some(i);
  }

  /** Update never changes the ids or their order, so distinct ids stay distinct. */
  lemma UpdateKeepsIds(s: Store, t: Transaction)
    ensures Ids(Update(s, t).items) == Ids(s.items)
    ensures UniqueIds(s.items) ==> UniqueIds(Update(s, t).items)
  {
    var r := Update(s, t).items;
    assert Ids(r) == Ids(s.items);
  }

  /** After deleting an id from a list with distinct ids, the id is gone. */
  lemma DeleteThenGetById(s: Store, id: Int32)
    requires UniqueIds(s.items)
    ensures GetById(Delete(s, id), id).None?
  {
    var r := Delete(s, id).items;
    match IndexOf(s.items, id)
    case None =>
    case Some(i) =>
      forall j | 0 <= j < |r| ensures r[j].id != id {
        if j < i {
          assert r[j] == s.items[j];
        } else {
          assert r[j] == s.items[j + 1];
        }
      }
  }

  /** Removing one position keeps distinct ids distinct. */
  lemma RemoveAtKeepsUniqueIds(ts: seq<Transaction>, i: nat)
    requires i < |ts|
    requires UniqueIds(ts)
    ensures UniqueIds(ts[..i] + ts[i + 1..])
  {
    var r := ts[..i] + ts[i + 1..];
    forall a, b | 0 <= a < b < |r| ensures r[a].id != r[b].id {
      var a' := if a < i then a else a + 1;
      var b' := if b < i then b else b + 1;
      assert r[a] == ts[a'] && r[b] == ts[b'];
    }
  }

  /** Delete removes exactly one record when the id is present and keeps ids distinct. */
  lemma DeleteRemovesOne(s: Store, id: Int32)
    ensures IndexOf(s.items, id).Some? ==> |Delete(s, id).items| == |s.items| - 1
    ensures IndexOf(s.items, id).Some? ==>
      multiset(Delete(s, id).items) + multiset{s.items[IndexOf(s.items, id).value]} == multiset(s.items)
    ensures UniqueIds(s.items) ==> UniqueIds(Delete(s, id).items)
  {
    match IndexOf(s.items, id)
    case None =>
    case Some(i) =>
      assert s.items == s.items[..i] + [s.items[i]] + s.items[i + 1..];
      if UniqueIds(s.items) {
        RemoveAtKeepsUniqueIds(s.items, i);
      }
  }

  // ---------------------------------------------------------------------------
  // Classification

  /** The class filter distributes over concatenation, so it keeps stored order. */
  lemma {:induction false} OfClassAppend(a: seq<Transaction>, b: seq<Transaction>, k: Class)
    ensures OfClass(a + b, k) == OfClass(a, k) + OfClass(b, k)
  {
    if |a| == 0 {
      assert a + b == b;
    } else {
      assert (a + b)[1..] == a[1..] + b;
      OfClassAppend(a[1..], b, k);
    }
  }

  /** Income and expense results are disjoint and together hold every transaction. */
  lemma ClassesPartition(ts: seq<Transaction>)
    ensures |OfClass(ts, Income)| + |OfClass(ts, Expense)| == |ts|
    ensures multiset(OfClass(ts, Income)) + multiset(OfClass(ts, Expense)) == multiset(ts)
    ensures forall x :: x in OfClass(ts, Income) ==> x !in OfClass(ts, Expense)
  {
    var inc, exp := OfClass(ts, Income), OfClass(ts, Expense);
    forall x ensures (multiset(inc) + multiset(exp))[x] == multiset(ts)[x] {
      ClassesPartitionCategories(x.category);
    }
    assert multiset(inc) + multiset(exp) == multiset(ts);
    assert |multiset(inc) + multiset(exp)| == |multiset(ts)|;
    forall x | x in inc ensures x !in exp {
      ClassesPartitionCategories(x.category);
    }
  }

  /**
   * `"income"` in any letter case selects exactly the income categories, in
   * stored order and with their multiplicity.
   */
  lemma GetByCategoryIncome(s: Store, categoryType: string)
    requires Lower(categoryType) == "income"
    ensures GetByCategory(s, categoryType) == OfClass(s.items, Income)
    ensures forall x :: x in GetByCategory(s, categoryType) <==> x in s.items && ClassOf(x.category) == Income
  {
  }

  /** Every argument other than `"income"`, not only `"expense"`, selects the expense categories. */
  lemma GetByCategoryOtherIsExpense(s: Store, categoryType: string)
    requires Lower(categoryType) != "income"
    ensures GetByCategory(s, categoryType) == GetByCategory(s, "expense")
    ensures GetByCategory(s, categoryType) == OfClass(s.items, Expense)
    ensures forall x :: x in GetByCategory(s, categoryType) <==> x in s.items && ClassOf(x.category) == Expense
  {
    assert Lower("expense") == "expense";
    assert Lower("expense") != "income";
  }

  /** The two class queries split the list: disjoint, and together every transaction. */
  lemma IncomeAndExpenseQueriesPartition(s: Store)
    ensures multiset(GetByCategory(s, "income")) + multiset(GetByCategory(s, "expense")) == multiset(GetAll(s))
    ensures forall x :: x in GetByCategory(s, "income") ==> x !in GetByCategory(s, "expense")
  {
    assert Lower("income") == "income";
    assert Lower("expense") == "expense";
    GetByCategoryIncome(s, "income");
    GetByCategoryOtherIsExpense(s, "expense");
    ClassesPartition(s.items);
  }

  // ---------------------------------------------------------------------------
  // Persistence

  /** A file holding the in-memory list reopens to the same repository. */
  lemma ReopenPersisted(s: Store)
    requires Persisted(s)
    ensures Open(s.disk) == Success(s)
  {
  }

  /** One call from a client of the repository. */
  datatype Command = AddCommand(t: Transaction) | UpdateCommand(t: Transaction) | DeleteCommand(id: Int32)

  /** The store after one command. */
  function Step(s: Store, c: Command): (r: Store)
  {
    match c
    case AddCommand(t) => Add(s, t).0
    case UpdateCommand(t) => Update(s, t)
    case DeleteCommand(id) => Delete(s, id)
  }

  /** The store after a run of commands, in order. */
  function Run(s: Store, cs: seq<Command>): (r: Store)
    decreases |cs|
  {
    if |cs| == 0 then s else Run(Step(s, cs[0]), cs[1..])
  }

  /**
   * Starting from a repository whose file mirrors its list, any run of
   * commands ends with the file mirroring the list, and reopening the file
   * gives back the same transactions.
   */
  lemma {:induction false} RunKeepsPersisted(s: Store, cs: seq<Command>)
    requires Persisted(s)
    ensures Persisted(Run(s, cs))
    ensures Open(Run(s, cs).disk) == Success(Run(s, cs))
    decreases |cs|
  {
    if |cs| > 0 {
      var s' := Step(s, cs[0]);
      assert Persisted(s');
      RunKeepsPersisted(s', cs[1..]);
    }
  }

  /** A repository opened from any readable file starts out mirrored. */
  lemma OpenThenRun(d: Disk, cs: seq<Command>)
    requires !d.Malformed?
    ensures Open(d).Success?
    ensures Open(Run(Open(d).value, cs).disk) == Success(Run(Open(d).value, cs))
  {
    RunKeepsPersisted(Open(d).value, cs);
  }
}
