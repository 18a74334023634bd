# Expense tracker transaction store, in Dafny

This project models the transaction store of a personal budget ledger: the
`TransactionRepository` that owns the list of `BudgetTransaction` records,
hands out ids, answers lookups and income/expense queries, and rewrites its
JSON file after every change. It also models the closed `TransactionCategory`
enumeration that the store classifies against.

Layout (one module per file):

- `wrappers.dfy` (`Wrappers`): `Option` stands in for a `null` result and `Result` for an exception.
- `categories.dfy` (`Categories`): the seven categories and the income and expense arrays. Also the
  category's class and its string label, with the label round trips.
- `transactions.dfy` (`Transactions`): the five-field `Transaction` record and the 32-bit id type.
  It also holds the wrapping `Increment`.
- `text.dfy` (`Text`): ASCII lower-casing of the class argument.
- `storage.dfy` (`Storage`): the file, as one of the four `Disk` shapes. `Save` writes the whole
  list and `Load` reads it back.
- `repository.dfy` (`Repository`): the store as an immutable value `Store(items, disk)`. It holds the
  constructor (`Open`), `GetAll`, `GetById`, `GetByCategory`, `Add`, `Update` and `Delete`. Each
  mutation returns the next store.
- `properties.dfy` (`Properties`): lemmas relating several operations. These cover id assignment
  and reuse, update and delete, classification, and the file mirroring the list across any run of
  commands.

Modelling decisions:

- The file is an ordinary field of the store value (`disk`). `Persisted(s)` says that the field
  holds exactly the in-memory list.
- `Update` and `Delete` on an absent id return the store unchanged, so the file is not rewritten.
- Ids are C# `int`. They are modelled as a 32-bit subset type. `Max + 1` is written out as the
  unchecked increment, which wraps from 2^31-1 to -2^31.
- `Amount` is a `decimal`. It is modelled as a `real`, so it is exact. `Date` is an opaque value
  compared by equality.
- `GetById`, `Update` and `Delete` all act on the first record with the id, as `FirstOrDefault`
  does. `Delete` removes that same object from the list.

Behaviours of the code worth noting:

- Ids are reused. `Add` takes the maximum of the ids present now, so after the holder of the
  largest id is deleted, that id can be handed out again (`AddDeleteAddReusesId`,
  `DeleteLargestExample`).
- A file that fails to parse is not treated as empty. The deserializer throws out of the
  constructor (`Open` returns `Failure(MalformedJson)`). Only a missing file or a `null` document
  gives an empty list.
- `Update` and `Delete` on an absent id are silent no-ops, not errors.
- `GetByCategory` treats every argument other than `"income"` (after lower-casing) as the expense
  query. It does not reject unknown arguments.
- The last expense label is spelled `Subsriptions`. The spelling `Subscriptions` does not parse.

## Model

| member | source | states |
|---|---|---|
| Categories.ClassOf | Tracker/Tracker/Models/TransactionCategory.cs:8-15 | a category's class is Income exactly when it is in the income array and Expense exactly when it is in the expense array |
| Categories.SevenCategories | Tracker/Tracker/Models/TransactionCategory.cs:6-16 | there are exactly seven distinct categories; every category is listed; the list is the income array followed by the expense array |
| Categories.ClassesPartitionCategories | Tracker/Tracker/Repositories/TransactionRepository.cs:31-44 | every category is in exactly one of the income and expense arrays, and that is the array its class selects |
| Categories.Parse | Tracker/Tracker/Models/TransactionCategory.cs:5-16 | a text parses exactly when some category has it as its label, and it parses to a category with that label |
| Categories.Label | Tracker/Tracker/Models/TransactionCategory.cs:5-16 | a category is written as a non-empty word of ASCII letters starting with a capital, with no spaces |
| Categories.LabelInjective | Tracker/Tracker/Models/TransactionCategory.cs:8-15 | distinct categories have distinct labels |
| Categories.ParseLabel | Tracker/Tracker/Models/TransactionCategory.cs:5-16 | category to label to category is the identity |
| Categories.SubscriptionsSpelling | Tracker/Tracker/Models/TransactionCategory.cs:15 | the label `Subsriptions` round-trips and the correctly spelled `Subscriptions` is rejected |
| Transactions.Increment | Tracker/Tracker/Repositories/TransactionRepository.cs:52 | the increment is congruent to x + 1 modulo 2^32; below the ceiling it is x + 1, and at 2^31-1 it wraps to -2^31 |
| Storage.Save | Tracker/Tracker/Repositories/TransactionRepository.cs:82-86 | a written list reads back identical, in the same order and count |
| Storage.Load | Tracker/Tracker/Repositories/TransactionRepository.cs:88-99 | reading fails only on malformed text; a missing file or a `null` document reads as the empty list |
| Text.Lower | Tracker/Tracker/Repositories/TransactionRepository.cs:30 | the lowered text has the argument's length, and each character is its ASCII-lowered counterpart: A-Z become a-z and every other character is kept |
| Repository.Open | Tracker/Tracker/Repositories/TransactionRepository.cs:12-20 | construction fails exactly on a malformed file; otherwise the file mirrors the list afterwards; a document's records become the list; a missing file or `null` document gives the empty list |
| Repository.GetAll | Tracker/Tracker/Repositories/TransactionRepository.cs:22 | while the file mirrors the list, the returned list is exactly what the file reads back as |
| Repository.IndexOf | Tracker/Tracker/Repositories/TransactionRepository.cs:24 | the index found carries the id and no earlier record does; nothing is found exactly when no record carries the id |
| Repository.GetById | Tracker/Tracker/Repositories/TransactionRepository.cs:24 | the result is the first record carrying the id, or none exactly when no record carries it |
| Repository.MaxId | Tracker/Tracker/Repositories/TransactionRepository.cs:52 | the result is at least every id present and is the id of some record |
| Repository.NextId | Tracker/Tracker/Repositories/TransactionRepository.cs:52 | an empty list gets 1; below the ceiling the id exceeds every present id and is one more than some present id; once some id is 2^31-1, the id is -2^31 |
| Repository.Add | Tracker/Tracker/Repositories/TransactionRepository.cs:49-55 | the stored record is the caller's with only its id replaced; it is appended after the unchanged earlier records; the file then mirrors the list |
| Repository.Update | Tracker/Tracker/Repositories/TransactionRepository.cs:57-69 | on a present id, the first such record takes the caller's category, amount, date and description and keeps its id and position; every other record is unchanged; the file is rewritten. On an absent id, list and file are unchanged |
| Repository.Delete | Tracker/Tracker/Repositories/TransactionRepository.cs:71-80 | on a present id, exactly the first such record is removed and the rest keep their order; the file is rewritten. On an absent id, list and file are unchanged |
| Repository.OfClass | Tracker/Tracker/Repositories/TransactionRepository.cs:46 | the result holds every record of the class, with its full multiplicity, and nothing else |
| Repository.GetByCategory | Tracker/Tracker/Repositories/TransactionRepository.cs:28-46 | the class is Income when the lowered argument is `income` and Expense otherwise; the result holds each record of that class with its full multiplicity, and nothing else |
| Properties.AddOnEmptyAssignsOne | Tracker/Tracker/Repositories/TransactionRepository.cs:52 | adding to an empty store assigns id 1 |
| Properties.AddAssignsMaxPlusOne | Tracker/Tracker/Repositories/TransactionRepository.cs:52 | below the ceiling, the new id exceeds every present id and is one more than some present id |
| Properties.AddPreservesUniqueIds | Tracker/Tracker/Repositories/TransactionRepository.cs:52-53 | distinct ids stay distinct after Add while no id is at 2^31-1 |
| Properties.AddWrapsAtCeiling | Tracker/Tracker/Repositories/TransactionRepository.cs:52 | for the list [-2^31, 2^31-1], Add assigns -2^31 again and ids stop being distinct |
| Properties.AddDeleteAddReusesId | Tracker/Tracker/Repositories/TransactionRepository.cs:49-80 | below the ceiling, adding, deleting the added id and adding again restores the list and hands out the same id twice |
| Properties.DeleteMaxThenAddNeverExceeds | Tracker/Tracker/Repositories/TransactionRepository.cs:49-80 | with distinct ids, after deleting the holder of the largest id m, the next id is at most m when other records remain, and exactly 1 when the list is emptied |
| Properties.DeleteLargestExample | Tracker/Tracker/Repositories/TransactionRepository.cs:49-80 | deleting id 2 from ids [1, 2] and adding again hands out 2 |
| Properties.UpdateThenGetById | Tracker/Tracker/Repositories/TransactionRepository.cs:57-69 | after updating a present id, the lookup of that id returns exactly the caller's transaction |
| Properties.UpdateKeepsIds | Tracker/Tracker/Repositories/TransactionRepository.cs:57-69 | Update leaves the sequence of ids unchanged, so distinct ids stay distinct |
| Properties.DeleteThenGetById | Tracker/Tracker/Repositories/TransactionRepository.cs:71-80 | with distinct ids, the lookup of a deleted id finds nothing |
| Properties.DeleteRemovesOne | Tracker/Tracker/Repositories/TransactionRepository.cs:71-80 | deleting a present id shortens the list by one and removes exactly that record from the multiset; distinct ids stay distinct |
| Properties.OfClassAppend | Tracker/Tracker/Repositories/TransactionRepository.cs:46 | the class filter distributes over concatenation, so it keeps the stored order |
| Properties.ClassesPartition | Tracker/Tracker/Repositories/TransactionRepository.cs:31-46 | the income and expense results are disjoint; together they hold every record, their sizes summing to the list's |
| Properties.GetByCategoryIncome | Tracker/Tracker/Repositories/TransactionRepository.cs:28-46 | an argument that lowers to `income` returns exactly the income filter of the list, so stored order and multiplicity are kept; its members are the records whose category is an income one |
| Properties.GetByCategoryOtherIsExpense | Tracker/Tracker/Repositories/TransactionRepository.cs:28-46 | any other argument gives the same result as `expense`, which is the expense filter of the list; its members are the records whose category is an expense one |
| Properties.IncomeAndExpenseQueriesPartition | Tracker/Tracker/Repositories/TransactionRepository.cs:28-46 | the `income` and `expense` queries are disjoint and together hold every record of `GetAll` |
| Properties.ReopenPersisted | Tracker/Tracker/Repositories/TransactionRepository.cs:82-99 | constructing a store from a file that mirrors the list gives back the same store |
| Properties.RunKeepsPersisted | Tracker/Tracker/Repositories/TransactionRepository.cs:49-99 | after any run of Add, Update and Delete calls from a mirrored store, the file mirrors the list and reopening yields the same list |
| Properties.OpenThenRun | Tracker/Tracker/Repositories/TransactionRepository.cs:12-20 | a store constructed from any readable file stays mirrored through any run of calls |

## Left out

- HTTP routing (`Program.cs`) is left out. This covers mapping a missing id to Not Found, copying
  the path id into the body before `Update`, and `Delete` always answering No Content. The
  unsynchronised singleton registration is also left out, because it is a concurrency concern.
- The browser client (`script.js`) is left out. That includes the running balance: the only balance
  computation is there, in floating point. The client's category names (`Allowance`,
  `Side Hustle`) do not match the enumeration's labels.
- The JSON text format and the file-system calls are left out. The file is modelled as one of four
  shapes (`Disk`): missing, `null`, a list of complete transactions, or malformed. Write failures
  (disk full, permission denied) are not modelled: every save succeeds.
- Repository.Open: does not model a file whose list holds `null` entries (such as `[null]`). With
  such a file, the constructor succeeds without rewriting the file. `Add` then always throws
  `NullReferenceException` at `t.Id`, because `Max` visits every record. `GetById`, `Update` and
  `Delete` throw when the null entry comes before the first record with the id, or when the id is
  absent; otherwise they succeed and a save writes the null entry back. `GetByCategory` throws at
  `t.Category` when its result is enumerated past the null entry. `Document` holds only complete
  transactions, so the model cannot express this case.
- Transactions.Transaction: a `null` description is not modelled, because a `string` value cannot
  hold it. Nothing in the repository dereferences the description, so such a record behaves like any
  other, and saving writes the `null` back.
- Categories.Category: stored categories are limited to the seven named values. A C# enum can hold
  any `int`, and the JSON converter accepts integer values both in request bodies and in the file.
  So a record can carry a category such as `(TransactionCategory)7`, which is in neither array.
- Properties.ClassesPartition: holds only because categories are limited to the seven named
  values. A record with an out-of-range category is in neither the income nor the expense result.
- Properties.IncomeAndExpenseQueriesPartition: for the same reason, the two queries cover every
  record only when every stored category is one of the seven named values.
- Repository.GetByCategory: both it and `GetAll` are modelled as snapshots taken at call time. In
  the code, `GetAll` returns the live list and `GetByCategory` returns a deferred `Where` over it;
  only the income/expense choice is fixed at call time. A caller that keeps either result across a
  later `Add`, `Update` or `Delete` sees the change when it enumerates, and enumerating while the
  list is being changed throws `InvalidOperationException`. The snapshots match the code when the
  caller enumerates before the next mutation, as the HTTP handlers do when they return the result.
- Properties.RunKeepsPersisted: records are treated as values, not as shared objects. In the code,
  `Add` stores the caller's own object, and `GetAll` and `GetById` hand out the stored objects
  themselves. A caller that changes an object it holds changes the list without a save, so the file
  mirror holds only for callers that never change the objects they hold (the HTTP handlers do
  not). Likewise `Add(GetById(1))` would overwrite the stored object's id in place and store it
  twice; the model keeps the old record unchanged and appends a copy.
- Categories.Parse: does not model the converter's case-insensitive matching or numeric enum
  values. It accepts only the exact label, because the JSON library is not part of this model.
- `ToLower` is culture-sensitive. It is modelled as ASCII lower-casing, and other letters are left
  unchanged.
- `decimal` range, scale and overflow are left out, because the store does no arithmetic on
  amounts. `DateTime` internals are also left out: a date is an opaque tick count.
- The constructor's write of an empty list is modelled as a write of the value. Whether the file
  existed before that write is not tracked.
