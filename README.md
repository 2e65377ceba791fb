# Library app mock services in Dafny

This project models the three in-memory services behind the library app:

- `BookAPI` (api/bookAPI.ts) is the catalog over the module-level
  `booksDatabase` table. It searches by query, genre and availability, looks a
  book up by id, borrows and returns by flipping `available`, adds a book
  under the id max + 1, lists the genres, and computes catalog statistics.
- `mockApi` (api/cataloApi.ts) holds a reader's loans in `mockBooksData`. It
  fetches them (recomputing and writing back the overdue flags), returns one
  loan, returns every current loan, renews a loan by 14 days, and counts
  current and overdue loans.
- api/mockapi.ts contains `login` and `signup`, and `MockApiService` over
  `mockData`. `mockData` is a list of borrowed books with a stats record kept
  beside it, seeded from constants/MockData.ts.

Each module is laid out the same way:

- Every query is a function over the table.
- Every state-changing operation is a transition function that returns
  `Step(reply, next table)`. Its contract states the reply, the new table and
  the error cases.
- A class holds the mutable table (`BookDatabase`, `BorrowedStore`,
  `MockApiService`). Each of its methods is proved equal to the transition
  function on the old state.
- Lemmas relate operations to each other: round trips, idempotence and the
  invariants they preserve.

`Common.Filter`, `Common.FindIndex` and `Common.Distinct` model
`Array.prototype.filter`, `findIndex` and `Array.from(new Set(...))`.

Modelling conventions:

- Dates are UTC day numbers. A date-only string such as "2024-05-29" is
  midnight UTC of that day, so the source's `new Date(returnDate) < new Date()`
  holds from the start of the due day on. The parameter `now` is therefore
  the day after the current UTC day: `returnDate < now` means "due on or
  before today". `today` (the borrow date of mockapi's `borrowBook`) is the
  current UTC day.
- A `Date.now()` id is a parameter.
- An absent search query or genre is `""`. The source treats both the same
  way, because both are falsy.
- Replies are `Result` values with error tags in place of message strings.

Behaviour of the code that the model keeps:

- cataloApi's return-all, renew and statistics read the stored `isOverdue`
  flag. That flag changes only in `fetchBorrowedBooks`; it is never
  recomputed against the clock (`CataloApi.ReturnAll`, `CataloApi.Renew`,
  `CataloApi.GetBookStats`).
- `extendReturnDate` clears the flag even on a loan that is still past due.

## Model

| member | source | states |
|---|---|---|
| Common.Filter | api/bookAPI.ts:354-372 | the filtered array is no longer than the input and is a subsequence of it (order kept) |
| Common.FilterMembers | api/cataloApi.ts:110 | every kept element is from the input and satisfies the predicate; every input element that satisfies it is kept |
| Common.FilterFusion | api/bookAPI.ts:352-373 | two chained filters equal one filter by the conjunction |
| Common.FilterComplement | api/bookAPI.ts:559-561 | filtering by a predicate and by its negation splits the input: the lengths add up |
| Common.FindIndex | api/bookAPI.ts:420 | None only if no element matches; otherwise the index of the first match |
| Common.Distinct | api/bookAPI.ts:504-506 | each input element exactly once, no duplicates, in order of first appearance |
| BookApi.Lower | api/bookAPI.ts:353 | lower-casing keeps the length and maps each character through the ASCII lower-case map |
| BookApi.IncludesIsSubstring | api/bookAPI.ts:356-357 | `includes` holds iff the query occurs in the text at some position |
| BookApi.IndexOfId | api/bookAPI.ts:420 | None iff no record has the id; otherwise the first record with it |
| BookApi.GetBookById | api/bookAPI.ts:389-405 | success iff some record has the id; the reply is the first such record; otherwise BookNotFound |
| BookApi.ByQuery | api/bookAPI.ts:352-360 | equals one filter that keeps every record when the query is empty, and otherwise the records whose lower-cased title or author contains the lower-cased query |
| BookApi.ByGenre | api/bookAPI.ts:362-366 | equals one filter that keeps every record when the genre is "" or "All", and otherwise the records of that genre |
| BookApi.ByAvailability | api/bookAPI.ts:369-373 | equals one filter that keeps every record when no flag is given, and otherwise the records whose availability equals it |
| BookApi.Search | api/bookAPI.ts:345-375 | every result is a table record meeting every active filter; every such record is returned; with no active filter the whole table is returned |
| BookApi.SearchIsOneFilter | api/bookAPI.ts:349-373 | the three chained stages equal one filter by the conjunction of the filters |
| BookApi.SearchKeepsOrder | api/bookAPI.ts:349-373 | the results keep the table's order |
| BookApi.Borrow | api/bookAPI.ts:416-447 | BookNotFound iff the id is absent; NotAvailableForBorrowing iff its first record is unavailable; failures change nothing; on success only that record's `available` becomes false and it is the reply |
| BookApi.Return | api/bookAPI.ts:458-489 | BookNotFound iff the id is absent; AlreadyAvailable iff its first record is available; failures change nothing; on success only that record's `available` becomes true and it is the reply |
| BookApi.BorrowThenReturn | api/bookAPI.ts:416-489 | a successful borrow then a return of the same id succeeds and restores the table |
| BookApi.ReturnThenBorrow | api/bookAPI.ts:416-489 | a successful return then a borrow of the same id succeeds and restores the table |
| BookApi.MaxId | api/bookAPI.ts:526 | an upper bound of the ids that one record attains |
| BookApi.Add | api/bookAPI.ts:522-532 | appends the given fields under an id above every existing id (max + 1); earlier records unchanged; distinct ids stay distinct |
| BookApi.AddThenGet | api/bookAPI.ts:522-532 | looking up the new id finds the added record |
| BookApi.GetGenres | api/bookAPI.ts:500-510 | "All" first, then each genre present in the table exactly once, in order of first appearance |
| BookApi.CountGenreAbsent | api/bookAPI.ts:563-566 | a genre no record has is counted zero times |
| BookApi.CountGenre | api/bookAPI.ts:563-566 | the count of a genre is the number of records the filter by that genre keeps |
| BookApi.Tally | api/bookAPI.ts:564 | one reduce step adds the genre to the keys, sets its entry to the old entry (or 0) plus one, and leaves every other entry unchanged |
| BookApi.GenreDistribution | api/bookAPI.ts:563-566 | the keys are exactly the genres present, and each maps to its number of records |
| BookApi.GetStats | api/bookAPI.ts:548-576 | total is the table size; available plus borrowed is the total; borrowed counts the unavailable records; the histogram as above |
| BookApi.DistributionSumsToTotal | api/bookAPI.ts:559-566 | the histogram counts over the listed genres add up to totalBooks |
| BookApi.BookDatabase.constructor | api/bookAPI.ts:15 | the table starts as the (non-empty) seed |
| BookApi.BookDatabase.BorrowBook | api/bookAPI.ts:416-455 | reply and new table are those of Borrow on the old table; the table stays non-empty |
| BookApi.BookDatabase.ReturnBook | api/bookAPI.ts:458-497 | reply and new table are those of Return on the old table; the table stays non-empty |
| BookApi.BookDatabase.AddBook | api/bookAPI.ts:522-545 | reply and new table are those of Add on the old table |
| CataloApi.IndexOfId | api/cataloApi.ts:100 | None iff no loan has the id; otherwise the first loan with it |
| CataloApi.RefreshOverdue | api/cataloApi.ts:74-80 | same loans in the same order; each flag is `returnDate < now`; nothing else changes |
| CataloApi.RefreshCountsOverdue | api/cataloApi.ts:74-80 | after a refresh the flagged loans are exactly as many as the loans due before `now` |
| CataloApi.BorrowedStore.constructor | api/cataloApi.ts:19 | the store starts as the given seed |
| CataloApi.BorrowedStore.FetchBorrowedBooks | api/cataloApi.ts:69-93 | the refreshed flags are written back and the reply is the new table |
| CataloApi.Remove | api/cataloApi.ts:96-115 | BookNotFound iff the id is absent, changing nothing; otherwise replies with the first loan with the id and keeps exactly the loans with other ids, in order |
| CataloApi.RemoveTwice | api/cataloApi.ts:100-110 | returning the same id again fails with BookNotFound and changes nothing |
| CataloApi.BorrowedStore.ReturnBook | api/cataloApi.ts:96-123 | reply and new table are those of Remove on the old table |
| CataloApi.ReturnAll | api/cataloApi.ts:126-136 | replies with the loans whose stored flag is false and keeps those whose flag is true, both in order, together the whole table |
| CataloApi.BorrowedStore.ReturnAllBooks | api/cataloApi.ts:126-144 | reply and new table are those of ReturnAll on the old table |
| CataloApi.GetBookStats | api/cataloApi.ts:197-210 | current is the number of unflagged loans and overdue the number of flagged ones; they add up to the number of loans; current is zero iff every loan is flagged; overdue is zero iff none is |
| CataloApi.ReturnAllLeavesNoCurrent | api/cataloApi.ts:126-210 | after returning all, no current loan is left and the overdue count is unchanged |
| CataloApi.Renew | api/cataloApi.ts:147-179 | BookNotFound iff the id is absent; OverdueCannotBeRenewed iff the first loan with it is flagged; failures change nothing; on success only that loan's due date moves 14 days later and it is the reply |
| CataloApi.RenewKeepsStats | api/cataloApi.ts:147-210 | renewing leaves the current and overdue counts unchanged |
| CataloApi.RenewTwice | api/cataloApi.ts:170-179 | two successful renewals move the due date 28 days |
| CataloApi.BorrowedStore.RenewBook | api/cataloApi.ts:147-189 | reply and new table are those of Renew on the old table |
| MockApi.Login | api/mockapi.ts:26-43 | success iff the email is john@example.com and the password is password123, replying with the mock user; otherwise InvalidCredentials |
| MockApi.Signup | api/mockapi.ts:45-63 | MissingFields iff a field is empty; InvalidEmailFormat iff all are filled and the email has no '@'; success iff all are filled and the email has an '@', with a user echoing the fields and the mock token |
| MockApi.IndexOfId | api/mockapi.ts:142 | None iff no loan has the id; otherwise the first loan with it |
| MockApi.GetBorrowedBooks | api/mockapi.ts:113-121 | same loans in the same order with each flag recomputed as `returnDate < now`; nothing else changes |
| MockApi.BorrowedViewCountsOverdue | api/mockapi.ts:264-270 | the recomputed flags count exactly the loans due before `now` |
| MockApi.OverdueCount | api/mockapi.ts:160-162 | the recount of loans due before `now` is at most the number of loans, and is zero iff no loan is due before `now` |
| MockApi.Return | api/mockapi.ts:137-163 | BookNotFound iff the id is absent, changing nothing; otherwise splices out the first loan with it, moves one count from current to returned, keeps the total, recounts overdue; keeps the stats consistent with the list |
| MockApi.ReturnRemovesOne | api/mockapi.ts:142-157 | a successful return removes exactly that one loan (as a multiset) |
| MockApi.Borrow | api/mockapi.ts:180-202 | pushes a loan with the given fields due daysToReturn days (14 by default) after today and not overdue; current and total go up by one; keeps the stats consistent |
| MockApi.BorrowDefaultsToTwoWeeks | api/mockapi.ts:180-186 | without a loan period the new loan is due 14 days after today |
| MockApi.BorrowThenReturn | api/mockapi.ts:137-202 | borrowing under a fresh id and returning it restores the list, with one more loan counted as total and as returned |
| MockApi.Extend | api/mockapi.ts:219-242 | BookNotFound iff the id is absent, changing nothing; otherwise only the first loan with it is due additionalDays later and unflagged, and overdue is recounted |
| MockApi.ExtendTwice | api/mockapi.ts:233-242 | two extensions against the same day are one extension by the sum |
| MockApi.Dashboard | api/mockapi.ts:259-270 | replies with refreshed copies of the list and the stats whose overdue is their flagged count; only stats.overdue is written back |
| MockApi.MockApiService.constructor | constants/MockData.ts:7-42 | the seeded state: three loans and stats 12/3/9/1, which are consistent |
| MockApi.MockApiService.ReturnBook | api/mockapi.ts:137-175 | reply and new state are those of Return on the old state; consistency is preserved |
| MockApi.MockApiService.BorrowBook | api/mockapi.ts:180-215 | reply and new state are those of Borrow on the old state; consistency is preserved |
| MockApi.MockApiService.ExtendReturnDate | api/mockapi.ts:219-255 | reply and new state are those of Extend on the old state; consistency is preserved |
| MockApi.MockApiService.GetDashboardData | api/mockapi.ts:259-285 | reply and new state are those of Dashboard on the old state; consistency is preserved |

## Left out

- `BookAPI.getAllBooks`: left out because it only replies with a copy of the table.
- `MockApiService.getStats`: left out because it only replies with the stats field.
- Delays (`setTimeout`, `simulateDelay`, `delay`) and promises: left out because they do not change what an operation computes. The try/catch wrappers are left out too; their catch branches are discussed under CataloApi.Renew, MockApi.Borrow and MockApi.Extend below. The other modelled operations do not throw on the tables the model represents.
- Timing: the model has no concurrency, so calls that overlap during a delay are not modelled.
- Reply message strings: replaced by error tags and the `Result` shape.
- Date arithmetic: dates are whole days. `toISOString` can shift a date across a daylight-saving change when `setDate` works in local time. The comparison of an instant with a date-only string is modelled at day granularity (see the `now` convention above); the single instant exactly at midnight UTC, which the source does not yet count as overdue, is not distinguished.
- `getReturnDate` (api/bookAPI.ts:591-595): left out because it only formats a date from the clock.
- `Date.now()`: ids and today's date are parameters.
- `toLowerCase` is modelled for ASCII letters only.
- The seed tables of api/bookAPI.ts and api/cataloApi.ts: the constructors take the initial table instead. Only the mockapi.ts seed is written out, in `MockApi.Seed`.
- Object aliasing: objects the source returns by reference (records, the stats object) are values here. A caller that mutated them would change the table; the model cannot show that.
- The `catalogBooks` part of constants/MockData.ts: no modelled operation reads it.
- BookApi.Add: requires a non-empty table. On an empty table the source computes the id as `Math.max()` of nothing plus one, which is -Infinity, and an `int` cannot hold it.
- BookApi.BookDatabase.AddBook: same precondition as BookApi.Add, kept through `Valid()`.
- BookApi.GenreDistribution: models the histogram as a map from every genre to its count. The source builds it with a reduce from the plain object `{}`, which reads inherited properties. For a genre that names a property inherited from Object.prototype, `acc[genre] || 0` is that inherited value, not 0. For "constructor", "toString", "valueOf", "hasOwnProperty", "isPrototypeOf", "propertyIsEnumerable", "toLocaleString", "__defineGetter__" and the like, the entry becomes a string such as "function Object() { [native code] }1". For "__proto__" the value is the string "[object Object]1"; the `__proto__` setter ignores a value that is not an object, so the assignment is ignored and no key appears. `addBook` accepts any genre, so these cases can occur. The model instead reports the key present with its record count.
- BookApi.GetStats: its `genreDistribution` is that of BookApi.GenreDistribution, so it has the same gap for genres named after properties inherited from Object.prototype; its total, available and borrowed counts are exact.
- CataloApi.Renew: on an unflagged loan it always succeeds. In the source, `toISOString()` throws a RangeError once the new due date leaves the JavaScript Date range (about 100,000,000 days either side of 1970), or when the stored date string is not a valid date. The catch branch then replies failure ("Failed to renew book") before the table is written, so the state is unchanged. Integer day numbers have no such limit and are always valid dates.
- MockApi.Borrow: always succeeds. In the source, `toISOString()` throws a RangeError when `daysToReturn` is NaN or pushes the date outside the JavaScript Date range (about 100,000,000 days either side of 1970). The catch branch then replies failure ("Failed to borrow book") before anything is pushed or counted, so the state is unchanged. Unbounded integer day numbers do not represent NaN or that range limit.
- MockApi.Extend: same gap on a successful lookup. `toISOString()` throws for a NaN or out-of-range `additionalDays`, and the catch replies failure ("Failed to extend return date") before `returnDate`, the flag or the stats are assigned. The model extends by any integer.
