/** The account and dashboard service of api/mockapi.ts: the hard-coded
    login, signup validation, and MockApiService over the shared `mockData`
    record (a list of borrowed books and a stats record kept beside it). */
module MockApi {
  import opened Common

  datatype User = User(id: int, name: string, email: string, dob: Option<string>, token: string)

  /** A borrowed book. Dates are UTC day numbers. The `now` of the operations
      below is the day after the current UTC day, so `returnDate < now` holds
      from the start of the due day on, as `new Date(returnDate) < new Date()`
      does; `today` is the current UTC day. */
  datatype Book = Book(
    id: int,
    title: string,
    author: string,
    borrowDate: int,
    returnDate: int,
    isOverdue: bool)

  datatype Stats = Stats(totalBorrowed: int, currentlyBorrowed: int, returned: int, overdue: int)

  /** The `mockData` fields the service reads and writes. */
  datatype Store = Store(borrowedBooks: seq<Book>, stats: Stats)

  datatype Error = InvalidCredentials | MissingFields | InvalidEmailFormat | BookNotFound

  const MockToken: string := "mock-jwt-token-123"
  const MockUser: User := User(1, "John Doe", "john@example.com", None, MockToken)
  const MockPassword: string := "password123"

  // ---------------------------------------------------------------- authentication

  /** login: only the hard-coded account is accepted. */
  function Login(email: string, password: string): (r: Result<User, Error>)
    ensures r.Success? <==> email == "john@example.com" && password == "password123"
    ensures r.Success? ==> r.data == MockUser
    ensures r.Failure? ==> r.error == InvalidCredentials
  {
    if email == MockUser.email && password == MockPassword then Success(MockUser)
    else Failure(InvalidCredentials)
  }

  /** signup: every field must be non-empty (checked first), then the email
      must contain '@'. `id` stands for the source's Date.now(). */
  function Signup(name: string, email: string, password: string, dob: string, id: int): (r: Result<User, Error>)
    ensures r == Failure(MissingFields) <==> name == "" || email == "" || password == "" || dob == ""
    ensures r == Failure(InvalidEmailFormat) <==>
              name != "" && email != "" && password != "" && dob != "" && '@' !in email
    ensures r.Success? <==> name != "" && email != "" && password != "" && dob != "" && '@' in email
    ensures r.Success? ==> r.data == User(id, name, email, Some(dob), "mock-jwt-token-123")
  {
    if name == "" || email == "" || password == "" || dob == "" then Failure(MissingFields)
    else if '@' !in email then Failure(InvalidEmailFormat)
    else Success(User(id, name, email, Some(dob), MockToken))
  }

  // ---------------------------------------------------------------- the borrowed list

  /** The seed of constants/MockData.ts; dates are days since 1970-01-01. */
  function Seed(): Store {
    Store(
      [ Book(1, "The Great Gatsby", "F. Scott Fitzgerald", 19858, 19872, false),
        Book(2, "To Kill a Mockingbird", "Harper Lee", 19853, 19867, true),
        Book(3, "1984", "George Orwell", 19863, 19877, false) ],
      Stats(12, 3, 9, 1))
  }

  /** The stats record agrees with the list: every loan is either current or
      returned, and the current ones are the list. */
  predicate Consistent(st: Store) {
    && st.stats.totalBorrowed == st.stats.currentlyBorrowed + st.stats.returned
    && st.stats.currentlyBorrowed == |st.borrowedBooks|
  }

  function DueBefore(now: int): Book -> bool { (b: Book) => b.returnDate < now }
  predicate IsOverdue(b: Book) { b.isOverdue }

  /** The number of loans whose due date lies before `now`. */
  function OverdueCount(s: seq<Book>, now: int): (n: nat)
    ensures n <= |s|
    ensures n == 0 <==> forall j :: 0 <= j < |s| ==> s[j].returnDate >= now
  {
    FilterMembers(s, DueBefore(now));
    var due := Filter(s, DueBefore(now));
    assert due != [] ==> due[0] in s && due[0].returnDate < now;
    |due|
  }

  /** findIndex / find by id. */
  function IndexOfId(s: seq<Book>, id: int): (r: Option<nat>)
    ensures r.None? <==> forall j :: 0 <= j < |s| ==> s[j].id != id
    ensures r.Some? ==> r.value < |s| && s[r.value].id == id
    ensures r.Some? ==> forall j :: 0 <= j < r.value ==> s[j].id != id
  {
    FindIndex(s, (b: Book) => b.id == id)
  }

  /** getBorrowedBooks: copies of the list with every flag recomputed against
      `now`; the stored flags are not written back. */
  function GetBorrowedBooks(s: seq<Book>, now: int): (r: seq<Book>)
    ensures |r| == |s|
    ensures forall i :: 0 <= i < |s| ==> r[i].isOverdue == (s[i].returnDate < now)
    ensures forall i :: 0 <= i < |s| ==> r[i].(isOverdue := s[i].isOverdue) == s[i]
  {
    if s == [] then []
    else
      var last := s[|s| - 1];
      GetBorrowedBooks(s[..|s| - 1], now) + [last.(isOverdue := last.returnDate < now)]
  }

  /** The recomputed flags count exactly the loans due before `now`. */
  lemma {:induction false} BorrowedViewCountsOverdue(s: seq<Book>, now: int)
    ensures |Filter(GetBorrowedBooks(s, now), IsOverdue)| == OverdueCount(s, now)
  {
    if s != [] {
      var front, last := s[..|s| - 1], s[|s| - 1];
      assert s == front + [last];
      BorrowedViewCountsOverdue(front, now);
      FilterSnoc(GetBorrowedBooks(front, now), last.(isOverdue := last.returnDate < now), IsOverdue);
      FilterSnoc(front, last, DueBefore(now));
    }
  }

  // ---------------------------------------------------------------- transitions

  /** returnBook: splice out the first loan with the id, move one count from
      currentlyBorrowed to returned, and recount overdue against `now`. */
  function Return(st: Store, id: int, now: int): (o: Step<Result<bool, Error>, Store>)
    ensures o.reply.Failure? <==> forall j :: 0 <= j < |st.borrowedBooks| ==> st.borrowedBooks[j].id != id
    ensures o.reply.Failure? ==> o == Step(Failure(BookNotFound), st)
    ensures o.reply.Success? ==>
              var s, i := st.borrowedBooks, IndexOfId(st.borrowedBooks, id).value;
              && o.reply == Success(true)
              && s[i].id == id
              && (forall j :: 0 <= j < i ==> s[j].id != id)
              && o.next.borrowedBooks == s[..i] + s[i + 1..]
              && o.next.stats.currentlyBorrowed == st.stats.currentlyBorrowed - 1
              && o.next.stats.returned == st.stats.returned + 1
              && o.next.stats.totalBorrowed == st.stats.totalBorrowed
              && o.next.stats.overdue == OverdueCount(o.next.borrowedBooks, now)
    ensures Consistent(st) ==> Consistent(o.next)
  {
    match IndexOfId(st.borrowedBooks, id)
    case None => Step(Failure(BookNotFound), st)
    case Some(i) =>
      var rest := st.borrowedBooks[..i] + st.borrowedBooks[i + 1..];
      var stats := st.stats.(
        currentlyBorrowed := st.stats.currentlyBorrowed - 1,
        returned := st.stats.returned + 1,
        overdue := OverdueCount(rest, now));
      Step(Success(true), Store(rest, stats))
  }

  /** borrowBook: push a new loan due `daysToReturn` days (two weeks unless
      given) after `today`, and count it as borrowed. `id` stands for the
      source's Date.now(). */
  function Borrow(st: Store, id: int, today: int, title: string, author: string, daysToReturn: int := 14)
    : (o: Step<Book, Store>)
    ensures o.reply.borrowDate == today && o.reply.returnDate == o.reply.borrowDate + daysToReturn
    ensures o.reply.id == id && o.reply.title == title && o.reply.author == author && !o.reply.isOverdue
    ensures o.next.borrowedBooks == st.borrowedBooks + [o.reply]
    ensures o.next.stats.currentlyBorrowed == st.stats.currentlyBorrowed + 1
    ensures o.next.stats.totalBorrowed == st.stats.totalBorrowed + 1
    ensures o.next.stats.returned == st.stats.returned
    ensures o.next.stats.overdue == st.stats.overdue
    ensures Consistent(st) ==> Consistent(o.next)
  {
    var book := Book(id, title, author, today, today + daysToReturn, false);
    var stats := st.stats.(
      currentlyBorrowed := st.stats.currentlyBorrowed + 1,
      totalBorrowed := st.stats.totalBorrowed + 1);
    Step(book, Store(st.borrowedBooks + [book], stats))
  }

  /** extendReturnDate: the first loan with the id is due `additionalDays`
      later and its flag is cleared (overdue or not); overdue is recounted. */
  function Extend(st: Store, id: int, additionalDays: int, now: int): (o: Step<Result<Book, Error>, Store>)
    ensures o.reply.Failure? <==> forall j :: 0 <= j < |st.borrowedBooks| ==> st.borrowedBooks[j].id != id
    ensures o.reply.Failure? ==> o == Step(Failure(BookNotFound), st)
    ensures o.reply.Success? ==>
              var s, i := st.borrowedBooks, IndexOfId(st.borrowedBooks, id).value;
              var s' := o.next.borrowedBooks;
              && |s'| == |s|
              && s'[i] == s[i].(returnDate := s[i].returnDate + additionalDays, isOverdue := false)
              && o.reply.data == s'[i]
              && (forall j :: 0 <= j < |s| && j != i ==> s'[j] == s[j])
              && o.next.stats == st.stats.(overdue := OverdueCount(s', now))
    ensures Consistent(st) ==> Consistent(o.next)
  {
    match IndexOfId(st.borrowedBooks, id)
    case None => Step(Failure(BookNotFound), st)
    case Some(i) =>
      var b := st.borrowedBooks[i];
      var extended := b.(returnDate := b.returnDate + additionalDays, isOverdue := false);
      var books := st.borrowedBooks[i := extended];
      Step(Success(extended), Store(books, st.stats.(overdue := OverdueCount(books, now))))
  }

  /** getDashboardData: the stats with overdue recounted, and refreshed copies
      of the list; only stats.overdue is written back. */
  function Dashboard(st: Store, now: int): (o: Step<(Stats, seq<Book>), Store>)
    ensures o.next.borrowedBooks == st.borrowedBooks
    ensures o.next.stats == st.stats.(overdue := OverdueCount(st.borrowedBooks, now))
    ensures o.reply.0 == o.next.stats
    ensures o.reply.1 == GetBorrowedBooks(st.borrowedBooks, now)
    ensures o.reply.0.overdue == |Filter(o.reply.1, IsOverdue)|
    ensures Consistent(st) ==> Consistent(o.next)
  {
    var updated := GetBorrowedBooks(st.borrowedBooks, now);
    BorrowedViewCountsOverdue(st.borrowedBooks, now);
    var stats := st.stats.(overdue := |Filter(updated, IsOverdue)|);
    Step((stats, updated), Store(st.borrowedBooks, stats))
  }

  // ---------------------------------------------------------------- properties

  /** Borrowing under a fresh id and returning that id gives back the list, and
      leaves one more loan counted in totalBorrowed and in returned. */
  lemma BorrowThenReturn(st: Store, id: int, today: int, title: string, author: string, daysToReturn: int, now: int)
    requires forall j :: 0 <= j < |st.borrowedBooks| ==> st.borrowedBooks[j].id != id
    ensures var mid := Borrow(st, id, today, title, author, daysToReturn).next;
            var o := Return(mid, id, now);
            && o.reply == Success(true)
            && o.next.borrowedBooks == st.borrowedBooks
            && o.next.stats.currentlyBorrowed == st.stats.currentlyBorrowed
            && o.next.stats.totalBorrowed == st.stats.totalBorrowed + 1
            && o.next.stats.returned == st.stats.returned + 1
            && o.next.stats.overdue == OverdueCount(st.borrowedBooks, now)
  {
    var mid := Borrow(st, id, today, title, author, daysToReturn).next;
    var n := |st.borrowedBooks|;
    assert mid.borrowedBooks[n].id == id;
    assert IndexOfId(mid.borrowedBooks, id) == Some(n) by {
      var k := IndexOfId(mid.borrowedBooks, id);
      assert forall j :: 0 <= j < n ==> mid.borrowedBooks[j].id != id;
    }
    assert mid.borrowedBooks[..n] + mid.borrowedBooks[n + 1..] == st.borrowedBooks;
  }

  /** Overwriting a loan by one with the same id does not move any id's first position. */
  lemma IndexOfIdUpdate(s: seq<Book>, i: nat, b: Book, id: int)
    requires i < |s| && s[i].id == b.id
    ensures IndexOfId(s[i := b], id) == IndexOfId(s, id)
  {
    var t := s[i := b];
    assert forall j :: 0 <= j < |s| ==> t[j].id == s[j].id;
  }

  /** Without a loan period, a borrowed book is due two weeks after `today`. */
  lemma BorrowDefaultsToTwoWeeks(st: Store, id: int, today: int, title: string, author: string)
    ensures Borrow(st, id, today, title, author).reply.returnDate == today + 14
  {
  }

  /** Extending twice against the same clock is one extension by the sum. */
  lemma ExtendTwice(st: Store, id: int, a: int, b: int, now: int)
    requires Extend(st, id, a, now).reply.Success?
    ensures Extend(Extend(st, id, a, now).next, id, b, now).next == Extend(st, id, a + b, now).next
  {
    var books, i := st.borrowedBooks, IndexOfId(st.borrowedBooks, id).value;
    var once := books[i].(returnDate := books[i].returnDate + a, isOverdue := false);
    var twice := once.(returnDate := once.returnDate + b, isOverdue := false);
    var mid := Store(books[i := once], st.stats.(overdue := OverdueCount(books[i := once], now)));
    assert Extend(st, id, a, now).next == mid;
    IndexOfIdUpdate(books, i, once, id);
    assert mid.borrowedBooks[i := twice] == books[i := twice];
  }

  /** A successful return removes exactly one loan. */
  lemma ReturnRemovesOne(st: Store, id: int, now: int)
    requires Return(st, id, now).reply.Success?
    ensures |Return(st, id, now).next.borrowedBooks| == |st.borrowedBooks| - 1
    ensures multiset(Return(st, id, now).next.borrowedBooks) + multiset{st.borrowedBooks[IndexOfId(st.borrowedBooks, id).value]}
            == multiset(st.borrowedBooks)
  {
    var s, i := st.borrowedBooks, IndexOfId(st.borrowedBooks, id).value;
    assert s == s[..i] + [s[i]] + s[i + 1..];
  }

  // ---------------------------------------------------------------- the service

  /** MockApiService together with the `mockData` record it works on. */
  class MockApiService {
    var borrowedBooks: seq<Book>
    var stats: Stats

    function State(): Store
      reads this
    {
      Store(borrowedBooks, stats)
    }

    constructor ()
      ensures State() == Seed()
      ensures Consistent(State())
    {
      borrowedBooks := Seed().borrowedBooks;
      stats := Seed().stats;
    }

    method ReturnBook(bookId: int, now: int) returns (r: Result<bool, Error>)
      modifies this
      ensures Step(r, State()) == Return(old(State()), bookId, now)
      ensures old(Consistent(State())) ==> Consistent(State())
    {
      var index := IndexOfId(borrowedBooks, bookId);
      if index.None? {
        return Failure(BookNotFound);
      }
      var i := index.value;
      borrowedBooks := borrowedBooks[..i] + borrowedBooks[i + 1..];
      stats := stats.(
        currentlyBorrowed := stats.currentlyBorrowed - 1,
        returned := stats.returned + 1,
        overdue := OverdueCount(borrowedBooks, now));
      r := Success(true);
    }

    method BorrowBook(id: int, today: int, title: string, author: string, daysToReturn: int := 14) returns (r: Book)
      modifies this
      ensures Step(r, State()) == Borrow(old(State()), id, today, title, author, daysToReturn)
      ensures old(Consistent(State())) ==> Consistent(State())
    {
      r := Book(id, title, author, today, today + daysToReturn, false);
      borrowedBooks := borrowedBooks + [r];
      stats := stats.(
        currentlyBorrowed := stats.currentlyBorrowed + 1,
        totalBorrowed := stats.totalBorrowed + 1);
    }

    method ExtendReturnDate(bookId: int, additionalDays: int, now: int) returns (r: Result<Book, Error>)
      modifies this
      ensures Step(r, State()) == Extend(old(State()), bookId, additionalDays, now)
      ensures old(Consistent(State())) ==> Consistent(State())
    {
      var index := IndexOfId(borrowedBooks, bookId);
      if index.None? {
        return Failure(BookNotFound);
      }
      var i := index.value;
      var book := borrowedBooks[i];
      book := book.(returnDate := book.returnDate + additionalDays, isOverdue := false);
      borrowedBooks := borrowedBooks[i := book];
      stats := stats.(overdue := OverdueCount(borrowedBooks, now));
      r := Success(book);
    }

    method GetDashboardData(now: int) returns (r: (Stats, seq<Book>))
      modifies this
      ensures Step(r, State()) == Dashboard(old(State()), now)
      ensures old(Consistent(State())) ==> Consistent(State())
    {
      var updated := GetBorrowedBooks(borrowedBooks, now);
      stats := stats.(overdue := |Filter(updated, IsOverdue)|);
      r := (stats, updated);
    }
  }
}
