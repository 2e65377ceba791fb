/** The borrowed-books store of api/cataloApi.ts: the `mockBooksData` table of
    a reader's loans, written back by fetch, return, return-all and renew. */
module CataloApi {
  import opened Common

  /** A loan. Dates are UTC day numbers. The `now` of fetch is the day after
      the current UTC day, so `returnDate < now` holds from the start of the
      due day on, as `new Date(returnDate) < currentDate` does. */
  datatype Book = Book(
    id: int,
    title: string,
    author: string,
    cover: string,
    borrowDate: int,
    returnDate: int,
    isOverdue: bool)

  datatype Error = BookNotFound | OverdueCannotBeRenewed

  datatype BookStats = BookStats(current: nat, overdue: nat)

  /** renewBook moves the due date this many days later. */
  const RenewalDays: int := 14

  predicate IsOverdue(b: Book) { b.isOverdue }
  predicate IsCurrent(b: Book) { !b.isOverdue }

  /** findIndex by id. */
  function IndexOfId(s: seq<Book>, id: int): (r: Option<nat>)
    ensures r.None? <==> forall j :: 0 <= j < |s| ==> s[j].id != id
    ensures r.Some? ==> r.value < |s| && s[r.value].id == id
    ensures r.Some? ==> forall j :: 0 <= j < r.value ==> s[j].id != id
  {
    FindIndex(s, (b: Book) => b.id == id)
  }

  // ---------------------------------------------------------------- fetch

  /** The map of fetchBorrowedBooks: every flag recomputed against `now`. */
  function RefreshOverdue(s: seq<Book>, now: int): (r: seq<Book>)
    ensures |r| == |s|
    ensures forall i :: 0 <= i < |s| ==> r[i].isOverdue == (s[i].returnDate < now)
    ensures forall i :: 0 <= i < |s| ==> r[i].(isOverdue := s[i].isOverdue) == s[i]
  {
    if s == [] then []
    else
      var last := s[|s| - 1];
      RefreshOverdue(s[..|s| - 1], now) + [last.(isOverdue := last.returnDate < now)]
  }

  /** Recomputing twice against the same clock changes nothing more. */
  lemma RefreshIdempotent(s: seq<Book>, now: int)
    ensures RefreshOverdue(RefreshOverdue(s, now), now) == RefreshOverdue(s, now)
  {
  }

  function OverdueTest(now: int): Book -> bool { (b: Book) => b.returnDate < now }

  /** After a fetch the stored flags count the loans due before `now`. */
  lemma {:induction false} RefreshCountsOverdue(s: seq<Book>, now: int)
    ensures |Filter(RefreshOverdue(s, now), IsOverdue)| == |Filter(s, OverdueTest(now))|
  {
    if s != [] {
      var front, last := s[..|s| - 1], s[|s| - 1];
      assert s == front + [last];
      RefreshCountsOverdue(front, now);
      var r := RefreshOverdue(front, now);
      FilterSnoc(r, last.(isOverdue := last.returnDate < now), IsOverdue);
      FilterSnoc(front, last, OverdueTest(now));
    }
  }

  // ---------------------------------------------------------------- return

  function IdTest(id: int): Book -> bool { (b: Book) => b.id == id }
  function OtherIdTest(id: int): Book -> bool { (b: Book) => b.id != id }

  /** returnBook: fails for an unknown id; otherwise replies with the first
      loan with the id and drops every loan with that id. */
  function Remove(s: seq<Book>, id: int): (o: Step<Result<Book, Error>, seq<Book>>)
    ensures o.reply.Failure? <==> forall j :: 0 <= j < |s| ==> s[j].id != id
    ensures o.reply.Failure? ==> o == Step(Failure(BookNotFound), s)
    ensures o.reply.Success? ==> o.reply.data == s[IndexOfId(s, id).value]
    ensures forall i :: 0 <= i < |o.next| ==> o.next[i] in s && o.next[i].id != id
    ensures forall i :: 0 <= i < |s| && s[i].id != id ==> s[i] in o.next
    ensures IsSubsequence(o.next, s)
    ensures |o.next| + |Filter(s, IdTest(id))| == |s|
  {
    FilterComplement(s, OtherIdTest(id), IdTest(id));
    FilterMembers(s, OtherIdTest(id));
    match IndexOfId(s, id)
    case None =>
      FilterAll(s, OtherIdTest(id));
      Step(Failure(BookNotFound), s)
    case Some(i) => Step(Success(s[i]), Filter(s, OtherIdTest(id)))
  }

  /** Once a book is returned, returning it again fails and changes nothing. */
  lemma RemoveTwice(s: seq<Book>, id: int)
    ensures Remove(Remove(s, id).next, id) == Step(Failure(BookNotFound), Remove(s, id).next)
  {
    var next := Remove(s, id).next;
    assert forall j :: 0 <= j < |next| ==> next[j].id != id by {
      forall j | 0 <= j < |next| ensures next[j].id != id {
        assert next[j] in s && next[j].id != id;
      }
    }
  }

  /** returnAllBooks: replies with the loans whose stored flag is false and
      keeps those whose flag is true; the flags are not recomputed. */
  function ReturnAll(s: seq<Book>): (o: Step<seq<Book>, seq<Book>>)
    ensures forall i :: 0 <= i < |o.reply| ==> o.reply[i] in s && !o.reply[i].isOverdue
    ensures forall i :: 0 <= i < |s| && !s[i].isOverdue ==> s[i] in o.reply
    ensures forall i :: 0 <= i < |o.next| ==> o.next[i] in s && o.next[i].isOverdue
    ensures forall i :: 0 <= i < |s| && s[i].isOverdue ==> s[i] in o.next
    ensures IsSubsequence(o.reply, s) && IsSubsequence(o.next, s)
    ensures |o.reply| + |o.next| == |s|
  {
    FilterComplement(s, IsCurrent, IsOverdue);
    FilterMembers(s, IsCurrent);
    FilterMembers(s, IsOverdue);
    Step(Filter(s, IsCurrent), Filter(s, IsOverdue))
  }

  /** getBookStats: loans split by their stored flag. */
  function GetBookStats(s: seq<Book>): (st: BookStats)
    ensures st.current == |Filter(s, IsCurrent)| && st.overdue == |Filter(s, IsOverdue)|
    ensures st.current + st.overdue == |s|
    ensures st.current == 0 <==> forall i :: 0 <= i < |s| ==> s[i].isOverdue
    ensures st.overdue == 0 <==> forall i :: 0 <= i < |s| ==> !s[i].isOverdue
  {
    FilterComplement(s, IsCurrent, IsOverdue);
    FilterMembers(s, IsCurrent);
    FilterMembers(s, IsOverdue);
    var current, overdue := Filter(s, IsCurrent), Filter(s, IsOverdue);
    assert current != [] ==> current[0] in s;
    assert overdue != [] ==> overdue[0] in s;
    BookStats(|current|, |overdue|)
  }

  /** After returning all current loans, no current loan is left. */
  lemma ReturnAllLeavesNoCurrent(s: seq<Book>)
    ensures GetBookStats(ReturnAll(s).next).current == 0
    ensures GetBookStats(ReturnAll(s).next).overdue == GetBookStats(s).overdue
  {
    var kept := ReturnAll(s).next;
    FilterAll(kept, IsOverdue);
  }

  // ---------------------------------------------------------------- renew

  /** renewBook: fails for an unknown id and for a loan whose stored flag says
      overdue; otherwise only that loan's due date moves RenewalDays later. */
  function Renew(s: seq<Book>, id: int): (o: Step<Result<Book, Error>, seq<Book>>)
    ensures o.reply == Failure(BookNotFound) <==> forall j :: 0 <= j < |s| ==> s[j].id != id
    ensures o.reply == Failure(OverdueCannotBeRenewed) <==>
              IndexOfId(s, id).Some? && s[IndexOfId(s, id).value].isOverdue
    ensures o.reply.Failure? ==> o.next == s
    ensures o.reply.Success? ==>
              var i := IndexOfId(s, id).value;
              && |o.next| == |s|
              && o.next[i] == s[i].(returnDate := s[i].returnDate + RenewalDays)
              && !o.next[i].isOverdue
              && o.reply.data == o.next[i]
              && forall j :: 0 <= j < |s| && j != i ==> o.next[j] == s[j]
  {
    match IndexOfId(s, id)
    case None => Step(Failure(BookNotFound), s)
    case Some(i) =>
      if s[i].isOverdue then Step(Failure(OverdueCannotBeRenewed), s)
      else
        var renewed := s[i].(returnDate := s[i].returnDate + RenewalDays);
        Step(Success(renewed), s[i := renewed])
  }

  /** Renewing keeps the split between current and overdue loans. */
  lemma {:induction false} RenewKeepsStats(s: seq<Book>, id: int)
    ensures GetBookStats(Renew(s, id).next) == GetBookStats(s)
  {
    var o := Renew(s, id);
    if o.reply.Success? {
      FilterCountAgrees(s, o.next, IsOverdue);
      FilterComplement(s, IsCurrent, IsOverdue);
      FilterComplement(o.next, IsCurrent, IsOverdue);
    }
  }

  /** Two renewals are a renewal by twice RenewalDays. */
  lemma RenewTwice(s: seq<Book>, id: int)
    requires Renew(s, id).reply.Success?
    ensures Renew(Renew(s, id).next, id).reply.Success?
    ensures var i := IndexOfId(s, id).value;
            Renew(Renew(s, id).next, id).next == s[i := s[i].(returnDate := s[i].returnDate + 2 * RenewalDays)]
  {
    var mid := Renew(s, id).next;
    var i := IndexOfId(s, id).value;
    assert forall j :: 0 <= j < |s| ==> mid[j].id == s[j].id;
    assert IndexOfId(mid, id) == Some(i);
  }

  // ---------------------------------------------------------------- the store

  /** The module-level `mockBooksData` array behind the `mockApi` object. */
  class BorrowedStore {
    var books: seq<Book>

    constructor (seed: seq<Book>)
      ensures books == seed
    {
      books := seed;
    }

    /** fetchBorrowedBooks: recompute the flags, write them back, reply with a copy. */
    method FetchBorrowedBooks(now: int) returns (r: seq<Book>)
      modifies this
      ensures books == RefreshOverdue(old(books), now)
      ensures r == books
    {
      books := RefreshOverdue(books, now);
      r := books;
    }

    method ReturnBook(bookId: int) returns (r: Result<Book, Error>)
      modifies this
      ensures Step(r, books) == Remove(old(books), bookId)
    {
      var index := IndexOfId(books, bookId);
      if index.None? {
        FilterComplement(books, OtherIdTest(bookId), IdTest(bookId));
        return Failure(BookNotFound);
      }
      var returned := books[index.value];
      books := Filter(books, OtherIdTest(bookId));
      r := Success(returned);
    }

    method ReturnAllBooks() returns (r: seq<Book>)
      modifies this
      ensures Step(r, books) == ReturnAll(old(books))
    {
      r := Filter(books, IsCurrent);
      books := Filter(books, IsOverdue);
    }

    method RenewBook(bookId: int) returns (r: Result<Book, Error>)
      modifies this
      ensures Step(r, books) == Renew(old(books), bookId)
    {
      var index := IndexOfId(books, bookId);
      if index.None? {
        return Failure(BookNotFound);
      }
      var i := index.value;
      var book := books[i];
      if book.isOverdue {
        return Failure(OverdueCannotBeRenewed);
      }
      var updated := book.(returnDate := book.returnDate + RenewalDays);
      books := books[i := updated];
      r := Success(updated);
    }
  }
}
